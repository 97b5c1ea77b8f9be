/** The client's reply buffer: a parse cursor over bytes received in arbitrary chunks, moved,
    rewound and compacted in place. */
module Replies {
  import opened ReplySpec
  import opened RawReplies

  datatype Status = Consumed | NeedMore | Malformed

  function StatusOf(p: Parse): Status {
    match p
    case Took(_) => Consumed
    case More => NeedMore
    case Bad => Malformed
  }

  /** Where the cursor goes after trying one reply: forward past a complete one, else nowhere. */
  function Moved(start: nat, p: Parse): nat {
    if p.Took? then start + p.n else start
  }

  /** The other end of the socket: recv delivers some positive number of the bytes that remain. */
  class Source {
    var rest: seq<char>

    constructor (bytes: seq<char>)
      ensures rest == bytes
    {
      rest := bytes;
    }

    method Recv(most: nat) returns (bytes: seq<char>)
      requires most > 0
      modifies this
      ensures |bytes| <= most && old(rest) == bytes + rest
      ensures old(rest) != [] ==> |bytes| > 0
    {
      var got: nat :| got <= most && got <= |rest| && (rest != [] ==> got > 0);
      bytes := rest[..got];
      rest := rest[got..];
    }
  }

  /** n parsed replies in front of what the rest parses to. */
  function Plus(k: nat, p: Parse): Parse {
    if p.Took? then Took(k + p.n) else p
  }

  /** n replies in a row, as the code decides them from the bytes held. */
  function Held(g: Grammar, s: seq<char>, stale: seq<char>, n: nat): (p: Parse)
    ensures p.Took? ==> p.n <= |s|
    decreases n
  {
    if n == 0 then Took(0)
    else
      var p := RawFirst(g, s, stale);
      if p.Took? then Plus(p.n, Held(g, s[p.n..], stale, n - 1)) else p
  }

  /** With length fields that have non-blanks these are the n replies of the grammar. */
  lemma {:induction false} HeldIsFits(g: Grammar, s: seq<char>, stale: seq<char>, n: nat, cap: nat)
    requires PlainAll(g, s, n) && |s| <= cap
    ensures Held(g, s, stale, n).Took? <==> Fits(g, s, n, cap)
    ensures Held(g, s, stale, n).Took? ==> After(g, s, n) == s[Held(g, s, stale, n).n..]
    decreases n
  {
    hide First, RawFirst, PlainFirst;
    if n > 0 {
      RawIsFirst(g, s, stale);
      if First(g, s).Took? {
        var k := First(g, s).n;
        HeldIsFits(g, s[k..], stale, n - 1, cap);
        var p := Held(g, s[k..], stale, n - 1);
        if p.Took? { assert s[k..][p.n..] == s[k + p.n..]; }
      }
    }
  }

  /** The bytes held decide n replies as those after the first `moved` bytes decide the m that remain. */
  ghost predicate OnHeld(g: Grammar, s: seq<char>, stale: seq<char>, n: nat, moved: nat, t: seq<char>,
      stale': seq<char>, m: nat)
  {
    && moved <= |s| && t == s[moved..] && stale' == stale
    && Held(g, s, stale, n) == Plus(moved, Held(g, t, stale, m))
  }

  lemma DecidedNext(g: Grammar, s: seq<char>, stale: seq<char>, n: nat, moved: nat, t: seq<char>, stale': seq<char>,
      m: nat)
    requires m > 0 && OnHeld(g, s, stale, n, moved, t, stale', m)
    ensures match RawFirst(g, t, stale')
      case Took(k) => OnHeld(g, s, stale, n, moved + k, t[k..], stale', m - 1)
      case p => Held(g, s, stale, n) == p
  {
    hide RawFirst;
    var p := RawFirst(g, t, stale);
    if p.Took? { assert s[moved..][p.n..] == s[moved + p.n..]; }
  }

  lemma HeldStart(g: Grammar, s: seq<char>, stale: seq<char>, n: nat)
    ensures OnHeld(g, s, stale, n, 0, s, stale, n)
  {
    PlusNothing(Held(g, s, stale, n));
  }

  lemma HeldEnd(g: Grammar, s: seq<char>, stale: seq<char>, n: nat, moved: nat, t: seq<char>, stale': seq<char>)
    requires OnHeld(g, s, stale, n, moved, t, stale', 0)
    ensures Held(g, s, stale, n) == Took(moved) && t == s[moved..]
  {
  }

  lemma PlusNothing(p: Parse)
    ensures Plus(0, p) == p
  {
  }

  lemma ItemsStep(s: seq<char>, n: nat, k: nat, stale: seq<char>)
    requires n > 0
    ensures var p := RawReply(s, stale);
      && (p.Took? ==> Plus(k, RawItems(s, n, stale)) == Plus(k + p.n, RawItems(s[p.n..], n - 1, stale)))
      && (!p.Took? ==> Plus(k, RawItems(s, n, stale)) == p)
  {
    hide RawReply;
  }

  lemma NoItems(s: seq<char>, k: nat, stale: seq<char>)
    ensures Plus(k, RawItems(s, 0, stale)) == Took(k)
  {
  }

  lemma SliceOfSlice(a: array<char>, i: nat, j: nat, p: nat, q: nat)
    requires i <= j <= a.Length && p <= q <= j - i
    ensures a[i..j][p..q] == a[i + p..i + q]
  {
    assert forall k :: 0 <= k < q - p ==> a[i..j][p..q][k] == a[i + p..i + q][k];
  }

  class ReplyBuffer {
    const buf: array<char>
    var len: nat
    var start: nat

    ghost predicate Valid()
      reads `len, `start
    {
      start <= len <= buf.Length
    }

    /** The bytes received and not yet consumed. */
    ghost function Pending(): (s: seq<char>)
      requires Valid()
      reads `len, `start, buf
      ensures |s| <= buf.Length
    {
      buf[start..len]
    }

    /** What the array holds behind the bytes received: earlier contents. */
    ghost function Stale(): seq<char>
      requires Valid()
      reads `len, `start, buf
    {
      buf[len..]
    }

    /** The client's buffer holds one mebibyte; nothing here depends on the size. */
    constructor (cap: nat)
      ensures Valid() && fresh(buf) && buf.Length == cap && Pending() == []
    {
      buf := new char[cap];
      len, start := 0, 0;
    }

    method FindCrlf() returns (found: bool, i: nat)
      requires Valid()
      ensures found <==> Crlf(Pending()) < |Pending()|
      ensures found ==> i == start + Crlf(Pending())
    {
      ghost var s := Pending();
      i := start;
      while i + 1 < len
        invariant start <= i && (i <= len || i == start)
        invariant i <= len ==> Crlf(s) == i - start + Crlf(s[i - start..])
      {
        if buf[i] == '\r' && buf[i + 1] == '\n' { return true, i; }
        assert s[i - start..][1..] == s[i + 1 - start..];
        i := i + 1;
      }
      return false, 0;
    }

    /** Consumes one complete reply from the front; otherwise the cursor ends where it was. */
    method TryOneReply() returns (r: Status)
      requires Valid()
      modifies `start
      ensures Valid()
      ensures var p := RawReply(old(Pending()), Stale());
        r == StatusOf(p) && start == Moved(old(start), p)
      decreases len - start
    {
      hide Crlf, Number, RawItems;
      ghost var s := Pending();
      var found, crlf := FindCrlf();
      if !found { return NeedMore; }
      var kind := buf[start];
      if kind == '+' || kind == '-' || kind == ':' {
        start := crlf + 2;
        return Consumed;
      }
      if kind != '$' && kind != '*' { return Malformed; }
      assert s[1..] + Stale() == buf[start + 1..];
      var n := Number(buf[start + 1..]);
      if kind == '$' {
        if n < 0 {
          start := crlf + 2;
          return Consumed;
        }
        var need := crlf + 2 + n + 2;
        if len < need { return NeedMore; }
        start := need;
        return Consumed;
      }
      SliceOfSlice(buf, start, len, Crlf(s) + 2, |s|);
      r := TryElements(crlf + 2, AtLeastZero(n));
    }

    /** The elements of an array, each parsed like a reply; all or nothing. */
    method TryElements(first: nat, n: nat) returns (r: Status)
      requires Valid() && start < first <= len
      modifies `start
      ensures Valid()
      ensures var p := RawItems(old(buf[first..len]), n, Stale());
        r == StatusOf(p) && start == if p.Took? then first + p.n else old(start)
      decreases len - start, 0
    {
      hide RawReply, RawItems, Plus;
      var save := start;
      ghost var s, stale := buf[first..len], Stale();
      start := first;
      PlusNothing(RawItems(s, n, stale));
      for i := 0 to n
        invariant Valid() && first <= start
        invariant RawItems(s, n, stale) == Plus(start - first, RawItems(buf[start..len], n - i, stale))
      {
        ghost var before, rest := start, buf[start..len];
        ItemsStep(rest, n - i, start - first, stale);
        r := TryOneReply();
        if r != Consumed {
          start := save;
          return r;
        }
        SliceOfSlice(buf, before, len, start - before, |rest|);
      }
      NoItems(buf[start..len], start - first, stale);
      r := Consumed;
    }

    method TryOneReplyMc() returns (r: Status)
      requires Valid()
      modifies `start
      ensures Valid()
      ensures var p := RawMcReply(old(Pending()), Stale());
        r == StatusOf(p) && start == Moved(old(start), p)
    {
      hide Crlf, Number, AfterBlanks;
      var found, crlf := FindCrlf();
      if !found { return NeedMore; }
      var hit := IsHit();
      if hit {
        var ok, n := ByteCount(crlf);
        if !ok { return Malformed; }
        var need := crlf + 2 + n + 2 + 5;
        if len < need { return NeedMore; }
        start := need;
        return Consumed;
      }
      start := crlf + 2;
      return Consumed;
    }

    method IsHit() returns (b: bool)
      requires Valid()
      ensures b <==> |Pending()| >= 6 && Pending()[..6] == VALUE
    {
      if len - start >= 6 { SliceOfSlice(buf, start, len, 0, 6); }
      b := len - start >= 6 && buf[start..start + 6] == VALUE;
    }

    /** The byte count of a hit's header line that ends at crlf. */
    method ByteCount(crlf: nat) returns (ok: bool, n: nat)
      requires Valid() && start <= crlf <= len
      ensures var s, c := Pending(), crlf - start; var i := AfterBlanks(s[..c], 3);
        && (ok <==> i <= c && Number(s[i..] + Stale()) >= 0)
        && (ok ==> n == Number(s[i..] + Stale()))
    {
      hide Number, AfterBlanks;
      SliceOfSlice(buf, start, len, 0, crlf - start);
      ghost var i := AfterBlanks(buf[start..crlf], 3);
      if i <= crlf - start { Behind(buf, start, crlf, len, i); }
      ok, n := DeclaredBytes(buf[start..crlf], buf[crlf..]);
    }

    /** One try leaves the bytes behind a reply taken, and otherwise all of them. */
    method TryReply(g: Grammar) returns (r: Status)
      requires Valid()
      modifies `start
      ensures Valid()
      ensures var p := RawFirst(g, old(Pending()), old(Stale()));
        && r == StatusOf(p) && Stale() == old(Stale())
        && Pending() == if p.Took? then old(Pending())[p.n..] else old(Pending())
    {
      hide RawReply, RawMcReply;
      ghost var held, before := Pending(), start;
      if g.Memcached? { r := TryOneReplyMc(); } else { r := TryOneReply(); }
      if r == Consumed { SliceOfSlice(buf, before, len, start - before, |held|); }
    }

    /** Moves the pending bytes to the front of the buffer. */
    method Compact()
      requires Valid()
      modifies this, buf
      ensures Valid() && start == 0 && Pending() == old(Pending()) && len == |Pending()|
    {
      if start > 0 {
        forall i | 0 <= i < len - start { buf[i] := buf[start + i]; }
        len := len - start;
        start := 0;
      }
    }

    method Append(bytes: seq<char>)
      requires Valid() && len + |bytes| <= buf.Length
      modifies this, buf
      ensures Valid() && start == old(start) && Pending() == old(Pending()) + bytes
    {
      forall i | 0 <= i < |bytes| { buf[len + i] := bytes[i]; }
      len := len + |bytes|;
    }

    /** Consumes exactly n replies. If their length fields have non-blanks then, however the bytes are
        cut into chunks, it succeeds exactly if they begin with n replies of which none outgrows the
        buffer, and leaves what follows. Bytes are only ever consumed from the front, and if those held
        decide the matter nothing is received: n complete replies are taken, a malformed one fails. */
    method DrainN(g: Grammar, n: nat, source: Source) returns (ok: bool)
      requires Valid()
      modifies this, buf, source
      ensures Valid()
      ensures var all := old(Pending() + source.rest);
        && EndsWith(all, Pending() + source.rest)
        && (PlainAll(g, all, n) ==>
              && (ok <==> Fits(g, all, n, buf.Length))
              && (ok ==> Pending() + source.rest == After(g, all, n)))
      ensures var p := Held(g, old(Pending()), old(Stale()), n);
        !p.More? ==>
          && source.rest == old(source.rest) && (ok <==> p.Took?)
          && (ok ==> Pending() == old(Pending())[p.n..])
    {
      hide First, RawFirst, PlainFirst, PlainAll, Fits, After, EndsWith, Held, OnHeld, Pending, Stale;
      ghost var all := Pending() + source.rest;
      ghost var bytes, behind := Pending(), Stale();
      ghost var moved: nat := 0;
      var done := 0;
      NothingConsumed(all);
      HeldStart(g, bytes, behind, n);
      while done < n
        invariant Valid() && done <= n && EndsWith(all, Pending() + source.rest)
        invariant PlainAll(g, all, n) ==> SameOutcome(g, all, n, Pending() + source.rest, n - done, buf.Length)
        invariant !Held(g, bytes, behind, n).More? ==>
          source.rest == old(source.rest) && OnHeld(g, bytes, behind, n, moved, Pending(), Stale(), n - done)
        decreases n - done, |source.rest|
      {
        ghost var held, rest := Pending(), source.rest;
        TryFits(g, held, Stale(), rest, n - done, buf.Length);
        if !Held(g, bytes, behind, n).More? { DecidedNext(g, bytes, behind, n, moved, held, Stale(), n - done); }
        var r := TryReply(g);
        if r == Consumed {
          ghost var k := |held| - |Pending()|;
          ConsumedMore(all, held, rest, k);
          done, moved := done + 1, moved + k;
        } else if r == Malformed {
          return false;
        } else {
          var more := Refill(source);
          if !more { return false; }
        }
      }
      NoneLeft(g, Pending() + source.rest, buf.Length);
      if !Held(g, bytes, behind, n).More? { HeldEnd(g, bytes, behind, n, moved, Pending(), Stale()); }
      ok := true;
    }

    /** Compacts and receives once: fails with a full buffer or at the end of the bytes. */
    method Refill(source: Source) returns (more: bool)
      requires Valid()
      modifies this, buf, source
      ensures Valid() && Pending() + source.rest == old(Pending() + source.rest)
      ensures more ==> |source.rest| < old(|source.rest|)
      ensures !more ==> old(|Pending()|) == buf.Length || old(source.rest) == []
    {
      ghost var held, rest := Pending(), source.rest;
      Compact();
      if len == buf.Length { return false; }
      var bytes := source.Recv(buf.Length - len);
      if |bytes| == 0 { return false; }
      Joined(held, bytes, source.rest);
      Append(bytes);
      more := true;
    }
  }

  lemma NoneLeft(g: Grammar, s: seq<char>, cap: nat)
    ensures Fits(g, s, 0, cap) && After(g, s, 0) == s
  {
  }

  ghost predicate EndsWith(all: seq<char>, tail: seq<char>) {
    |tail| <= |all| && all[|all| - |tail|..] == tail
  }

  lemma NothingConsumed(all: seq<char>)
    ensures EndsWith(all, all)
  {
  }

  lemma ConsumedMore(all: seq<char>, held: seq<char>, rest: seq<char>, k: nat)
    requires EndsWith(all, held + rest) && k <= |held|
    ensures EndsWith(all, held[k..] + rest)
  {
    assert (held + rest)[k..] == held[k..] + rest;
  }

  /** Draining n replies of s and m of t comes to the same, and t is as plain. */
  ghost predicate SameOutcome(g: Grammar, s: seq<char>, n: nat, t: seq<char>, m: nat, cap: nat) {
    && PlainAll(g, t, m)
    && (Fits(g, s, n, cap) <==> Fits(g, t, m, cap))
    && (Fits(g, s, n, cap) ==> After(g, s, n) == After(g, t, m))
  }

  /** What one try tells about the whole: a reply taken now is the first of those to come; a
      malformed one, or an undecided one with a full buffer or no bytes left, rules them out. */
  lemma TryFits(g: Grammar, held: seq<char>, stale: seq<char>, rest: seq<char>, n: nat, cap: nat)
    requires n > 0 && |held| <= cap
    ensures PlainAll(g, held + rest, n) ==>
      match RawFirst(g, held, stale)
      case Took(k) =>
        && PlainAll(g, held[k..] + rest, n - 1)
        && (Fits(g, held + rest, n, cap) <==> Fits(g, held[k..] + rest, n - 1, cap))
        && After(g, held + rest, n) == After(g, held[k..] + rest, n - 1)
      case Bad => !Fits(g, held + rest, n, cap)
      case More => |held| == cap || rest == [] ==> !Fits(g, held + rest, n, cap)
  {
    hide First, RawFirst, PlainFirst;
    if PlainAll(g, held + rest, n) {
      PlainFirstPrefix(g, held, rest);
      RawIsFirst(g, held, stale);
      if !First(g, held).More? {
        FirstStable(g, held, rest);
        if First(g, held).Took? {
          assert (held + rest)[First(g, held).n..] == held[First(g, held).n..] + rest;
        }
      } else if rest == [] {
        assert held + rest == held;
      } else if First(g, held + rest).Took? && First(g, held + rest).n <= |held| {
        FirstLocal(g, held, rest);
      }
    }
  }

  lemma Behind(a: array<char>, i: nat, j: nat, k: nat, f: nat)
    requires i <= j <= k <= a.Length && f <= j - i
    ensures a[i..j][f..] + a[j..] == a[i..k][f..] + a[k..]
  {
    assert a[i..j][f..] + a[j..] == a[i + f..];
    assert a[i..k][f..] + a[k..] == a[i + f..];
  }

  /** The third field of a hit's header line, which declares the size of the data. The conversion sees
      everything behind the line too. */
  method DeclaredBytes(line: seq<char>, behind: seq<char>) returns (ok: bool, n: nat)
    ensures var i := AfterBlanks(line, 3);
      && (ok <==> i <= |line| && Number(line[i..] + behind) >= 0)
      && (ok ==> n == Number(line[i..] + behind))
  {
    var spaces, i := 0, 0;
    while i < |line|
      invariant i <= |line| && spaces < 3
      invariant AfterBlanks(line, 3) == i + AfterBlanks(line[i..], 3 - spaces)
    {
      assert line[i..][1..] == line[i + 1..];
      if line[i] == ' ' {
        spaces := spaces + 1;
        if spaces == 3 {
          var v := Number(line[i + 1..] + behind);
          if v < 0 { return false, 0; }
          return true, v;
        }
      }
      i := i + 1;
    }
    return false, 0;
  }

  /** Draining n RESP replies is parsing n replies in a row. */
  lemma {:induction false} DrainIsItems(s: seq<char>, n: nat)
    ensures Fits(Resp, s, n, |s|) <==> Items(s, n).Took?
    ensures Items(s, n).Took? ==> After(Resp, s, n) == s[Items(s, n).n..]
  {
    FitsWithin(Resp, s, n, |s|);
  }

  lemma {:induction false} FitsWithin(g: Grammar, s: seq<char>, n: nat, cap: nat)
    requires g.Resp? && |s| <= cap
    ensures Fits(g, s, n, cap) <==> Items(s, n).Took?
    ensures Items(s, n).Took? ==> After(g, s, n) == s[Items(s, n).n..]
    decreases n
  {
    hide Reply;
    if n > 0 && Reply(s).Took? {
      var k := Reply(s).n;
      FitsWithin(g, s[k..], n - 1, cap);
      if Items(s[k..], n - 1).Took? {
        var j := Items(s[k..], n - 1).n;
        assert s[k..][j..] == s[k + j..];
      }
    }
  }

  // ---------- the command that loads one record ----------

  const FIELD_COUNT: nat := 10
  const FIELD_BYTES: nat := 100
  const VALUE_BYTES: nat := 1000

  /** What a conversion with precision FIELD_BYTES prints of a string. */
  function Shown(val: seq<char>): seq<char> {
    if |val| < FIELD_BYTES then val else val[..FIELD_BYTES]
  }

  function FieldArgs(n: nat, val: seq<char>): (args: seq<seq<char>>)
    ensures |args| == 2 * n
  {
    if n == 0 then [] else FieldArgs(n - 1, val) + ["field" + Digits(n - 1), Shown(val)]
  }

  function HsetArgs(id: nat, val: seq<char>): seq<seq<char>> {
    ["HSET", "user" + Digits(id)] + FieldArgs(FIELD_COUNT, val)
  }

  /** One field as it is printed: the declared size of its value is a constant. */
  lemma {:induction false} FieldArgsAre(n: nat, val: seq<char>, f: nat)
    requires f < n
    ensures FieldArgs(n, val)[2 * f] == "field" + Digits(f)
    ensures FieldArgs(n, val)[2 * f + 1] == if |val| <= 100 then val else val[..100]
  {
    if f < n - 1 { FieldArgsAre(n - 1, val, f); }
  }

  /** The command has 22 arguments: its name, the user's key, and ten fields by name, each with the
      first hundred bytes of the value. */
  lemma CommandMeans(id: nat, val: seq<char>, f: nat)
    requires f < 10
    ensures var args := HsetArgs(id, val);
      && |args| == 22 && args[0] == "HSET" && args[1] == "user" + Digits(id)
      && args[2 + 2 * f] == "field" + Digits(f)
      && args[3 + 2 * f] == if |val| <= 100 then val else val[..100]
  {
    FieldArgsAre(10, val, f);
  }

  function Field(f: nat, val: seq<char>): seq<char> {
    Bulk("field" + Digits(f)) + (Header('$', FIELD_BYTES) + Shown(val) + CRLF)
  }

  function Fields(n: nat, val: seq<char>): seq<char> {
    if n == 0 then [] else Fields(n - 1, val) + Field(n - 1, val)
  }

  function Opening(id: nat): seq<char> {
    Header('*', 2 + 2 * FIELD_COUNT) + (HsetWord() + Bulk("user" + Digits(id)))
  }

  function HsetWord(): seq<char> {
    ['$', '4'] + CRLF + "HSET" + CRLF
  }

  lemma {:induction false} BulksConcat(a: seq<seq<char>>, b: seq<seq<char>>)
    ensures Bulks(a + b) == Bulks(a) + Bulks(b)
  {
    hide Bulk;
    if a == [] {
      assert a + b == b;
    } else {
      BulksConcat(a[1..], b);
      assert (a + b)[1..] == a[1..] + b && (a + b)[0] == a[0];
      assert Bulk(a[0]) + (Bulks(a[1..]) + Bulks(b)) == Bulk(a[0]) + Bulks(a[1..]) + Bulks(b);
    }
  }

  lemma TwoBulks(x: seq<char>, y: seq<char>)
    ensures Bulks([x, y]) == Bulk(x) + Bulk(y)
  {
    hide Bulk;
    assert [x, y][1..] == [y] && [y][1..] == [];
    assert Bulks([y]) == Bulk(y) + [];
    assert Bulk(y) + [] == Bulk(y);
  }

  lemma {:induction false} FieldsAreBulks(n: nat, val: seq<char>)
    requires |val| >= FIELD_BYTES
    ensures Fields(n, val) == Bulks(FieldArgs(n, val))
  {
    if n > 0 {
      hide Digits, Header;
      FieldsAreBulks(n - 1, val);
      BulksConcat(FieldArgs(n - 1, val), ["field" + Digits(n - 1), Shown(val)]);
      TwoBulks("field" + Digits(n - 1), Shown(val));
    }
  }

  /** A shorter value is declared with three digits where its length has two at most. */
  lemma {:induction false} FieldsAreLonger(n: nat, val: seq<char>)
    requires |val| < FIELD_BYTES
    ensures |Fields(n, val)| >= |Bulks(FieldArgs(n, val))| + n
  {
    if n > 0 {
      FieldsAreLonger(n - 1, val);
      FieldIsLonger("field" + Digits(n - 1), val);
      BulksConcat(FieldArgs(n - 1, val), ["field" + Digits(n - 1), Shown(val)]);
      TwoBulks("field" + Digits(n - 1), Shown(val));
    }
  }

  lemma FieldIsLonger(name: seq<char>, val: seq<char>)
    requires |val| < FIELD_BYTES
    ensures |Bulk(name) + (Header('$', FIELD_BYTES) + Shown(val) + CRLF)| >= |Bulk(name)| + |Bulk(Shown(val))| + 1
  {
    DigitsSize(|val|, 2);
    HundredSize();
  }

  lemma HundredSize()
    ensures |Digits(FIELD_BYTES)| == 3
  {
    assert Digits(100) == Digits(10) + [Digit(0)];
    assert Digits(10) == Digits(1) + [Digit(0)];
  }

  function Pow10(k: nat): nat {
    if k == 0 then 1 else 10 * Pow10(k - 1)
  }

  lemma {:induction false} DigitsSize(n: nat, k: nat)
    requires k > 0 && n < Pow10(k)
    ensures |Digits(n)| <= k
  {
    if n >= 10 {
      assert k > 1;
      DigitsSize(n / 10, k - 1);
    }
  }

  lemma OpeningIsBulks(id: nat)
    ensures Opening(id) == Header('*', 2 + 2 * FIELD_COUNT) + Bulks(["HSET", "user" + Digits(id)])
  {
    TwoBulks("HSET", "user" + Digits(id));
    WordIsBulk();
  }

  lemma WordIsBulk()
    ensures HsetWord() == Bulk("HSET")
  {
    assert Digits(4) == ['4'];
  }

  /** The printed command is the array of its arguments if and only if the value fills the field. */
  lemma CommandIsArray(id: nat, val: seq<char>)
    ensures Opening(id) + Fields(FIELD_COUNT, val) == Array(HsetArgs(id, val)) <==> |val| >= FIELD_BYTES
  {
    hide Header, Bulks, FieldArgs, Fields, Digits, Opening;
    var head := ["HSET", "user" + Digits(id)];
    OpeningIsBulks(id);
    BulksConcat(head, FieldArgs(FIELD_COUNT, val));
    Joined(Header('*', 2 + 2 * FIELD_COUNT), Bulks(head), Bulks(FieldArgs(FIELD_COUNT, val)));
    if |val| >= FIELD_BYTES { FieldsAreBulks(FIELD_COUNT, val); } else { FieldsAreLonger(FIELD_COUNT, val); }
  }

  lemma Joined(a: seq<char>, b: seq<char>, c: seq<char>)
    ensures a + b + c == a + (b + c)
  {
  }

  const ID_LIMIT: nat := 0x1_0000_0000_0000_0000

  /** Whatever the record, the command fits the buffer its caller prints it into. */
  lemma CommandFits(id: nat, val: seq<char>)
    requires id < ID_LIMIT
    ensures |Opening(id) + Fields(FIELD_COUNT, val)| < VALUE_BYTES + 256
  {
    UserSize(id);
    FieldsSize(FIELD_COUNT, val);
    hide Digits, Fields;
    DigitsSize(22, 2);
    DigitsSize(|"user" + Digits(id)|, 2);
  }

  lemma UserSize(id: nat)
    requires id < ID_LIMIT
    ensures |Digits(id)| <= 20
  {
    assert Pow10(5) == 100000;
    assert Pow10(10) == 100000 * Pow10(5);
    assert Pow10(15) == 100000 * Pow10(10);
    assert Pow10(20) == 100000 * Pow10(15);
    DigitsSize(id, 20);
  }

  lemma {:induction false} FieldsSize(n: nat, val: seq<char>)
    requires n <= FIELD_COUNT
    ensures |Fields(n, val)| <= 120 * n
  {
    if n > 0 {
      FieldsSize(n - 1, val);
      DigitsSize(n - 1, 1);
      DigitsSize(6, 1);
      HundredSize();
    }
  }

  /** HSET user<id> with every field holding the same bytes of a string. */
  method BuildHset(id: nat, val: seq<char>) returns (out: seq<char>)
    ensures out == Opening(id) + Fields(FIELD_COUNT, val)
    ensures out == Array(HsetArgs(id, val)) <==> |val| >= FIELD_BYTES
    ensures id < ID_LIMIT ==> |out| < VALUE_BYTES + 256
  {
    hide Header, Bulks, Digits, Array, HsetArgs;
    var key := "user" + Digits(id);
    out := Header('*', 2 + 2 * FIELD_COUNT) + (HsetWord() + (Header('$', |key|) + key + CRLF));
    assert out + Fields(0, val) == out;
    for f := 0 to FIELD_COUNT
      invariant out == Opening(id) + Fields(f, val)
    {
      var name := "field" + Digits(f);
      var pair := Header('$', |name|) + name + CRLF + (Header('$', FIELD_BYTES) + Shown(val) + CRLF);
      assert pair == Field(f, val);
      Joined(Opening(id), Fields(f, val), Field(f, val));
      out := out + pair;
    }
    CommandIsArray(id, val);
    if id < ID_LIMIT { CommandFits(id, val); }
  }

  /** The parser takes the built command as exactly one array, whatever follows it and whatever the
      buffer held. */
  lemma HsetIsOneReply(id: nat, val: seq<char>, rest: seq<char>, stale: seq<char>)
    requires |val| >= FIELD_BYTES && id < ID_LIMIT
    ensures RawReply(Array(HsetArgs(id, val)) + rest, stale) == Took(|Array(HsetArgs(id, val))|)
  {
    hide Header, Bulks, Digits, RawReply, Reply;
    FieldSizes(FIELD_COUNT, val);
    UserSize(id);
    ArrayParses(HsetArgs(id, val), rest);
    ArrayIsPlain(HsetArgs(id, val), rest);
    RawIsReply(Array(HsetArgs(id, val)) + rest, stale);
  }

  lemma {:induction false} FieldSizes(n: nat, val: seq<char>)
    requires n <= FIELD_COUNT
    ensures forall i :: 0 <= i < |FieldArgs(n, val)| ==> |FieldArgs(n, val)[i]| <= FIELD_BYTES
  {
    if n > 0 {
      FieldSizes(n - 1, val);
      DigitsSize(n - 1, 1);
    }
  }
}
