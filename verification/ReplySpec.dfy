/** The reply grammars of the two servers, as functions of the bytes held: how many bytes the first
    reply takes, whether more bytes are needed, or that they are malformed. */
module ReplySpec {

  datatype Parse = More | Bad | Took(n: nat)

  datatype Grammar = Resp | Memcached

  const LONG_MAX: int := 0x7FFF_FFFF_FFFF_FFFF

  /** Offset of the first CR LF, or the length if there is none. */
  function Crlf(s: seq<char>): (i: nat)
    ensures i <= |s|
    ensures i < |s| ==> i + 1 < |s| && s[i] == '\r' && s[i + 1] == '\n'
    ensures forall j :: 0 <= j < i && j + 1 < |s| ==> !(s[j] == '\r' && s[j + 1] == '\n')
  {
    if |s| < 2 then |s|
    else if s[0] == '\r' && s[1] == '\n' then 0
    else 1 + Crlf(s[1..])
  }

  // ---------- decimal numbers ----------

  predicate IsDigit(c: char) {
    '0' <= c <= '9'
  }

  predicate IsSpace(c: char) {
    c == ' ' || 9 as char <= c <= 13 as char
  }

  function Value(c: char): nat
    requires IsDigit(c)
  {
    (c - '0') as nat
  }

  /** The value of the leading digits, continuing from `acc`. */
  function Leading(s: seq<char>, acc: nat): nat
    decreases |s|
  {
    if s == [] || !IsDigit(s[0]) then acc else Leading(s[1..], 10 * acc + Value(s[0]))
  }

  function Clamp(n: int): int {
    if n > LONG_MAX then LONG_MAX else if n < -LONG_MAX - 1 then -LONG_MAX - 1 else n
  }

  /** The C library's decimal conversion of one field: blanks, a sign, digits, the rest ignored. */
  function Number(s: seq<char>): int
    decreases |s|
  {
    if s == [] then 0
    else if IsSpace(s[0]) then Number(s[1..])
    else if s[0] == '-' then Clamp(0 - Leading(s[1..], 0))
    else if s[0] == '+' then Clamp(Leading(s[1..], 0))
    else Clamp(Leading(s, 0))
  }

  function AtLeastZero(n: int): nat {
    if n < 0 then 0 else n
  }

  // ---------- the grammars ----------

  function Reply(s: seq<char>): (p: Parse)
    ensures p.Took? ==> 0 < p.n <= |s|
    decreases |s|, 0, 0
  {
    var c := Crlf(s);
    if c == |s| then More
    else if s[0] == '+' || s[0] == '-' || s[0] == ':' then Took(c + 2)
    else if s[0] == '$' then
      var n := Number(s[1..c]);
      if n < 0 then Took(c + 2) else if |s| < c + 2 + n + 2 then More else Took(c + 2 + n + 2)
    else if s[0] == '*' then
      var n := Number(s[1..c]);
      match Items(s[c + 2..], AtLeastZero(n))
      case Took(k) => Took(c + 2 + k)
      case p => p
    else Bad
  }

  /** n replies in a row. */
  function Items(s: seq<char>, n: nat): (p: Parse)
    ensures p.Took? ==> p.n <= |s|
    decreases |s|, 1, n
  {
    if n == 0 then Took(0)
    else
      match Reply(s)
      case Took(k) =>
        (match Items(s[k..], n - 1)
         case Took(j) => Took(k + j)
         case p => p)
      case p => p
  }

  const VALUE: seq<char> := "VALUE "

  /** Offset just after the n-th blank, or the length plus one. */
  function AfterBlanks(s: seq<char>, n: nat): (i: nat)
    ensures i <= |s| + 1
    decreases |s|
  {
    if n == 0 then 0
    else if s == [] then 1
    else if s[0] == ' ' then 1 + AfterBlanks(s[1..], n - 1)
    else 1 + AfterBlanks(s[1..], n)
  }

  function McReply(s: seq<char>): (p: Parse)
    ensures p.Took? ==> 0 < p.n <= |s|
  {
    var c := Crlf(s);
    if c == |s| then More
    else if |s| >= 6 && s[..6] == VALUE then
      var line := s[..c];
      var i := AfterBlanks(line, 3);
      if i > |line| then Bad
      else
        var n := Number(line[i..]);
        if n < 0 then Bad
        else if |s| < c + 2 + n + 2 + 5 then More
        else Took(c + 2 + n + 2 + 5)
    else Took(c + 2)
  }

  function First(g: Grammar, s: seq<char>): (p: Parse)
    ensures p.Took? ==> 0 < p.n <= |s|
  {
    if g.Resp? then Reply(s) else McReply(s)
  }

  // ---------- more bytes do not change a decision ----------

  lemma {:induction false} CrlfStable(s: seq<char>, t: seq<char>)
    requires Crlf(s) < |s|
    ensures Crlf(s + t) == Crlf(s)
    decreases |s|
  {
    if !(s[0] == '\r' && s[1] == '\n') {
      CrlfStable(s[1..], t);
      assert (s + t)[1..] == s[1..] + t;
    }
  }

  lemma HeaderStable(s: seq<char>, t: seq<char>)
    requires Crlf(s) < |s|
    ensures Crlf(s + t) == Crlf(s) && (s + t)[0] == s[0]
    ensures Crlf(s) >= 1 ==> (s + t)[1..Crlf(s)] == s[1..Crlf(s)]
    ensures (s + t)[Crlf(s) + 2..] == s[Crlf(s) + 2..] + t
    ensures s[0] != '\r' ==> Crlf(s) >= 1
  {
    CrlfStable(s, t);
  }

  lemma {:induction false} ReplyStable(s: seq<char>, t: seq<char>)
    requires !Reply(s).More?
    ensures Reply(s + t) == Reply(s)
    decreases |s|, 0, 0
  {
    hide Crlf, Number, Items;
    HeaderStable(s, t);
    var c := Crlf(s);
    if s[0] == '*' {
      ItemsStable(s[c + 2..], t, AtLeastZero(Number(s[1..c])));
    }
  }

  lemma {:induction false} ItemsStable(s: seq<char>, t: seq<char>, n: nat)
    requires !Items(s, n).More?
    ensures Items(s + t, n) == Items(s, n)
    decreases |s|, 1, n
  {
    if n > 0 {
      ReplyStable(s, t);
      if Reply(s).Took? {
        var k := Reply(s).n;
        ItemsStable(s[k..], t, n - 1);
        assert (s + t)[k..] == s[k..] + t;
      }
    }
  }

  lemma McStable(s: seq<char>, t: seq<char>)
    requires !McReply(s).More?
    ensures McReply(s + t) == McReply(s)
  {
    var c := Crlf(s);
    CrlfStable(s, t);
    assert (s + t)[..c] == s[..c];
    if |s| >= 6 {
      assert (s + t)[..6] == s[..6];
    } else if |s + t| >= 6 {
      assert (s + t)[c] == '\r';
      assert forall i :: 0 <= i < 6 ==> VALUE[i] != '\r';
    }
  }

  /** Once decided, a reply is decided for good. */
  lemma FirstStable(g: Grammar, s: seq<char>, t: seq<char>)
    requires !First(g, s).More?
    ensures First(g, s + t) == First(g, s)
  {
    if g.Resp? { ReplyStable(s, t); } else { McStable(s, t); }
  }

  /** The bytes hold n replies in a row, none longer than the buffer; `k` is their total length. */
  ghost predicate Fits(g: Grammar, s: seq<char>, n: nat, cap: nat)
    decreases n
  {
    n == 0 || (First(g, s).Took? && First(g, s).n <= cap && Fits(g, s[First(g, s).n..], n - 1, cap))
  }

  /** What remains after n replies. */
  function After(g: Grammar, s: seq<char>, n: nat): seq<char>
    decreases n
  {
    if n == 0 || !First(g, s).Took? then s else After(g, s[First(g, s).n..], n - 1)
  }

  // ---------- an undecided reply reaches beyond the bytes held ----------

  lemma {:induction false} CrlfBeyond(s: seq<char>, t: seq<char>)
    requires Crlf(s) == |s|
    ensures Crlf(s + t) + 2 > |s|
    decreases |s|
  {
    if |s| >= 2 {
      CrlfBeyond(s[1..], t);
      assert (s + t)[1..] == s[1..] + t;
    }
  }

  lemma {:induction false} ReplyBeyond(s: seq<char>, t: seq<char>)
    requires Reply(s).More? && Reply(s + t).Took?
    ensures Reply(s + t).n > |s|
    decreases |s|, 0, 0
  {
    hide Number, Items;
    if Crlf(s) == |s| {
      CrlfBeyond(s, t);
      TookHeader(s + t);
    } else {
      HeaderStable(s, t);
      var c := Crlf(s);
      if s[0] == '*' {
        ItemsBeyond(s[c + 2..], t, AtLeastZero(Number(s[1..c])));
      }
    }
  }

  lemma TookHeader(s: seq<char>)
    requires Reply(s).Took?
    ensures Reply(s).n >= Crlf(s) + 2
  {
  }

  lemma {:induction false} ItemsBeyond(s: seq<char>, t: seq<char>, n: nat)
    requires Items(s, n).More? && Items(s + t, n).Took?
    ensures Items(s + t, n).n > |s|
    decreases |s|, 1, n
  {
    hide Reply;
    if Reply(s).More? {
      ReplyBeyond(s, t);
    } else {
      ReplyStable(s, t);
      var k := Reply(s).n;
      assert (s + t)[k..] == s[k..] + t;
      ItemsBeyond(s[k..], t, n - 1);
    }
  }

  lemma McBeyond(s: seq<char>, t: seq<char>)
    requires McReply(s).More? && McReply(s + t).Took?
    ensures McReply(s + t).n > |s|
  {
    if Crlf(s) == |s| {
      CrlfBeyond(s, t);
    } else {
      var c := Crlf(s);
      CrlfStable(s, t);
      assert (s + t)[..6] == s[..6] && (s + t)[..c] == s[..c];
    }
  }

  /** A reply that ends within the bytes held is decided by them. */
  lemma FirstLocal(g: Grammar, s: seq<char>, t: seq<char>)
    requires First(g, s + t).Took? && First(g, s + t).n <= |s|
    ensures First(g, s) == First(g, s + t)
  {
    if First(g, s).More? {
      if g.Resp? { ReplyBeyond(s, t); } else { McBeyond(s, t); }
    } else {
      FirstStable(g, s, t);
    }
  }

  // ---------- commands ----------

  function Digit(d: nat): (c: char)
    requires d < 10
    ensures IsDigit(c) && Value(c) == d
  {
    '0' + d as char
  }

  function Digits(n: nat): (s: seq<char>)
    ensures |s| > 0 && forall i :: 0 <= i < |s| ==> IsDigit(s[i])
  {
    if n < 10 then [Digit(n)] else Digits(n / 10) + [Digit(n % 10)]
  }

  lemma {:induction false} LeadingConcat(s: seq<char>, t: seq<char>, acc: nat)
    requires forall i :: 0 <= i < |s| ==> IsDigit(s[i])
    ensures Leading(s + t, acc) == Leading(t, Leading(s, acc))
    decreases |s|
  {
    if s == [] {
      assert s + t == t;
    } else {
      LeadingConcat(s[1..], t, 10 * acc + Value(s[0]));
      assert (s + t)[1..] == s[1..] + t;
    }
  }

  lemma {:induction false} DigitsRead(n: nat)
    ensures Leading(Digits(n), 0) == n
  {
    if n >= 10 {
      DigitsRead(n / 10);
      LeadingConcat(Digits(n / 10), [Digit(n % 10)], 0);
      assert [Digit(n % 10)][1..] == [];
    }
  }

  /** A printed length is read back. */
  lemma NumberReads(n: nat)
    requires n <= LONG_MAX
    ensures Number(Digits(n)) == n
  {
    DigitsRead(n);
  }

  const CRLF: seq<char> := ['\r', '\n']

  lemma {:induction false} CrlfAt(head: seq<char>, rest: seq<char>)
    requires forall i :: 0 <= i < |head| ==> head[i] != '\r'
    ensures Crlf(head + CRLF + rest) == |head|
    decreases |head|
  {
    var s := head + CRLF + rest;
    if head == [] {
      assert s[0] == '\r' && s[1] == '\n';
    } else {
      CrlfAt(head[1..], rest);
      assert s[1..] == head[1..] + CRLF + rest;
      assert s[0] == head[0];
    }
  }

  function Header(kind: char, n: nat): seq<char> {
    [kind] + Digits(n) + CRLF
  }

  lemma HeaderParses(kind: char, n: nat, rest: seq<char>)
    requires kind != '\r' && n <= LONG_MAX
    ensures var s, c := Header(kind, n) + rest, |Digits(n)| + 1;
      Crlf(s) == c && c + 2 == |Header(kind, n)| && s[0] == kind && Number(s[1..c]) == n && s[c + 2..] == rest
  {
    hide Crlf, Number, Digits;
    var head := [kind] + Digits(n);
    var s := Header(kind, n) + rest;
    assert s == head + CRLF + rest;
    CrlfAt(head, rest);
    assert s[1..|head|] == Digits(n);
    NumberReads(n);
  }

  function Bulk(x: seq<char>): seq<char> {
    Header('$', |x|) + x + CRLF
  }

  function Bulks(xs: seq<seq<char>>): seq<char> {
    if xs == [] then [] else Bulk(xs[0]) + Bulks(xs[1..])
  }

  function Array(xs: seq<seq<char>>): seq<char> {
    Header('*', |xs|) + Bulks(xs)
  }

  /** A bulk string is one reply whatever its bytes are. */
  lemma BulkParses(x: seq<char>, rest: seq<char>)
    requires |x| <= LONG_MAX
    ensures Reply(Bulk(x) + rest) == Took(|Bulk(x)|)
  {
    hide Crlf, Number, Items, Header;
    assert Bulk(x) + rest == Header('$', |x|) + (x + CRLF + rest);
    HeaderParses('$', |x|, x + CRLF + rest);
  }

  lemma {:induction false} BulksParse(xs: seq<seq<char>>, rest: seq<char>)
    requires forall i :: 0 <= i < |xs| ==> |xs[i]| <= LONG_MAX
    ensures Items(Bulks(xs) + rest, |xs|) == Took(|Bulks(xs)|)
  {
    hide Bulk, Reply;
    if xs == [] {
    } else {
      var tail := Bulks(xs[1..]) + rest;
      BulkParses(xs[0], tail);
      BulksParse(xs[1..], rest);
      assert Bulks(xs) + rest == Bulk(xs[0]) + tail;
      assert (Bulk(xs[0]) + tail)[|Bulk(xs[0])|..] == tail;
    }
  }

  /** An array of bulk strings is exactly one reply. */
  lemma ArrayParses(xs: seq<seq<char>>, rest: seq<char>)
    requires |xs| <= LONG_MAX && forall i :: 0 <= i < |xs| ==> |xs[i]| <= LONG_MAX
    ensures Reply(Array(xs) + rest) == Took(|Array(xs)|)
  {
    hide Crlf, Number, Items, Header, Bulks;
    assert Array(xs) + rest == Header('*', |xs|) + (Bulks(xs) + rest);
    HeaderParses('*', |xs|, Bulks(xs) + rest);
    BulksParse(xs, rest);
  }

}
