/** The reply parsers as the code runs them: length fields are converted by a library call that does
    not stop at the end of the line. Where every length field has a non-blank it makes no difference;
    where one is blank, decisions depend on bytes that have not arrived. */
module RawReplies {
  import opened ReplySpec

  // ---------- what the code reads ----------
  //
  // The conversion is started inside the line and knows nothing of its end: line ends are blanks to
  // it, so a blank length field sends it on into the bytes held, and beyond them into whatever the
  // buffer still contains. `stale` stands for those bytes.

  function RawReply(s: seq<char>, stale: seq<char>): (p: Parse)
    ensures p.Took? ==> 0 < p.n <= |s|
    decreases |s|, 0, 0
  {
    var c := Crlf(s);
    if c == |s| then More
    else if s[0] == '+' || s[0] == '-' || s[0] == ':' then Took(c + 2)
    else if s[0] == '$' then
      var n := Number(s[1..] + stale);
      if n < 0 then Took(c + 2) else if |s| < c + 2 + n + 2 then More else Took(c + 2 + n + 2)
    else if s[0] == '*' then
      match RawItems(s[c + 2..], AtLeastZero(Number(s[1..] + stale)), stale)
      case Took(k) => Took(c + 2 + k)
      case p => p
    else Bad
  }

  function RawItems(s: seq<char>, n: nat, stale: seq<char>): (p: Parse)
    ensures p.Took? ==> p.n <= |s|
    decreases |s|, 1, n
  {
    if n == 0 then Took(0)
    else
      match RawReply(s, stale)
      case Took(k) =>
        (match RawItems(s[k..], n - 1, stale)
         case Took(j) => Took(k + j)
         case p => p)
      case p => p
  }

  function RawMcReply(s: seq<char>, stale: seq<char>): (p: Parse)
    ensures p.Took? ==> 0 < p.n <= |s|
  {
    var c := Crlf(s);
    if c == |s| then More
    else if |s| >= 6 && s[..6] == VALUE then
      var i := AfterBlanks(s[..c], 3);
      if i > c then Bad
      else
        var n := Number(s[i..] + stale);
        if n < 0 then Bad
        else if |s| < c + 2 + n + 2 + 5 then More
        else Took(c + 2 + n + 2 + 5)
    else Took(c + 2)
  }

  function RawFirst(g: Grammar, s: seq<char>, stale: seq<char>): (p: Parse)
    ensures p.Took? ==> 0 < p.n <= |s|
  {
    if g.Resp? then RawReply(s, stale) else RawMcReply(s, stale)
  }

  // ---------- lines that decide their own numbers ----------

  ghost predicate Blank(f: seq<char>) {
    forall i :: 0 <= i < |f| ==> IsSpace(f[i])
  }

  /** Every length field that deciding the first reply consults contains a non-blank. */
  ghost predicate Plain(s: seq<char>)
    decreases |s|, 0, 0
  {
    var c := Crlf(s);
    c < |s| && (s[0] == '$' || s[0] == '*') ==>
      && !Blank(s[1..c])
      && (s[0] == '*' ==> PlainItems(s[c + 2..], AtLeastZero(Number(s[1..c]))))
  }

  ghost predicate PlainItems(s: seq<char>, n: nat)
    decreases |s|, 1, n
  {
    n == 0 || (Plain(s) && (Reply(s).Took? ==> PlainItems(s[Reply(s).n..], n - 1)))
  }

  ghost predicate PlainMc(s: seq<char>) {
    var c := Crlf(s);
    c < |s| && |s| >= 6 && s[..6] == VALUE && AfterBlanks(s[..c], 3) <= c ==> !Blank(s[AfterBlanks(s[..c], 3)..c])
  }

  ghost predicate PlainFirst(g: Grammar, s: seq<char>) {
    if g.Resp? then Plain(s) else PlainMc(s)
  }

  lemma {:induction false} DigitsStop(f: seq<char>, c: char, rest: seq<char>, acc: nat)
    requires !IsDigit(c)
    ensures Leading(f + [c] + rest, acc) == Leading(f, acc)
    decreases |f|
  {
    var s := f + [c] + rest;
    if f == [] {
      assert s[0] == c;
    } else {
      assert s[0] == f[0] && s[1..] == f[1..] + [c] + rest;
      if IsDigit(f[0]) { DigitsStop(f[1..], c, rest, 10 * acc + Value(f[0])); }
    }
  }

  /** A field with a non-blank is converted within its line. */
  lemma {:induction false} NumberStops(f: seq<char>, rest: seq<char>)
    requires !Blank(f)
    ensures Number(f + ['\r'] + rest) == Number(f)
    decreases |f|
  {
    var s := f + ['\r'] + rest;
    assert s[0] == f[0] && s[1..] == f[1..] + ['\r'] + rest;
    if IsSpace(f[0]) {
      NumberStops(f[1..], rest);
    } else {
      DigitsStop(f[1..], '\r', rest, 0);
      DigitsStop(f, '\r', rest, 0);
    }
  }

  /** A blank field is converted from what follows it. */
  lemma {:induction false} NumberGoesOn(f: seq<char>, rest: seq<char>)
    requires Blank(f)
    ensures Number(f + rest) == Number(rest)
    decreases |f|
  {
    if f == [] {
      assert f + rest == rest;
    } else {
      assert (f + rest)[0] == f[0] && (f + rest)[1..] == f[1..] + rest;
      NumberGoesOn(f[1..], rest);
    }
  }

  /** The condition is exact: a header line decides its number if and only if the field has a
      non-blank. */
  lemma NumberIsLocal(f: seq<char>)
    ensures (forall u: seq<char>, v: seq<char> :: Number(f + CRLF + u) == Number(f + CRLF + v)) <==> !Blank(f)
  {
    if Blank(f) {
      assert Blank(f + CRLF);
      NumberGoesOn(f + CRLF, ['7']);
      NumberGoesOn(f + CRLF, []);
      NumberReads(7);
      assert Digits(7) == ['7'];
      assert Number(f + CRLF + ['7']) != Number(f + CRLF + []);
    } else {
      forall u: seq<char> ensures Number(f + CRLF + u) == Number(f) {
        assert f + CRLF + u == f + ['\r'] + (['\n'] + u);
        NumberStops(f, ['\n'] + u);
      }
    }
  }

  lemma HeaderNumber(s: seq<char>, stale: seq<char>)
    requires Crlf(s) < |s| && 1 <= Crlf(s) && !Blank(s[1..Crlf(s)])
    ensures Number(s[1..] + stale) == Number(s[1..Crlf(s)])
  {
    var c := Crlf(s);
    assert s[1..] + stale == s[1..c] + ['\r'] + (s[c + 1..] + stale);
    NumberStops(s[1..c], s[c + 1..] + stale);
  }

  lemma {:induction false} RawIsReply(s: seq<char>, stale: seq<char>)
    requires Plain(s)
    ensures RawReply(s, stale) == Reply(s)
    decreases |s|, 0, 0
  {
    hide Crlf, Number, Items, RawItems, PlainItems;
    var c := Crlf(s);
    if c < |s| && (s[0] == '$' || s[0] == '*') {
      HeaderNumber(s, stale);
      if s[0] == '*' { RawIsItems(s[c + 2..], AtLeastZero(Number(s[1..c])), stale); }
    }
  }

  lemma {:induction false} RawIsItems(s: seq<char>, n: nat, stale: seq<char>)
    requires PlainItems(s, n)
    ensures RawItems(s, n, stale) == Items(s, n)
    decreases |s|, 1, n
  {
    hide Reply, RawReply, Plain;
    if n > 0 {
      RawIsReply(s, stale);
      if Reply(s).Took? { RawIsItems(s[Reply(s).n..], n - 1, stale); }
    }
  }

  lemma RawIsMc(s: seq<char>, stale: seq<char>)
    requires PlainMc(s)
    ensures RawMcReply(s, stale) == McReply(s)
  {
    hide Crlf, Number, AfterBlanks;
    var c := Crlf(s);
    if c < |s| && |s| >= 6 && s[..6] == VALUE && AfterBlanks(s[..c], 3) <= c {
      var i := AfterBlanks(s[..c], 3);
      CutAt(s, stale, i, c);
      NumberStops(s[i..c], s[c + 1..] + stale);
    }
  }

  lemma CutAt(s: seq<char>, stale: seq<char>, i: nat, c: nat)
    requires i <= c < |s|
    ensures s[i..] + stale == s[i..c] + [s[c]] + (s[c + 1..] + stale) && s[..c][i..] == s[i..c]
  {
  }

  /** On plain bytes the code decides as the grammar does, whatever the buffer held before. */
  lemma RawIsFirst(g: Grammar, s: seq<char>, stale: seq<char>)
    requires PlainFirst(g, s)
    ensures RawFirst(g, s, stale) == First(g, s)
  {
    if g.Resp? { RawIsReply(s, stale); } else { RawIsMc(s, stale); }
  }

  lemma {:induction false} PlainPrefix(s: seq<char>, t: seq<char>)
    requires Plain(s + t)
    ensures Plain(s)
    decreases |s|, 0, 0
  {
    hide Crlf, Number, Items, PlainItems;
    if Crlf(s) < |s| {
      HeaderStable(s, t);
      var c := Crlf(s);
      if s[0] == '*' { PlainItemsPrefix(s[c + 2..], t, AtLeastZero(Number(s[1..c]))); }
    }
  }

  lemma {:induction false} PlainItemsPrefix(s: seq<char>, t: seq<char>, n: nat)
    requires PlainItems(s + t, n)
    ensures PlainItems(s, n)
    decreases |s|, 1, n
  {
    hide Reply, Plain;
    if n > 0 {
      PlainPrefix(s, t);
      if Reply(s).Took? {
        ReplyStable(s, t);
        var k := Reply(s).n;
        assert (s + t)[k..] == s[k..] + t;
        PlainItemsPrefix(s[k..], t, n - 1);
      }
    }
  }

  lemma {:induction false} PlainStays(s: seq<char>, t: seq<char>)
    requires Plain(s) && !Reply(s).More?
    ensures Plain(s + t)
    decreases |s|, 0, 0
  {
    hide Crlf, Number, Items, PlainItems;
    HeaderStable(s, t);
    var c := Crlf(s);
    if s[0] == '*' { PlainItemsStay(s[c + 2..], t, AtLeastZero(Number(s[1..c]))); }
  }

  lemma {:induction false} PlainItemsStay(s: seq<char>, t: seq<char>, n: nat)
    requires PlainItems(s, n) && !Items(s, n).More?
    ensures PlainItems(s + t, n)
    decreases |s|, 1, n
  {
    hide Reply, Plain;
    if n > 0 {
      PlainStays(s, t);
      ReplyStable(s, t);
      if Reply(s).Took? {
        var k := Reply(s).n;
        assert (s + t)[k..] == s[k..] + t;
        PlainItemsStay(s[k..], t, n - 1);
      }
    }
  }

  lemma McPlainPrefix(s: seq<char>, t: seq<char>)
    requires PlainMc(s + t)
    ensures PlainMc(s)
  {
    var c := Crlf(s);
    if c < |s| {
      CrlfStable(s, t);
      assert (s + t)[..c] == s[..c];
      if |s| >= 6 && s[..6] == VALUE && AfterBlanks(s[..c], 3) <= c {
        assert (s + t)[..6] == s[..6];
        assert (s + t)[AfterBlanks(s[..c], 3)..c] == s[AfterBlanks(s[..c], 3)..c];
      }
    }
  }

  lemma McPlainStays(s: seq<char>, t: seq<char>)
    requires PlainMc(s) && !McReply(s).More?
    ensures PlainMc(s + t)
  {
    var c := Crlf(s);
    CrlfStable(s, t);
    assert (s + t)[..c] == s[..c];
    if |s| >= 6 {
      assert (s + t)[..6] == s[..6];
      if AfterBlanks(s[..c], 3) <= c {
        assert (s + t)[AfterBlanks(s[..c], 3)..c] == s[AfterBlanks(s[..c], 3)..c];
      }
    } else if |s + t| >= 6 {
      assert (s + t)[c] == '\r';
      assert forall i :: 0 <= i < 6 ==> VALUE[i] != '\r';
    }
  }

  /** Once decided, a reply is decided for good, whatever arrives and whatever the buffer held, if
      the length fields consulted have non-blanks. */
  lemma DecisionStable(g: Grammar, s: seq<char>, t: seq<char>, u: seq<char>, v: seq<char>)
    requires PlainFirst(g, s) && !RawFirst(g, s, u).More?
    ensures PlainFirst(g, s + t) && RawFirst(g, s + t, v) == RawFirst(g, s, u)
  {
    hide First, RawFirst;
    RawIsFirst(g, s, u);
    FirstStable(g, s, t);
    PlainFirstStays(g, s, t);
    RawIsFirst(g, s + t, v);
  }

  lemma PlainFirstStays(g: Grammar, s: seq<char>, t: seq<char>)
    requires PlainFirst(g, s) && !First(g, s).More?
    ensures PlainFirst(g, s + t)
  {
    if g.Resp? { PlainStays(s, t); } else { McPlainStays(s, t); }
  }

  lemma PlainFirstPrefix(g: Grammar, s: seq<char>, t: seq<char>)
    requires PlainFirst(g, s + t)
    ensures PlainFirst(g, s)
  {
    if g.Resp? { PlainPrefix(s, t); } else { McPlainPrefix(s, t); }
  }

  /** And a reply that ends within the bytes held is decided by them. */
  lemma DecisionLocal(g: Grammar, s: seq<char>, t: seq<char>, u: seq<char>, v: seq<char>)
    requires PlainFirst(g, s + t) && RawFirst(g, s + t, u).Took? && RawFirst(g, s + t, u).n <= |s|
    ensures RawFirst(g, s, v) == RawFirst(g, s + t, u)
  {
    hide First, RawFirst, PlainFirst;
    PlainFirstPrefix(g, s, t);
    RawIsFirst(g, s + t, u);
    RawIsFirst(g, s, v);
    FirstLocal(g, s, t);
  }

  /** The first n replies have no blank length field. */
  ghost predicate PlainAll(g: Grammar, s: seq<char>, n: nat)
    decreases n
  {
    n == 0 || (PlainFirst(g, s) && (First(g, s).Took? ==> PlainAll(g, s[First(g, s).n..], n - 1)))
  }

  lemma DigitsAreNotBlank(n: nat)
    ensures !Blank(Digits(n))
  {
    assert !IsSpace(Digits(n)[0]);
  }

  lemma BulkIsPlain(x: seq<char>, rest: seq<char>)
    requires |x| <= LONG_MAX
    ensures Plain(Bulk(x) + rest)
  {
    hide Crlf, Number, Items, Digits;
    var s := Bulk(x) + rest;
    assert s == Header('$', |x|) + (x + CRLF + rest);
    HeaderParses('$', |x|, x + CRLF + rest);
    HeaderField('$', |x|, x + CRLF + rest);
    DigitsAreNotBlank(|x|);
  }

  lemma HeaderField(kind: char, n: nat, rest: seq<char>)
    ensures (Header(kind, n) + rest)[1..|Digits(n)| + 1] == Digits(n)
  {
  }

  lemma {:induction false} BulksArePlain(xs: seq<seq<char>>, rest: seq<char>)
    requires forall i :: 0 <= i < |xs| ==> |xs[i]| <= LONG_MAX
    ensures PlainItems(Bulks(xs) + rest, |xs|)
  {
    hide Bulk, Reply, Plain;
    if xs != [] {
      var tail := Bulks(xs[1..]) + rest;
      BulkIsPlain(xs[0], tail);
      BulkParses(xs[0], tail);
      BulksArePlain(xs[1..], rest);
      assert Bulks(xs) + rest == Bulk(xs[0]) + tail;
      assert (Bulk(xs[0]) + tail)[|Bulk(xs[0])|..] == tail;
    }
  }

  /** Printed commands are plain. */
  lemma ArrayIsPlain(xs: seq<seq<char>>, rest: seq<char>)
    requires |xs| <= LONG_MAX && forall i :: 0 <= i < |xs| ==> |xs[i]| <= LONG_MAX
    ensures Plain(Array(xs) + rest)
  {
    hide Crlf, Number, Digits, Bulks, PlainItems;
    assert Array(xs) + rest == Header('*', |xs|) + (Bulks(xs) + rest);
    HeaderParses('*', |xs|, Bulks(xs) + rest);
    HeaderField('*', |xs|, Bulks(xs) + rest);
    DigitsAreNotBlank(|xs|);
    BulksArePlain(xs, rest);
  }

  // ---------- and lines that do not ----------

  /** Every decision after the header line h is for good. */
  ghost predicate Settles(g: Grammar, h: seq<char>) {
    forall b: seq<char>, t: seq<char>, u: seq<char>, v: seq<char> :: !RawFirst(g, h + b, u).More? ==>
      RawFirst(g, h + b + t, v) == RawFirst(g, h + b, u)
  }

  lemma BlankHeader(kind: char, f: seq<char>, b: seq<char>, stale: seq<char>)
    requires kind != '\r' && Blank(f) && Crlf(f + CRLF) == |f|
    ensures var s := [kind] + f + CRLF + b;
      && Crlf(s) == |f| + 1
      && Number(s[1..] + stale) == Number(b + stale)
  {
    var s := [kind] + f + CRLF + b;
    CrlfStable(f + CRLF, b);
    assert s[1..] == f + CRLF + b;
    assert Crlf(s) == 1 + Crlf(s[1..]);
    assert s[1..] + stale == (f + CRLF) + (b + stale);
    assert Blank(f + CRLF);
    NumberGoesOn(f + CRLF, b + stale);
  }

  /** The header of a bulk string settles its decisions if and only if its length has a non-blank. */
  lemma BulkSettles(f: seq<char>)
    requires Crlf(f + CRLF) == |f|
    ensures Settles(Resp, ['$'] + f + CRLF) <==> !Blank(f)
  {
    var h := ['$'] + f + CRLF;
    if Blank(f) {
      BlankBulk(f);
      assert !RawFirst(Resp, h + CRLF, []).More? && RawFirst(Resp, h + CRLF + ['7'], []).More?;
    } else {
      forall b: seq<char>, t: seq<char>, u: seq<char>, v: seq<char> | !RawFirst(Resp, h + b, u).More?
        ensures RawFirst(Resp, h + b + t, v) == RawFirst(Resp, h + b, u)
      {
        PlainBulk(f, b);
        DecisionStable(Resp, h + b, t, u, v);
      }
    }
  }

  lemma PlainBulk(f: seq<char>, b: seq<char>)
    requires Crlf(f + CRLF) == |f| && !Blank(f)
    ensures Plain(['$'] + f + CRLF + b)
  {
    var s := ['$'] + f + CRLF + b;
    CrlfStable(f + CRLF, b);
    assert s[1..] == f + CRLF + b;
    assert Crlf(s) == 1 + Crlf(s[1..]);
    assert s[1..Crlf(s)] == f;
  }

  /** With a blank length, `$` CR LF CR LF is a reply of five bytes to the code; after one more byte it
      is not, and without it a stale digit behind the bytes held has the same effect. */
  lemma BlankBulk(f: seq<char>)
    requires Blank(f) && Crlf(f + CRLF) == |f|
    ensures var s := ['$'] + f + CRLF + CRLF;
      && RawReply(s, []) == Took(|s|)
      && RawReply(s + ['7'], []) == More
      && RawReply(s, ['7']) == More
  {
    var s := ['$'] + f + CRLF + CRLF;
    assert s + ['7'] == ['$'] + f + CRLF + (CRLF + ['7']);
    BlankHeader('$', f, CRLF, []);
    BlankHeader('$', f, CRLF, ['7']);
    BlankHeader('$', f, CRLF + ['7'], []);
    BlankSeven();
  }

  lemma BlankSeven()
    ensures Number(CRLF + []) == 0 && Number(CRLF + ['7']) == 7 && Number(CRLF + ['7'] + []) == 7
  {
    assert Digits(7) == ['7'];
    NumberReads(7);
    NumberGoesOn(CRLF, []);
    NumberGoesOn(CRLF, ['7']);
    assert CRLF + ['7'] + [] == CRLF + ['7'];
  }

  /** An array with a blank count is empty to the code until a digit arrives or lies behind. */
  lemma BlankArray(f: seq<char>)
    requires Blank(f) && Crlf(f + CRLF) == |f|
    ensures var s := ['*'] + f + CRLF;
      && RawReply(s, []) == Took(|s|)
      && RawReply(s + ['7'], []) == More
      && RawReply(s, ['7']) == More
  {
    hide Crlf, Number;
    var s := ['*'] + f + CRLF;
    BlankHeader('*', f, [], []);
    BlankHeader('*', f, [], ['7']);
    BlankHeader('*', f, ['7'], []);
    var none: seq<char> := [];
    assert s + none == s && none + ['7'] == ['7'] && ['7'] + none == ['7'] && none + none == none;
    BareSeven();
    assert s[|f| + 3..] == [] && (s + ['7'])[|f| + 3..] == ['7'];
    assert RawReply([], ['7']) == More && RawReply(['7'], []) == More;
    assert Number(s[1..] + ['7']) == 7 && Number((s + ['7'])[1..] + []) == 7 && Number(s[1..] + []) == 0;
    assert RawItems([], 7, ['7']) == More && RawItems(['7'], 7, []) == More;
  }

  lemma BareSeven()
    ensures Number([]) == 0 && Number(['7']) == 7 && Crlf([]) == 0 && Crlf(['7']) == 1
  {
    assert Digits(7) == ['7'];
    NumberReads(7);
  }

  /** Every decision after the array header of count field f is for good, over elements whose length
      fields have non-blanks. */
  ghost predicate ArrayIsSettled(f: seq<char>) {
    var h := ['*'] + f + CRLF;
    forall b: seq<char>, t: seq<char>, u: seq<char>, v: seq<char> ::
      PlainItems(b, AtLeastZero(Number(f))) && !RawFirst(Resp, h + b, u).More? ==>
        RawFirst(Resp, h + b + t, v) == RawFirst(Resp, h + b, u)
  }

  /** The header of an array settles its decisions over such elements if and only if its count has a
      non-blank. */
  lemma ArraySettles(f: seq<char>)
    requires Crlf(f + CRLF) == |f|
    ensures ArrayIsSettled(f) <==> !Blank(f)
  {
    var h := ['*'] + f + CRLF;
    if Blank(f) {
      BlankArray(f);
      NumberGoesOn(f, []);
      BareSeven();
      assert f + [] == f && h + [] == h && h + [] + ['7'] == h + ['7'];
      assert PlainItems([], 0);
      assert !RawFirst(Resp, h + [], []).More? && RawFirst(Resp, h + [] + ['7'], []).More?;
    } else {
      forall b: seq<char>, t: seq<char>, u: seq<char>, v: seq<char>
        | PlainItems(b, AtLeastZero(Number(f))) && !RawFirst(Resp, h + b, u).More?
        ensures RawFirst(Resp, h + b + t, v) == RawFirst(Resp, h + b, u)
      {
        PlainArray(f, b);
        DecisionStable(Resp, h + b, t, u, v);
      }
    }
  }

  lemma PlainArray(f: seq<char>, b: seq<char>)
    requires Crlf(f + CRLF) == |f| && !Blank(f) && PlainItems(b, AtLeastZero(Number(f)))
    ensures Plain(['*'] + f + CRLF + b)
  {
    hide Number, PlainItems;
    var s := ['*'] + f + CRLF + b;
    CrlfStable(f + CRLF, b);
    assert s[1..] == f + CRLF + b;
    assert Crlf(s) == 1 + Crlf(s[1..]);
    assert s[1..Crlf(s)] == f && s[Crlf(s) + 2..] == b;
  }

  const SEVEN_BLANKS: seq<char> := "       "

  lemma McHeader(line: seq<char>, b: seq<char>, stale: seq<char>)
    requires Crlf(line + CRLF) == |line| >= 6 && line[..6] == VALUE && AfterBlanks(line, 3) <= |line|
    ensures var s, i := line + CRLF + b, AfterBlanks(line, 3);
      && Crlf(s) == |line| && s[..6] == VALUE && s[..|line|] == line
      && s[i..] + stale == line[i..] + CRLF + (b + stale)
  {
    hide Crlf, AfterBlanks;
    CrlfStable(line + CRLF, b);
    Suffix(line, CRLF, b, AfterBlanks(line, 3));
    Regrouped(line[AfterBlanks(line, 3)..] + CRLF, b, stale);
  }

  lemma Regrouped(a: seq<char>, b: seq<char>, c: seq<char>)
    ensures (a + b) + c == a + (b + c)
  {
  }

  lemma Suffix(a: seq<char>, b: seq<char>, c: seq<char>, i: nat)
    requires i <= |a|
    ensures (a + b + c)[i..] == a[i..] + b + c
    ensures (a + b + c)[..|a|] == a && (|a| >= 6 ==> (a + b + c)[..6] == a[..6])
  {
  }

  /** The header line of a hit settles its decisions if and only if its byte count has a non-blank. */
  lemma McSettles(line: seq<char>)
    requires Crlf(line + CRLF) == |line| >= 6 && line[..6] == VALUE && AfterBlanks(line, 3) <= |line|
    ensures Settles(Memcached, line + CRLF) <==> !Blank(line[AfterBlanks(line, 3)..])
  {
    hide Number, Crlf, AfterBlanks, RawMcReply, Plain;
    var h, f := line + CRLF, line[AfterBlanks(line, 3)..];
    if Blank(f) {
      BlankMc(line);
      assert !RawFirst(Memcached, h + SEVEN_BLANKS, []).More?;
      assert RawFirst(Memcached, h + SEVEN_BLANKS + ['7'], []).More?;
    } else {
      forall b: seq<char>, t: seq<char>, u: seq<char>, v: seq<char> | !RawFirst(Memcached, h + b, u).More?
        ensures RawFirst(Memcached, h + b + t, v) == RawFirst(Memcached, h + b, u)
      {
        McHeader(line, b, []);
        assert (h + b)[AfterBlanks(line, 3)..|line|] == f;
        DecisionStable(Memcached, h + b, t, u, v);
      }
    }
  }

  lemma BlankMc(line: seq<char>)
    requires Crlf(line + CRLF) == |line| >= 6 && line[..6] == VALUE && AfterBlanks(line, 3) <= |line|
    requires Blank(line[AfterBlanks(line, 3)..])
    ensures var s := line + CRLF + SEVEN_BLANKS;
      && RawMcReply(s, []) == Took(|s|) && RawMcReply(s + ['7'], []) == More && RawMcReply(s, ['7']) == More
  {
    hide Number, Crlf, AfterBlanks;
    var s, f := line + CRLF + SEVEN_BLANKS, line[AfterBlanks(line, 3)..];
    assert s + ['7'] == line + CRLF + (SEVEN_BLANKS + ['7']);
    McHeader(line, SEVEN_BLANKS, []);
    McHeader(line, SEVEN_BLANKS, ['7']);
    McHeader(line, SEVEN_BLANKS + ['7'], []);
    BlankThenSeven(f + CRLF);
    assert SEVEN_BLANKS + ['7'] + [] == SEVEN_BLANKS + ['7'];
  }

  lemma BlankThenSeven(f: seq<char>)
    requires Blank(f)
    ensures Number(f + (SEVEN_BLANKS + [])) == 0 && Number(f + (SEVEN_BLANKS + ['7'])) == 7
  {
    NumberGoesOn(f, SEVEN_BLANKS + []);
    NumberGoesOn(f, SEVEN_BLANKS + ['7']);
    NumberGoesOn(SEVEN_BLANKS, []);
    NumberGoesOn(SEVEN_BLANKS, ['7']);
    assert Digits(7) == ['7'];
    NumberReads(7);
  }
}
