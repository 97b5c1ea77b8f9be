/** What each form of reply parses to, one law for every branch of the two grammars. Each holds of the
    grammar and of the parser as it runs, whatever follows the reply and whatever the buffer held. */
module ReplyLaws {
  import opened ReplySpec
  import opened RawReplies

  /** The bytes s, followed by anything, are decided as p by grammar and parser alike. */
  ghost predicate Always(g: Grammar, s: seq<char>, p: Parse) {
    forall rest: seq<char>, stale: seq<char> :: First(g, s + rest) == p && RawFirst(g, s + rest, stale) == p
  }

  /** A header line: its kind, its text, and nothing of a line end before the end. */
  function Line(text: seq<char>): seq<char> {
    text + CRLF
  }

  ghost predicate OneLine(text: seq<char>) {
    Crlf(Line(text)) == |text|
  }

  lemma NoReturns(text: seq<char>)
    requires forall i :: 0 <= i < |text| ==> text[i] != '\r'
    ensures OneLine(text)
  {
    CrlfAt(text, []);
    assert text + CRLF + [] == Line(text);
  }

  lemma LineFollowed(text: seq<char>, rest: seq<char>)
    requires OneLine(text)
    ensures var s := Line(text) + rest;
      && Crlf(s) == |text| && s[..|text|] == text && s[|text| + 2..] == rest && |s| == |text| + 2 + |rest|
      && forall i :: 0 <= i < |text| ==> s[i] == text[i]
  {
    CrlfStable(Line(text), rest);
  }

  lemma Decided(g: Grammar, s: seq<char>, p: Parse)
    requires forall rest: seq<char> :: First(g, s + rest) == p && PlainFirst(g, s + rest)
    ensures Always(g, s, p)
  {
    hide First, RawFirst, PlainFirst;
    forall rest: seq<char>, stale: seq<char> ensures First(g, s + rest) == p && RawFirst(g, s + rest, stale) == p {
      RawIsFirst(g, s + rest, stale);
    }
  }

  lemma Once(g: Grammar, s: seq<char>, p: Parse, rest: seq<char>)
    requires Always(g, s, p)
    ensures First(g, s + rest) == p
  {
    hide First, RawFirst;
    assert RawFirst(g, s + rest, []) == p;
  }

  // ---------- RESP ----------

  /** A simple string, an error and an integer are their line. */
  lemma LineParses(text: seq<char>)
    requires OneLine(text) && text != [] && text[0] in {'+', '-', ':'}
    ensures Always(Resp, Line(text), Took(|Line(text)|))
  {
    forall rest: seq<char>
      ensures First(Resp, Line(text) + rest) == Took(|Line(text)|) && PlainFirst(Resp, Line(text) + rest)
    {
      LineFollowed(text, rest);
    }
    Decided(Resp, Line(text), Took(|Line(text)|));
  }

  /** The answer to a command that set fields: any integer. */
  lemma IntegerParses(n: nat)
    ensures Always(Resp, Line([':'] + Digits(n)), Took(|Digits(n)| + 3))
  {
    NoReturns([':'] + Digits(n));
    LineParses([':'] + Digits(n));
  }

  /** Any other kind of line, an empty one included, is malformed. */
  lemma OtherLinesAreBad(text: seq<char>)
    requires OneLine(text) && (text == [] || text[0] !in {'+', '-', ':', '$', '*'})
    ensures Always(Resp, Line(text), Bad)
  {
    forall rest: seq<char> ensures First(Resp, Line(text) + rest) == Bad && PlainFirst(Resp, Line(text) + rest) {
      LineFollowed(text, rest);
      if text == [] { assert (Line(text) + rest)[0] == '\r'; }
    }
    Decided(Resp, Line(text), Bad);
  }

  /** A negative field is read with its sign, within the range of the conversion. */
  lemma NegativeReads(n: nat)
    requires n <= LONG_MAX + 1
    ensures Number(['-'] + Digits(n)) == 0 - n && !Blank(['-'] + Digits(n))
  {
    DigitsRead(n);
    var f := ['-'] + Digits(n);
    assert f[0] == '-' && f[1..] == Digits(n);
    assert !IsSpace(f[0]);
  }

  lemma PlusReads(n: nat)
    requires n <= LONG_MAX
    ensures Number(['+'] + Digits(n)) == n
  {
    DigitsRead(n);
    assert (['+'] + Digits(n))[1..] == Digits(n);
  }

  /** Fields out of range are cut to it. */
  lemma RangeIsKept(n: nat)
    requires n >= 0x8000_0000_0000_0000
    ensures Number(Digits(n)) == 0x7FFF_FFFF_FFFF_FFFF && Number(['-'] + Digits(n)) == -0x8000_0000_0000_0000
  {
    DigitsRead(n);
    assert (['-'] + Digits(n))[1..] == Digits(n);
  }

  /** A bulk string with a negative length, the null one, is its header. */
  lemma NullBulkParses(n: nat)
    requires 0 < n <= LONG_MAX
    ensures Always(Resp, Line(['$', '-'] + Digits(n)), Took(|Digits(n)| + 4))
  {
    var text := ['$', '-'] + Digits(n);
    NoReturns(text);
    NegativeReads(n);
    forall rest: seq<char>
      ensures First(Resp, Line(text) + rest) == Took(|Digits(n)| + 4) && PlainFirst(Resp, Line(text) + rest)
    {
      LineFollowed(text, rest);
      assert (Line(text) + rest)[1..|text|] == text[1..] == ['-'] + Digits(n);
    }
    Decided(Resp, Line(text), Took(|Digits(n)| + 4));
  }

  /** An array with a negative count, the null one, has no elements. */
  lemma NullArrayParses(n: nat)
    requires 0 < n <= LONG_MAX
    ensures Always(Resp, Line(['*', '-'] + Digits(n)), Took(|Digits(n)| + 4))
  {
    var text := ['*', '-'] + Digits(n);
    NoReturns(text);
    NegativeReads(n);
    forall rest: seq<char>
      ensures First(Resp, Line(text) + rest) == Took(|Digits(n)| + 4) && PlainFirst(Resp, Line(text) + rest)
    {
      LineFollowed(text, rest);
      assert (Line(text) + rest)[1..|text|] == text[1..] == ['-'] + Digits(n);
      assert Items(rest, 0) == Took(0) && PlainItems(rest, 0);
    }
    Decided(Resp, Line(text), Took(|Digits(n)| + 4));
  }

  /** A bulk string of any bytes is its header, its bytes and a line end. */
  lemma BulkIsTaken(x: seq<char>)
    requires |x| <= LONG_MAX
    ensures Always(Resp, Bulk(x), Took(|Bulk(x)|))
  {
    forall rest: seq<char> ensures First(Resp, Bulk(x) + rest) == Took(|Bulk(x)|) && PlainFirst(Resp, Bulk(x) + rest) {
      BulkParses(x, rest);
      BulkIsPlain(x, rest);
    }
    Decided(Resp, Bulk(x), Took(|Bulk(x)|));
  }

  function Joined(parts: seq<seq<char>>): seq<char> {
    if parts == [] then [] else parts[0] + Joined(parts[1..])
  }

  lemma {:induction false} ItemsOfReplies(parts: seq<seq<char>>, rest: seq<char>)
    requires forall i :: 0 <= i < |parts| ==> Always(Resp, parts[i], Took(|parts[i]|))
    requires forall i :: 0 <= i < |parts| ==> forall more: seq<char> :: Plain(parts[i] + more)
    ensures Items(Joined(parts) + rest, |parts|) == Took(|Joined(parts)|)
    ensures PlainItems(Joined(parts) + rest, |parts|)
  {
    hide Reply, RawReply, Plain;
    if parts != [] {
      var tail := Joined(parts[1..]) + rest;
      ItemsOfReplies(parts[1..], rest);
      assert Joined(parts) + rest == parts[0] + tail;
      Once(Resp, parts[0], Took(|parts[0]|), tail);
      assert Plain(parts[0] + tail);
      assert (parts[0] + tail)[|parts[0]|..] == tail;
    }
  }

  /** An array of complete replies of any kinds, arrays among them, is one reply. */
  lemma ArrayOfReplies(parts: seq<seq<char>>)
    requires |parts| <= LONG_MAX
    requires forall i :: 0 <= i < |parts| ==> Always(Resp, parts[i], Took(|parts[i]|))
    requires forall i :: 0 <= i < |parts| ==> forall more: seq<char> :: Plain(parts[i] + more)
    ensures var s := Header('*', |parts|) + Joined(parts); Always(Resp, s, Took(|s|))
  {
    hide Always, Crlf, Number, Items, PlainItems, Digits;
    var s := Header('*', |parts|) + Joined(parts);
    forall rest: seq<char> ensures First(Resp, s + rest) == Took(|s|) && PlainFirst(Resp, s + rest) {
      var body := Joined(parts) + rest;
      ItemsOfReplies(parts, rest);
      assert s + rest == Header('*', |parts|) + body;
      HeaderParses('*', |parts|, body);
      HeaderField('*', |parts|, body);
      DigitsAreNotBlank(|parts|);
    }
    Decided(Resp, s, Took(|s|));
  }

  /** Until it is complete a reply needs more bytes: no beginning of it is decided. */
  lemma BeginningsNeedMore(g: Grammar, s: seq<char>, k: nat)
    requires First(g, s) == Took(|s|) && k < |s|
    ensures First(g, s[..k]) == More
  {
    assert s[..k] + s[k..] == s;
    if First(g, s[..k]) != More { FirstStable(g, s[..k], s[k..]); }
  }

  // ---------- the text protocol ----------

  lemma NotValue(text: seq<char>, rest: seq<char>)
    requires |text| < |VALUE| || text[..|VALUE|] != VALUE
    ensures var s := Line(text) + rest; |s| >= 6 ==> s[..6] != VALUE
  {
    var s := Line(text) + rest;
    if |text| < 6 {
      assert |s| >= 6 ==> s[..6][|text|] == '\r';
      assert VALUE[|text|] != '\r';
    } else {
      assert s[..6] == text[..6];
    }
  }

  /** A line that does not announce a value is a whole reply. */
  lemma McLineParses(text: seq<char>)
    requires OneLine(text) && (|text| < |VALUE| || text[..|VALUE|] != VALUE)
    ensures Always(Memcached, Line(text), Took(|Line(text)|))
  {
    forall rest: seq<char>
      ensures First(Memcached, Line(text) + rest) == Took(|Line(text)|) && PlainFirst(Memcached, Line(text) + rest)
    {
      LineFollowed(text, rest);
      NotValue(text, rest);
    }
    Decided(Memcached, Line(text), Took(|Line(text)|));
  }

  lemma {:induction false} BlanksSkipped(word: seq<char>, tail: seq<char>, n: nat)
    requires n > 0 && forall i :: 0 <= i < |word| ==> word[i] != ' '
    ensures AfterBlanks(word + [' '] + tail, n) == |word| + 1 + AfterBlanks(tail, n - 1)
    decreases |word|
  {
    var s := word + [' '] + tail;
    if word == [] {
      assert s[0] == ' ' && s[1..] == tail;
    } else {
      assert s[0] == word[0] && s[1..] == word[1..] + [' '] + tail;
      BlanksSkipped(word[1..], tail, n);
    }
  }

  /** A hit announced with key, flags and byte count, and perhaps more after another blank. */
  function HitLine(key: seq<char>, flags: seq<char>, count: seq<char>): seq<char> {
    "VALUE" + [' '] + (key + [' '] + (flags + [' '] + count))
  }

  ghost predicate IsWord(w: seq<char>) {
    forall i :: 0 <= i < |w| ==> w[i] != ' ' && w[i] != '\r'
  }

  lemma CountField(key: seq<char>, flags: seq<char>, count: seq<char>)
    requires IsWord(key) && IsWord(flags)
    ensures var line, i := HitLine(key, flags, count), 8 + |key| + |flags|;
      |line| == i + |count| && line[..6] == VALUE && AfterBlanks(line, 3) == i && line[i..] == count
  {
    var line := HitLine(key, flags, count);
    BlanksSkipped("VALUE", key + [' '] + (flags + [' '] + count), 3);
    BlanksSkipped(key, flags + [' '] + count, 2);
    BlanksSkipped(flags, count, 1);
  }

  /** A hit is its line, as many bytes of any kind as it announces, and the closing END line. */
  lemma HitParses(key: seq<char>, flags: seq<char>, data: seq<char>)
    requires IsWord(key) && IsWord(flags) && |data| <= LONG_MAX
    ensures var s := Line(HitLine(key, flags, Digits(|data|))) + data + CRLF + "END" + CRLF;
      Always(Memcached, s, Took(|s|))
  {
    hide Crlf, Number, AfterBlanks, HitLine, Digits, Blank, First, PlainFirst, OneLine, Line, Always;
    var count := Digits(|data|);
    var line := HitLine(key, flags, count);
    var s := Line(line) + data + CRLF + "END" + CRLF;
    CountField(key, flags, count);
    WholeLine(key, flags, count);
    NumberReads(|data|);
    DigitsAreNotBlank(|data|);
    forall rest: seq<char> ensures First(Memcached, s + rest) == Took(|s|) && PlainFirst(Memcached, s + rest) {
      Behind(line, data, rest);
      HitTaken(line, 8 + |key| + |flags|, data + CRLF + "END" + CRLF + rest, |data|);
    }
    Decided(Memcached, s, Took(|s|));
  }

  lemma Behind(line: seq<char>, data: seq<char>, rest: seq<char>)
    ensures var s, tail := Line(line) + data + CRLF + "END" + CRLF, data + CRLF + "END" + CRLF + rest;
      s + rest == Line(line) + tail && |s| == |line| + |data| + 9 && |tail| == |data| + 7 + |rest|
  {
  }

  /** A hit by its header line s[..c], whose byte count starts at i. */
  lemma McHit(s: seq<char>, c: nat, i: nat, n: nat)
    requires Crlf(s) == c < |s| && |s| >= 6 && s[..6] == VALUE && AfterBlanks(s[..c], 3) == i <= c
    requires Number(s[..c][i..]) == n && |s| >= c + n + 9
    ensures McReply(s) == Took(c + n + 9)
  {
    hide Crlf, Number, AfterBlanks;
  }

  lemma McNegative(s: seq<char>, c: nat, i: nat)
    requires Crlf(s) == c < |s| && |s| >= 6 && s[..6] == VALUE && AfterBlanks(s[..c], 3) == i <= c
    requires Number(s[..c][i..]) < 0
    ensures McReply(s) == Bad
  {
    hide Crlf, Number, AfterBlanks;
  }

  lemma McCounted(s: seq<char>, c: nat, i: nat)
    requires Crlf(s) == c < |s| && |s| >= 6 && s[..6] == VALUE && AfterBlanks(s[..c], 3) == i <= c
    requires !Blank(s[..c][i..])
    ensures PlainMc(s)
  {
    hide Crlf, AfterBlanks, Blank;
    assert s[i..c] == s[..c][i..];
  }

  lemma HitTaken(line: seq<char>, i: nat, tail: seq<char>, n: nat)
    requires OneLine(line) && |line| >= 6 && line[..6] == VALUE && AfterBlanks(line, 3) == i <= |line|
    requires Number(line[i..]) == n && !Blank(line[i..]) && |tail| >= n + 7
    ensures First(Memcached, Line(line) + tail) == Took(|line| + 2 + n + 7)
    ensures PlainFirst(Memcached, Line(line) + tail)
  {
    hide Crlf, Number, AfterBlanks, Blank, McReply, PlainMc, Reply, Plain;
    var s := Line(line) + tail;
    HitHeader(line, tail);
    McHit(s, |line|, i, n);
    McCounted(s, |line|, i);
  }

  lemma HitHeader(line: seq<char>, tail: seq<char>)
    requires OneLine(line) && |line| >= 6 && line[..6] == VALUE
    ensures var s := Line(line) + tail;
      Crlf(s) == |line| < |s| && |s| == |line| + 2 + |tail| && s[..|line|] == line && s[..6] == VALUE
  {
    hide Crlf;
    LineFollowed(line, tail);
    assert (Line(line) + tail)[..6] == line[..6];
  }

  /** A hit line whose byte count is negative, or missing, is malformed. */
  lemma BadHits(key: seq<char>, flags: seq<char>, n: nat)
    requires IsWord(key) && IsWord(flags) && 0 < n <= LONG_MAX
    ensures Always(Memcached, Line(HitLine(key, flags, ['-'] + Digits(n))), Bad)
    ensures Always(Memcached, Line("VALUE" + [' '] + (key + [' '] + flags)), Bad)
  {
    NegativeCount(key, flags, n);
    MissingCount(key, flags);
  }

  lemma NegativeCount(key: seq<char>, flags: seq<char>, n: nat)
    requires IsWord(key) && IsWord(flags) && 0 < n <= LONG_MAX
    ensures Always(Memcached, Line(HitLine(key, flags, ['-'] + Digits(n))), Bad)
  {
    hide Crlf, Number, AfterBlanks, Digits, Blank, First, PlainFirst, OneLine, Line, Always;
    var count := ['-'] + Digits(n);
    var line := HitLine(key, flags, count);
    NegativeReads(n);
    CountField(key, flags, count);
    WholeLine(key, flags, count);
    forall rest: seq<char>
      ensures First(Memcached, Line(line) + rest) == Bad && PlainFirst(Memcached, Line(line) + rest)
    {
      HitTurnedDown(line, 8 + |key| + |flags|, rest);
    }
    Decided(Memcached, Line(line), Bad);
  }

  lemma WholeLine(key: seq<char>, flags: seq<char>, count: seq<char>)
    requires IsWord(key) && IsWord(flags) && forall i :: 0 <= i < |count| ==> count[i] != '\r'
    ensures OneLine(HitLine(key, flags, count))
  {
    hide OneLine;
    NoReturns(HitLine(key, flags, count));
  }

  lemma HitTurnedDown(line: seq<char>, i: nat, tail: seq<char>)
    requires OneLine(line) && |line| >= 6 && line[..6] == VALUE && AfterBlanks(line, 3) == i <= |line|
    requires Number(line[i..]) < 0 && !Blank(line[i..])
    ensures First(Memcached, Line(line) + tail) == Bad && PlainFirst(Memcached, Line(line) + tail)
  {
    hide Crlf, Number, AfterBlanks, Blank, McReply, PlainMc, Reply, Plain;
    var s := Line(line) + tail;
    HitHeader(line, tail);
    McNegative(s, |line|, i);
    McCounted(s, |line|, i);
  }

  lemma {:induction false} NoMoreBlanks(word: seq<char>, n: nat)
    requires n > 0 && forall i :: 0 <= i < |word| ==> word[i] != ' '
    ensures AfterBlanks(word, n) == |word| + 1
    decreases |word|
  {
    if word != [] { NoMoreBlanks(word[1..], n); }
  }

  lemma MissingCount(key: seq<char>, flags: seq<char>)
    requires IsWord(key) && IsWord(flags)
    ensures Always(Memcached, Line("VALUE" + [' '] + (key + [' '] + flags)), Bad)
  {
    var line := "VALUE" + [' '] + (key + [' '] + flags);
    BlanksSkipped("VALUE", key + [' '] + flags, 3);
    BlanksSkipped(key, flags, 2);
    NoMoreBlanks(flags, 1);
    assert line[..6] == VALUE;
    NoReturns(line);
    hide Crlf, Number, AfterBlanks;
    forall rest: seq<char>
      ensures First(Memcached, Line(line) + rest) == Bad && PlainFirst(Memcached, Line(line) + rest)
    {
      LineFollowed(line, rest);
      HitHeader(line, rest);
    }
    Decided(Memcached, Line(line), Bad);
  }
}
