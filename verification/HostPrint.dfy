/** The compressing printer of host lists, and the round trip through the parser. */
module HostPrint {
  import opened Digits
  import opened HostRange
  import opened HostLists
  import opened HostText

  // ---- What is printed

  /** `hostrange_numstr` */
  function Numstr(r: Range): string {
    if r.single then ""
    else Number(r.lo, r.width) + (if r.lo < r.hi then "-" + Number(r.hi, r.width) else "")
  }

  /** `_is_bracket_needed` */
  predicate BracketNeeded(rs: seq<Range>, i: nat)
    requires i < |rs|
  {
    rs[i].Count() > 1 || (i < |rs| - 1 && WithinRange(rs[i], rs[i + 1]))
  }

  /** One past the last range that shares the bracket of range i. */
  function GroupEnd(rs: seq<Range>, i: nat): (j: nat)
    requires i < |rs|
    ensures i < j <= |rs|
    decreases |rs| - i
  {
    if i + 1 < |rs| && WithinRange(rs[i + 1], rs[i]) then GroupEnd(rs, i + 1) else i + 1
  }

  function Items(rs: seq<Range>, i: nat, j: nat): string
    requires i < j <= |rs|
    decreases j - i
  {
    Numstr(rs[i]) + (if i + 1 < j then "," + Items(rs, i + 1, j) else "")
  }

  function GroupText(rs: seq<Range>, i: nat): string
    requires i < |rs|
  {
    var items := Items(rs, i, GroupEnd(rs, i));
    rs[i].prefix + (if BracketNeeded(rs, i) then "[" + items + "]" else items)
  }

  /** The text from range i on; no comma is put while nothing has been printed. */
  function Ranged(rs: seq<Range>, i: nat, started: bool): string
    requires i <= |rs|
    decreases |rs| - i
  {
    if i == |rs| then ""
    else
      var text, j := GroupText(rs, i), GroupEnd(rs, i);
      var more := started || |text| > 0;
      text + (if more && j < |rs| then "," else "") + Ranged(rs, j, more)
  }

  lemma WithinSymmetric(a: Range, b: Range)
    ensures WithinRange(a, b) <==> WithinRange(b, a)
  {
    PrefixCmpZero(a, b);
    PrefixCmpZero(b, a);
  }

  lemma PlainGroup(rs: seq<Range>, i: nat)
    requires i < |rs| && !BracketNeeded(rs, i)
    ensures GroupEnd(rs, i) == i + 1
  {
    if i + 1 < |rs| { WithinSymmetric(rs[i], rs[i + 1]); }
  }

  /** The items with a comma after each, as the loop writes them. */
  function Commas(rs: seq<Range>, i: nat, j: nat): string
    requires i <= j <= |rs|
    decreases j
  {
    if i == j then "" else Commas(rs, i, j - 1) + (Numstr(rs[j - 1]) + ",")
  }

  lemma {:induction false} CommasHead(rs: seq<Range>, i: nat, j: nat)
    requires i < j <= |rs|
    ensures Commas(rs, i, j) == Numstr(rs[i]) + "," + Commas(rs, i + 1, j)
    decreases j
  {
    hide Numstr, Commas;
    var one, last := Numstr(rs[i]) + ",", Numstr(rs[j - 1]) + ",";
    CommasStep(rs, i, j);
    if i + 1 < j {
      CommasHead(rs, i, j - 1);
      CommasStep(rs, i + 1, j);
      Associate(one, Commas(rs, i + 1, j - 1), last);
    } else {
      CommasNone(rs, i);
      CommasNone(rs, j);
      assert "" + one == one + "";
    }
  }

  lemma CommasStep(rs: seq<Range>, i: nat, j: nat)
    requires i < j <= |rs|
    ensures Commas(rs, i, j) == Commas(rs, i, j - 1) + (Numstr(rs[j - 1]) + ",")
  {
    hide Numstr;
  }

  lemma CommasNone(rs: seq<Range>, i: nat)
    requires i <= |rs|
    ensures Commas(rs, i, i) == ""
  {
  }

  lemma ItemsStep(rs: seq<Range>, i: nat, j: nat)
    requires i < j <= |rs|
    ensures i + 1 < j ==> Items(rs, i, j) == Numstr(rs[i]) + "," + Items(rs, i + 1, j)
    ensures i + 1 == j ==> Items(rs, i, j) == Numstr(rs[i])
  {
    if i + 1 < j {
      Associate(Numstr(rs[i]), ",", Items(rs, i + 1, j));
    } else {
      assert Numstr(rs[i]) + "" == Numstr(rs[i]);
    }
  }

  lemma {:induction false} CommasItems(rs: seq<Range>, i: nat, j: nat)
    requires i < j <= |rs|
    ensures Commas(rs, i, j) == Items(rs, i, j) + ","
    decreases j - i
  {
    hide Numstr, Commas, Items;
    var one := Numstr(rs[i]) + ",";
    CommasHead(rs, i, j);
    ItemsStep(rs, i, j);
    if i + 1 < j {
      CommasItems(rs, i + 1, j);
      Associate(one, Items(rs, i + 1, j), ",");
    } else {
      CommasNone(rs, j);
      assert one + "" == one;
    }
  }

  /** `_get_bracketed_list`, into a buffer without a limit. */
  method GetBracketedList(hl: HostList, start: nat) returns (buf: string, next: nat)
    requires start < |hl.hr|
    ensures buf == GroupText(hl.hr, start) && next == GroupEnd(hl.hr, start)
  {
    hide Numstr, Items;
    var hr := hl.hr;
    var bracket := BracketNeeded(hr, start);
    buf := hr[start].prefix + (if bracket then "[" else "");
    ghost var head, end := buf, GroupEnd(hr, start);
    buf := buf + Numstr(hr[start]) + (if bracket then "," else "");
    var i := start + 1;
    FirstItem(head, hr, start);
    while i < |hr| && WithinRange(hr[i], hr[i - 1])
      invariant start < i <= end && GroupEnd(hr, i - 1) == end
      invariant !bracket ==> end == start + 1 && buf == head + Numstr(hr[start])
      invariant bracket ==> buf == head + Commas(hr, start, i)
    {
      Associate(head, Commas(hr, start, i), Numstr(hr[i]) + ",");
      Associate(buf, Numstr(hr[i]), ",");
      buf := buf + Numstr(hr[i]) + (if bracket then "," else "");
      i := i + 1;
    }
    if bracket {
      CommasItems(hr, start, end);
      CloseBracket(hr[start].prefix, Items(hr, start, end));
      buf := buf[|buf| - 1 := ']'];
    }
    next := i;
  }

  lemma FirstItem(head: string, rs: seq<Range>, i: nat)
    requires i < |rs|
    ensures head + Numstr(rs[i]) + "," == head + Commas(rs, i, i + 1)
    ensures !BracketNeeded(rs, i) ==> GroupEnd(rs, i) == i + 1 && Items(rs, i, i + 1) == Numstr(rs[i])
    ensures !BracketNeeded(rs, i) ==> head + Numstr(rs[i]) + "" == head + Numstr(rs[i]) && rs[i].prefix + "" == rs[i].prefix
  {
    hide Numstr, BracketNeeded, GroupEnd;
    if !BracketNeeded(rs, i) { PlainGroup(rs, i); }
    assert Commas(rs, i, i) == "";
  }

  lemma CloseBracket(prefix: string, items: string)
    ensures var buf := prefix + "[" + (items + ",");
      buf[|buf| - 1 := ']'] == prefix + ("[" + items + "]")
  {
  }

  /** `hostlist_ranged_string`, into a buffer without a limit. */
  method RangedString(hl: HostList) returns (buf: string)
    ensures buf == Ranged(hl.hr, 0, false)
  {
    hide Ranged, GroupText, GroupEnd;
    var i := 0;
    buf := "";
    assert "" + Ranged(hl.hr, 0, false) == Ranged(hl.hr, 0, false);
    while i < |hl.hr|
      invariant 0 <= i <= |hl.hr|
      invariant buf + Ranged(hl.hr, i, |buf| > 0) == Ranged(hl.hr, 0, false)
    {
      RangedStep(hl.hr, i, buf);
      var text, next := GetBracketedList(hl, i);
      buf := buf + text;
      if |buf| > 0 && next < |hl.hr| {
        buf := buf + ",";
      }
      i := next;
    }
    RangedNothing(hl.hr, |buf| > 0);
    assert buf + "" == buf;
  }

  lemma RangedStep(rs: seq<Range>, i: nat, buf: string)
    requires i < |rs|
    ensures var text, j := GroupText(rs, i), GroupEnd(rs, i);
      var buf' := if |buf + text| > 0 && j < |rs| then buf + text + "," else buf + text;
      && (|buf'| > 0 <==> |buf| > 0 || |text| > 0)
      && buf' + Ranged(rs, j, |buf| > 0 || |text| > 0) == buf + Ranged(rs, i, |buf| > 0)
  {
    var text, j := GroupText(rs, i), GroupEnd(rs, i);
    var more := |buf| > 0 || |text| > 0;
    var comma := if more && j < |rs| then "," else "";
    FourParts(buf, text, comma, Ranged(rs, j, more));
  }

  lemma FourParts(a: string, b: string, c: string, d: string)
    ensures a + (b + c + d) == a + b + c + d && a + b + "" == a + b
  {
  }

  // ---- The round trip

  /** A range whose text the parser can take: no separators or brackets in the prefix, no
      empty name, no more numbers than the parser allows. */
  predicate Printable(r: Range) {
    r.Valid() && Clean(r.prefix) && (r.single ==> |r.prefix| > 0) && r.Count() <= MAX_RANGE
  }

  predicate AllPrintable(rs: seq<Range>) {
    && (forall i :: 0 <= i < |rs| ==> Printable(rs[i]))
    && (forall i :: 0 <= i < |rs| ==> GroupEnd(rs, i) - i <= MAX_RANGES)
  }

  function SpanOf(r: Range): Span {
    Span(r.lo, r.hi, |Number(r.lo, r.width)|)
  }

  lemma DigitsOnly(s: string, c: char)
    requires AllDigits(s) && !IsDigit(c)
    ensures c !in s
  {
  }

  lemma ParseTwoNumbers(a: string, b: string)
    requires |a| > 0 && |b| > 0 && AllDigits(a) && AllDigits(b)
    requires Value(a) <= Value(b) < ULONG_MAX && Value(b) - Value(a) < MAX_RANGE
    ensures ParseSingle(a + "-" + b) == Ok(Span(Value(a), Value(b), |a|))
  {
    var s := a + ['-'] + b;
    DigitsOnly(a, '-');
    StrChrAt(a, '-', b);
    assert s[..|a|] == a && s[|a| + 1..] == b && b[0] != '-';
    ScanDigits(a);
    ScanDigits(b);
  }

  lemma ParseOneNumber(a: string)
    requires |a| > 0 && AllDigits(a) && Value(a) < ULONG_MAX
    ensures ParseSingle(a) == Ok(Span(Value(a), Value(a), |a|))
  {
    DigitsOnly(a, '-');
    StrChrNone(a, '-');
    assert a[..|a|] == a;
    ScanDigits(a);
  }

  /** One printed range reads back as its numbers at the width they were printed with. */
  lemma ParseNumstr(r: Range)
    requires r.Valid() && !r.single && r.Count() <= MAX_RANGE
    ensures ParseSingle(Numstr(r)) == Ok(SpanOf(r))
  {
    hide ParseSingle, Number, Value;
    var a, b := Number(r.lo, r.width), Number(r.hi, r.width);
    ValueNumber(r.lo, r.width);
    ValueNumber(r.hi, r.width);
    if r.lo < r.hi {
      ParseTwoNumbers(a, b);
      Associate(a, "-", b);
    } else {
      ParseOneNumber(a);
      NothingBehind(a);
    }
  }

  lemma NumstrChars(r: Range)
    ensures ',' !in Numstr(r) && '[' !in Numstr(r) && ']' !in Numstr(r)
  {
    var a, b := Number(r.lo, r.width), Number(r.hi, r.width);
    forall c | c == ',' || c == '[' || c == ']'
      ensures c !in Numstr(r)
    {
      DigitsOnly(a, c);
      DigitsOnly(b, c);
    }
  }

  lemma {:induction false} ItemsChars(rs: seq<Range>, i: nat, j: nat)
    requires i < j <= |rs|
    ensures '[' !in Items(rs, i, j) && ']' !in Items(rs, i, j)
    decreases j - i
  {
    hide Numstr, Items;
    NumstrChars(rs[i]);
    ItemsStep(rs, i, j);
    if i + 1 < j {
      ItemsChars(rs, i + 1, j);
      Outside(Numstr(rs[i]), Items(rs, i + 1, j), '[');
      Outside(Numstr(rs[i]), Items(rs, i + 1, j), ']');
    }
  }

  lemma Outside(a: string, b: string, c: char)
    requires c !in a && c !in b && c != ','
    ensures c !in a + "," + b
  {
  }

  function SpansOf(rs: seq<Range>, i: nat, j: nat): (ss: seq<Span>)
    requires i <= j <= |rs|
    ensures |ss| == j - i && forall k :: 0 <= k < |ss| ==> ss[k] == SpanOf(rs[i + k])
  {
    seq(j - i, k requires 0 <= k < j - i => SpanOf(rs[i + k]))
  }

  lemma ParseListCons(one: string, more: string, span: Span, len: nat)
    requires ',' !in one && len > 0 && ParseSingle(one) == Ok(span)
    ensures ParseList(one + "," + more, len) == Prepend([span], ParseList(more, len - 1))
  {
    var s := one + [','] + more;
    StrChrAt(one, ',', more);
    assert s[..|one|] == one && s[|one| + 1..] == more;
  }

  lemma ParseListOne(one: string, span: Span, len: nat)
    requires ',' !in one && len > 0 && ParseSingle(one) == Ok(span)
    ensures ParseList(one, len) == Ok([span])
  {
    StrChrNone(one, ',');
    assert one[..|one|] == one;
  }

  lemma {:induction false} ParseItems(rs: seq<Range>, i: nat, j: nat, len: nat)
    requires i < j <= |rs| && j - i <= len
    requires forall k :: i <= k < j ==> rs[k].Valid() && !rs[k].single && rs[k].Count() <= MAX_RANGE
    ensures ParseList(Items(rs, i, j), len) == Ok(SpansOf(rs, i, j))
    decreases j - i
  {
    hide ParseSingle, ParseList, Items, Numstr, SpansOf, SpanOf;
    ParseNumstr(rs[i]);
    NumstrChars(rs[i]);
    ItemsStep(rs, i, j);
    SpansOfStep(rs, i, j);
    if i + 1 < j {
      ParseListCons(Numstr(rs[i]), Items(rs, i + 1, j), SpanOf(rs[i]), len);
      ParseItems(rs, i + 1, j, len - 1);
    } else {
      ParseListOne(Numstr(rs[i]), SpanOf(rs[i]), len);
    }
  }

  lemma SpansOfStep(rs: seq<Range>, i: nat, j: nat)
    requires i < j <= |rs|
    ensures SpansOf(rs, i, j) == [SpanOf(rs[i])] + SpansOf(rs, i + 1, j)
    ensures i + 1 == j ==> SpansOf(rs, i, j) == [SpanOf(rs[i])]
  {
  }

  /** The width a range was printed with prints all its names alike. */
  lemma SpanOfNames(r: Range)
    requires r.Valid() && !r.single
    ensures SpanNames(r.prefix, SpanOf(r), "") == r.Names()
  {
    var s := SpanOf(r);
    SpanRangeNames(r.prefix, s);
    assert Pad(r.lo, s.width) == Pad(r.lo, r.width);
    SameNames(r, r.(width := s.width));
  }

  lemma {:induction false} GroupPrefix(rs: seq<Range>, i: nat, k: nat)
    requires i < |rs| && i <= k < GroupEnd(rs, i)
    ensures rs[k].prefix == rs[i].prefix
    ensures GroupEnd(rs, i) > i + 1 ==> !rs[k].single
    decreases k - i
  {
    if i + 1 < |rs| && WithinRange(rs[i + 1], rs[i]) {
      PrefixCmpZero(rs[i + 1], rs[i]);
      if k > i { GroupPrefix(rs, i + 1, k); }
    }
  }

  lemma {:induction false} SpansOfNames(rs: seq<Range>, i: nat, j: nat, prefix: string)
    requires i <= j <= |rs|
    requires forall k :: i <= k < j ==> rs[k].Valid() && !rs[k].single && rs[k].prefix == prefix
    ensures SpansNames(prefix, SpansOf(rs, i, j), "") == ListNames(rs[i..j])
    decreases j - i
  {
    if i < j {
      SpanOfNames(rs[i]);
      SpansOfNames(rs, i + 1, j, prefix);
      assert SpansOf(rs, i, j)[1..] == SpansOf(rs, i + 1, j);
      assert rs[i..j][0] == rs[i] && rs[i..j][1..] == rs[i + 1..j];
    }
  }

  /** A bracket reads back as the names of its ranges. */
  lemma BracketNames(rs: seq<Range>, i: nat)
    requires AllPrintable(rs) && i < |rs| && BracketNeeded(rs, i)
    ensures TokenNames(GroupText(rs, i)) == Ok(ListNames(rs[i..GroupEnd(rs, i)]))
  {
    hide StrChr, ParseList, Items, SpansNames, SpansOf, ListNames, GroupEnd;
    var j, prefix := GroupEnd(rs, i), rs[i].prefix;
    var items := Items(rs, i, j);
    GroupRanges(rs, i);
    ItemsChars(rs, i, j);
    ParseItems(rs, i, j, MAX_RANGES);
    SpansOfNames(rs, i, j, prefix);
    SplitBracket(prefix, items, GroupText(rs, i));
  }

  /** The ranges of a bracket. */
  lemma GroupRanges(rs: seq<Range>, i: nat)
    requires AllPrintable(rs) && i < |rs| && BracketNeeded(rs, i)
    ensures '[' !in rs[i].prefix && i < GroupEnd(rs, i) <= |rs| && GroupEnd(rs, i) - i <= MAX_RANGES
    ensures forall k :: i <= k < GroupEnd(rs, i) ==>
      rs[k].Valid() && !rs[k].single && rs[k].prefix == rs[i].prefix && rs[k].Count() <= MAX_RANGE
  {
    if i + 1 < |rs| { WithinSymmetric(rs[i], rs[i + 1]); }
    forall k | i <= k < GroupEnd(rs, i)
      ensures rs[k].Valid() && !rs[k].single && rs[k].prefix == rs[i].prefix && rs[k].Count() <= MAX_RANGE
    {
      assert Printable(rs[k]);
      GroupPrefix(rs, i, k);
    }
    assert Printable(rs[i]);
  }

  /** The parser cuts a bracket where the printer put its ends. */
  lemma SplitBracket(prefix: string, items: string, tok: string)
    requires tok == prefix + ("[" + items + "]") && '[' !in prefix && ']' !in items
    ensures StrChr(tok, '[') == |prefix| < |tok| && tok[..|prefix|] == prefix && tok[|prefix| + 1..] == items + "]"
    ensures StrChr(items + "]", ']') == |items| && (items + "]")[..|items|] == items && (items + "]")[|items| + 1..] == ""
  {
    hide StrChr;
    assert "[" == ['['] && "]" == [']'];
    Regroup(prefix, "[", items, "]");
    CutAt(prefix, '[', items + "]");
    CutAt(items, ']', "");
    NothingBehind(items + "]");
  }

  lemma Regroup(a: string, b: string, c: string, d: string)
    ensures a + (b + c + d) == (a + b) + (c + d)
  {
  }

  lemma NothingBehind(s: string)
    ensures s + "" == s
  {
  }

  lemma CutAt(a: string, c: char, b: string)
    requires c !in a
    ensures var s := a + [c] + b;
      StrChr(s, c) == |a| < |s| && s[..|a|] == a && s[|a| + 1..] == b
  {
    hide StrChr;
    StrChrAt(a, c, b);
  }

  lemma BracketTokenNames(prefix: string, items: string, spans: seq<Span>)
    requires '[' !in prefix && ']' !in items && ParseList(items, MAX_RANGES) == Ok(spans)
    ensures var tok := prefix + ("[" + items + "]");
      TokenNames(tok) == Ok(SpansNames(prefix, spans, "")) && TokenRanges(tok) == SpansNames(prefix, spans, "")
  {
    hide ParseList, StrChr, SpansNames;
    SplitBracket(prefix, items, prefix + ("[" + items + "]"));
  }

  lemma OneSpan(prefix: string, digits: string)
    requires |digits| > 0 && AllDigits(digits) && Number(Value(digits), |digits|) == digits
    ensures SpansNames(prefix, [Span(Value(digits), Value(digits), |digits|)], "") == [prefix + digits]
  {
    hide Value, Number;
    var span := Span(Value(digits), Value(digits), |digits|);
    assert [span][1..] == [];
    NothingBehind(prefix + digits);
    assert SpanNames(prefix, span, "") == [prefix + digits];
  }

  /** A number in a bracket behind a prefix is one name, written as a number. */
  lemma BracketNumber(prefix: string, digits: string)
    requires Clean(prefix) && |digits| > 0 && AllDigits(digits) && Value(digits) < ULONG_MAX
    ensures var text := prefix + ("[" + digits + "]");
      Parse(text) == Ok([prefix + digits]) && Bracketed(text) == [prefix + digits]
  {
    hide Value, ParseSingle, ParseList, StrChr, TokLen, TokenNames, TokenRanges, SpansNames, Parse, Bracketed, SkipSeps;
    var text, n := prefix + ("[" + digits + "]"), Value(digits);
    var span := Span(n, n, |digits|);
    DigitsOnly(digits, ',');
    DigitsOnly(digits, '[');
    DigitsOnly(digits, ']');
    ParseOneNumber(digits);
    ParseListOne(digits, span, MAX_RANGES);
    NumberValue(digits);
    OneSpan(prefix, digits);
    BracketTokenNames(prefix, digits, [span]);
    BracketToken(prefix, digits, "");
    NothingBehind(text);
    OneToken(text);
  }

  /** A text that is one token. */
  lemma OneToken(text: string)
    requires |text| > 0 && SkipSeps(text) == 0 && TokLen(text, 0) == |text| && TokenNames(text).Ok?
    ensures Parse(text) == TokenNames(text) && Bracketed(text) == TokenRanges(text)
  {
    hide TokenNames, TokenRanges, TokLen;
    assert text[0..] == text && text[..|text|] == text && text[|text|..] == "";
    ParseNothing();
    ParseUnfold(text, text, |text|);
    assert TokenNames(text).value + [] == TokenNames(text).value && Bracketed("") == [];
    assert TokenRanges(text) + [] == TokenRanges(text);
  }

  lemma PlainNames(rs: seq<Range>, i: nat)
    requires AllPrintable(rs) && i < |rs| && !BracketNeeded(rs, i)
    ensures GroupText(rs, i) == rs[i].Name(0) && Clean(GroupText(rs, i)) && |GroupText(rs, i)| > 0
    ensures TokenNames(GroupText(rs, i)) == Ok(ListNames(rs[i..GroupEnd(rs, i)]))
  {
    PlainGroup(rs, i);
    assert Printable(rs[i]);
    var r, tok := rs[i], GroupText(rs, i);
    assert rs[i..i + 1] == [r];
    ListNamesOne(r);
    assert r.Names() == [r.Name(0)];
    assert tok == r.prefix + Numstr(r);
    if r.single {
      assert tok == r.prefix;
    }
    StrChrNone(tok, '[');
  }

  // ---- Tokens of a printed list

  lemma {:induction false} TokLenClean(c: string, rest: string)
    requires Clean(c)
    ensures TokLen(c + rest, 0) == |c| + TokLen(rest, 0)
  {
    if |c| == 0 {
      assert c + rest == rest;
    } else {
      assert (c + rest)[1..] == c[1..] + rest;
      TokLenClean(c[1..], rest);
    }
  }

  lemma {:induction false} TokLenInside(c: string, rest: string)
    requires '[' !in c && ']' !in c
    ensures TokLen(c + rest, 1) == |c| + TokLen(rest, 1)
  {
    if |c| == 0 {
      assert c + rest == rest;
    } else {
      assert c[0] in c;
      assert (c + rest)[1..] == c[1..] + rest;
      TokLenInside(c[1..], rest);
    }
  }

  lemma BracketToken(prefix: string, items: string, rest: string)
    requires Clean(prefix) && '[' !in items && ']' !in items && (|rest| > 0 ==> IsSep(rest[0]))
    ensures var g := prefix + ("[" + items + "]");
      SkipSeps(g + rest) == 0 && TokLen(g + rest, 0) == |g|
  {
    hide TokLen;
    var g := prefix + ("[" + items + "]");
    var tail := "[" + (items + ("]" + rest));
    assert g + rest == prefix + tail;
    TokLenClean(prefix, tail);
    TokLenBracket(items, rest);
    assert |prefix| > 0 ==> (prefix + tail)[0] == prefix[0];
  }

  lemma TokLenBracket(items: string, rest: string)
    requires '[' !in items && ']' !in items && (|rest| > 0 ==> IsSep(rest[0]))
    ensures TokLen("[" + (items + ("]" + rest)), 0) == |items| + 2
  {
    var tail := "[" + (items + ("]" + rest));
    assert tail[1..] == items + ("]" + rest);
    TokLenInside(items, "]" + rest);
    assert ("]" + rest)[1..] == rest;
  }

  lemma PlainToken(g: string, rest: string)
    requires Clean(g) && |g| > 0 && (|rest| > 0 ==> IsSep(rest[0]))
    ensures SkipSeps(g + rest) == 0 && TokLen(g + rest, 0) == |g|
  {
    TokLenClean(g, rest);
    assert (g + rest)[0] == g[0];
  }

  /** What is printed for one group is one token of any text it starts. */
  lemma GroupToken(rs: seq<Range>, i: nat, rest: string)
    requires AllPrintable(rs) && i < |rs| && (|rest| > 0 ==> IsSep(rest[0]))
    ensures var g := GroupText(rs, i);
      |g| > 0 && SkipSeps(g + rest) == 0 && TokLen(g + rest, 0) == |g|
  {
    if BracketNeeded(rs, i) {
      assert Printable(rs[i]);
      ItemsChars(rs, i, GroupEnd(rs, i));
      BracketToken(rs[i].prefix, Items(rs, i, GroupEnd(rs, i)), rest);
    } else {
      PlainNames(rs, i);
      PlainToken(GroupText(rs, i), rest);
    }
  }

  lemma SkipSepsComma(s: string)
    ensures Parse("," + s) == Parse(s)
  {
    var t := "," + s;
    assert t[1..] == s;
    assert t[SkipSeps(t)..] == s[SkipSeps(s)..];
  }

  lemma RangedNothing(rs: seq<Range>, started: bool)
    ensures Ranged(rs, |rs|, started) == "" && ListNames(rs[|rs|..]) == []
  {
  }

  lemma ParseNothing()
    ensures Parse("") == Ok([])
  {
  }

  lemma ParseGroup(rs: seq<Range>, i: nat, rest: string)
    requires AllPrintable(rs) && i < |rs| && (|rest| > 0 ==> IsSep(rest[0]))
    ensures Parse(GroupText(rs, i) + rest) == Append(Ok(ListNames(rs[i..GroupEnd(rs, i)])), Parse(rest))
  {
    var g := GroupText(rs, i);
    GroupToken(rs, i, rest);
    assert (g + rest)[0..] == g + rest && (g + rest)[..|g|] == g && (g + rest)[|g|..] == rest;
    ParseUnfold(g + rest, g + rest, |g|);
    if BracketNeeded(rs, i) { BracketNames(rs, i); } else { PlainNames(rs, i); }
  }

  lemma RangedGroup(rs: seq<Range>, i: nat, started: bool)
    requires AllPrintable(rs) && i < |rs|
    ensures var rest := if GroupEnd(rs, i) < |rs| then "," + Ranged(rs, GroupEnd(rs, i), true) else "";
      Ranged(rs, i, started) == GroupText(rs, i) + rest
  {
    var j, g := GroupEnd(rs, i), GroupText(rs, i);
    GroupToken(rs, i, "");
    Associate(g, if j < |rs| then "," else "", Ranged(rs, j, true));
    assert g + "" == g;
  }

  lemma {:induction false} ParseRanged(rs: seq<Range>, i: nat, started: bool)
    requires AllPrintable(rs) && i <= |rs|
    ensures Parse(Ranged(rs, i, started)) == Ok(ListNames(rs[i..]))
    decreases |rs| - i
  {
    hide Parse, GroupText, Ranged, GroupEnd, ListNames, Printable;
    if i == |rs| {
      RangedNothing(rs, started);
      ParseNothing();
    } else {
      var j := GroupEnd(rs, i);
      var rest := if j < |rs| then "," + Ranged(rs, j, true) else "";
      RangedGroup(rs, i, started);
      ParseGroup(rs, i, rest);
      if j < |rs| {
        ParseRanged(rs, j, true);
        SkipSepsComma(Ranged(rs, j, true));
      } else {
        ParseNothing();
        RangedNothing(rs, true);
      }
      ListNamesConcat(rs[i..j], rs[j..]);
      assert rs[i..] == rs[i..j] + rs[j..];
    }
  }

  /** The round trip: the printed text of a list parses to the names of the list, zero
      padding included. */
  lemma RoundTrip(rs: seq<Range>)
    requires AllPrintable(rs)
    ensures Parse(Ranged(rs, 0, false)) == Ok(ListNames(rs))
  {
    ParseRanged(rs, 0, false);
    assert rs[0..] == rs;
  }

  /** `hostlist_ranged_string` followed by `hostlist_create`. */
  method PrintAndParse(hl: HostList) returns (back: HostList?)
    requires hl.Valid() && AllPrintable(hl.hr)
    ensures back != null && fresh(back) && back.Valid() && back.Names() == hl.Names()
  {
    var text := RangedString(hl);
    RoundTrip(hl.hr);
    back := Create(text);
  }
}
