/** The parser of the bracket notation of host lists, and the names that a text stands for. */
module HostText {
  import opened Digits
  import opened HostRange
  import opened HostLists

  const MAX_RANGE: nat := 16384
  const MAX_RANGES: nat := 10240

  // ---- Text helpers

  /** strchr: position of the first c, or the length. */
  function StrChr(s: string, c: char): (k: nat)
    ensures k <= |s|
    ensures k < |s| ==> s[k] == c
    ensures forall i :: 0 <= i < k ==> s[i] != c
  {
    if |s| == 0 || s[0] == c then 0 else
      assert forall i :: 1 <= i < |s| ==> s[i] == s[1..][i - 1];
      1 + StrChr(s[1..], c)
  }

  lemma StrChrAt(a: string, c: char, b: string)
    requires c !in a
    ensures StrChr(a + [c] + b, c) == |a|
  {
    var s := a + [c] + b;
    assert s[|a|] == c;
    assert forall i :: 0 <= i < |a| ==> s[i] == a[i];
  }

  lemma StrChrNone(a: string, c: char)
    requires c !in a
    ensures StrChr(a, c) == |a|
  {
  }

  predicate IsSep(c: char) {
    c == '\t' || c == ',' || c == ' '
  }

  predicate IsSpace(c: char) {
    c == ' ' || '\t' <= c <= '\r'
  }

  /** No separators and no brackets. */
  predicate Clean(s: string) {
    forall i :: 0 <= i < |s| ==> !IsSep(s[i]) && s[i] != '[' && s[i] != ']'
  }

  // ---- Tokens

  function SkipSeps(s: string): (n: nat)
    ensures n <= |s|
    ensures n < |s| ==> !IsSep(s[n])
  {
    if |s| > 0 && IsSep(s[0]) then 1 + SkipSeps(s[1..]) else 0
  }

  function Level(c: char): int {
    if c == '[' then 1 else if c == ']' then -1 else 0
  }

  /** Length of the token: up to a separator outside of brackets. */
  function TokLen(s: string, level: int): (n: nat)
    ensures n <= |s|
    ensures |s| > 0 && (level != 0 || !IsSep(s[0])) ==> n > 0
  {
    if |s| == 0 || (level == 0 && IsSep(s[0])) then 0 else 1 + TokLen(s[1..], level + Level(s[0]))
  }

  lemma SkipSepsStep(s: string, i: nat)
    requires i < |s| && IsSep(s[i])
    ensures SkipSeps(s[i..]) == 1 + SkipSeps(s[i + 1..])
  {
    assert s[i..][1..] == s[i + 1..];
  }

  lemma TokLenStep(s: string, i: nat, level: int)
    requires i < |s| && !(level == 0 && IsSep(s[i]))
    ensures TokLen(s[i..], level) == 1 + TokLen(s[i + 1..], level + Level(s[i]))
  {
    assert s[i..][1..] == s[i + 1..];
  }

  /** The two loops of `_next_tok` that move past separators. */
  method SkipSeparators(s: string, from: nat) returns (at: nat)
    requires from <= |s|
    ensures at == from + SkipSeps(s[from..]) <= |s|
  {
    at := from;
    while at < |s| && IsSep(s[at])
      invariant from <= at <= |s|
      invariant at + SkipSeps(s[at..]) == from + SkipSeps(s[from..])
    {
      SkipSepsStep(s, at);
      at := at + 1;
    }
  }

  /** `_next_tok`: the next token of s from a position on, and where to go on. */
  method NextTok(s: string, from: nat) returns (start: nat, end: nat, next: nat)
    requires from <= |s|
    ensures start == from + SkipSeps(s[from..]) <= |s|
    ensures end == start + TokLen(s[start..], 0) <= |s|
    ensures next == end + SkipSeps(s[end..]) <= |s|
    ensures start < |s| ==> end > start
  {
    start := SkipSeparators(s, from);
    end := start;
    var level := 0;
    while end < |s| && (level != 0 || !IsSep(s[end]))
      invariant start <= end <= |s|
      invariant end + TokLen(s[end..], level) == start + TokLen(s[start..], 0)
    {
      TokLenStep(s, end, level);
      level := level + Level(s[end]);
      end := end + 1;
    }
    next := SkipSeparators(s, end);
  }

  // ---- Numbers and ranges between brackets

  function DigitsLen(s: string): (n: nat)
    ensures n <= |s| && AllDigits(s[..n])
    ensures n < |s| ==> !IsDigit(s[n])
  {
    if |s| > 0 && IsDigit(s[0]) then
      var n := DigitsLen(s[1..]);
      assert s[..n + 1] == [s[0]] + s[1..][..n];
      n + 1
    else 0
  }

  function SpacesLen(s: string): (n: nat)
    ensures n <= |s|
  {
    if |s| > 0 && IsSpace(s[0]) then 1 + SpacesLen(s[1..]) else 0
  }

  /** strtoul with base 10: the number and how much of the text it used, 0 for no number.
      Leading white space and a sign are accepted; a minus sign wraps around. */
  function Scan(s: string): (r: (nat, nat))
    ensures r.0 <= ULONG_MAX && r.1 <= |s|
  {
    var sp := SpacesLen(s);
    var sign := if sp < |s| && (s[sp] == '+' || s[sp] == '-') then 1 else 0;
    var t := s[sp + sign..];
    var n := DigitsLen(t);
    if n == 0 then (0, 0)
    else
      var v := StrToUl(t[..n]);
      (if sign == 1 && s[sp] == '-' && Value(t[..n]) <= ULONG_MAX && v > 0 then ULONG_MAX + 1 - v else v, sp + sign + n)
  }

  lemma ScanDigits(s: string)
    requires |s| > 0 && AllDigits(s) && Value(s) <= ULONG_MAX
    ensures Scan(s) == (Value(s), |s|)
  {
    assert SpacesLen(s) == 0;
    assert s[0..] == s;
    var n := DigitsLen(s);
    assert n == |s|;
    assert s[..n] == s;
  }

  datatype Span = Span(lo: nat, hi: nat, width: nat)
  datatype Parsed<T> = Ok(value: T) | Bad

  /** `_parse_single_range`. Only the text up to the first '-' counts for the width, and
      nothing checks what follows the first number when there is a second one. */
  function ParseSingle(str: string): (r: Parsed<Span>)
    ensures r.Ok? ==> r.value.lo <= r.value.hi < ULONG_MAX && r.value.hi - r.value.lo < MAX_RANGE
  {
    var dash := StrChr(str, '-');
    var first := str[..dash];
    var second := if dash < |str| then str[dash + 1..] else "";
    if |second| > 0 && second[0] == '-' then Bad
    else
      var (lo, q) := Scan(first);
      if q == 0 then Bad
      else
        var (hi, whole) := if |second| > 0 then (Scan(second).0, Scan(second).1 == |second|) else (lo, q == |first|);
        if !whole then Bad
        else if lo > hi || hi == ULONG_MAX then Bad
        else if hi - lo + 1 > MAX_RANGE then Bad
        else Ok(Span(lo, hi, |first|))
  }

  /** The parser reads "5-" as 5. */
  lemma DashAtEnd()
    ensures ParseSingle("5-") == Ok(Span(5, 5, 1))
  {
    hide Scan, StrChr;
    StrChrAt("5", '-', "");
    assert "5" + ['-'] + "" == "5-" && "5-"[..1] == "5" && "5-"[2..] == "";
    ScanDigit("5");
    assert Value("5") == 5;
  }

  lemma ScanDigit(s: string)
    requires |s| == 1 && IsDigit(s[0])
    ensures Scan(s) == (Value(s), 1)
  {
    assert Value(s) <= 9 by { assert Value(s[..0]) == 0; }
    ScanDigits(s);
  }

  /** And it overlooks what stands behind the first number of a range. */
  lemma TextBehindNumber()
    ensures ParseSingle("5x-7") == Ok(Span(5, 7, 2))
  {
    hide Scan, StrChr;
    StrChrAt("5x", '-', "7");
    assert "5x" + ['-'] + "7" == "5x-7" && "5x-7"[..2] == "5x" && "5x-7"[3..] == "7";
    ScanDigit("7");
    ScanPart();
    assert Value("7") == 7;
  }

  lemma ScanPart()
    ensures Scan("5x") == (5, 1)
  {
    assert SpacesLen("5x") == 0 && "5x"[0..] == "5x";
    assert DigitsLen("5x") == 1 && "5x"[..1] == "5";
    assert Value("5") == 5;
  }

  /** `_parse_range_list` at its meaning: comma-separated ranges, at most len of them. */
  function ParseList(str: string, len: nat): (r: Parsed<seq<Span>>)
    ensures r.Ok? ==> forall i :: 0 <= i < |r.value| ==>
      r.value[i].lo <= r.value[i].hi < ULONG_MAX && r.value[i].hi - r.value[i].lo < MAX_RANGE
    decreases |str|
  {
    if len == 0 then Bad
    else
      var comma := StrChr(str, ',');
      match ParseSingle(str[..comma])
      case Bad => Bad
      case Ok(one) =>
        if comma == |str| then Ok([one])
        else Prepend([one], ParseList(str[comma + 1..], len - 1))
  }

  function Prepend(ranges: seq<Span>, rest: Parsed<seq<Span>>): Parsed<seq<Span>> {
    if rest.Bad? then Bad else Ok(ranges + rest.value)
  }

  lemma PrependAssociates(a: seq<Span>, b: seq<Span>, c: Parsed<seq<Span>>)
    ensures Prepend(a, Prepend(b, c)) == Prepend(a + b, c)
  {
    if c.Ok? {
      Associate(a, b, c.value);
    }
  }

  lemma PrependNothing(c: Parsed<seq<Span>>)
    ensures Prepend([], c) == c
  {
    if c.Ok? {
      assert [] + c.value == c.value;
    }
  }

  /** `_parse_range_list`: the loop over the commas. */
  method ParseRangeList(text: string, len: nat) returns (r: Parsed<seq<Span>>)
    ensures r == ParseList(text, len)
  {
    hide ParseSingle;
    var str := text;
    var ranges: seq<Span> := [];
    PrependNothing(ParseList(text, len));
    while true
      invariant |ranges| <= len
      invariant ParseList(text, len) == Prepend(ranges, ParseList(str, len - |ranges|))
      decreases |str|
    {
      if |ranges| == len {
        return Bad;
      }
      var comma := StrChr(str, ',');
      var one := ParseSingle(str[..comma]);
      if one.Bad? {
        return Bad;
      }
      if comma == |str| {
        return Ok(ranges + [one.value]);
      }
      PrependAssociates(ranges, [one.value], ParseList(str[comma + 1..], len - |ranges| - 1));
      ranges := ranges + [one.value];
      str := str[comma + 1..];
    }
  }

  // ---- The meaning of a token

  function SpanNames(prefix: string, r: Span, suffix: string): (ns: seq<string>)
    ensures |ns| == if r.lo <= r.hi then r.hi - r.lo + 1 else 0
    ensures forall k :: 0 <= k < |ns| ==> ns[k] == prefix + Number(r.lo + k, r.width) + suffix
  {
    seq(if r.lo <= r.hi then r.hi - r.lo + 1 else 0, k requires 0 <= k => prefix + Number(r.lo + k, r.width) + suffix)
  }

  predicate InOrder(rs: seq<Span>) {
    forall i :: 0 <= i < |rs| ==> rs[i].lo <= rs[i].hi < ULONG_MAX
  }

  function SpansNames(prefix: string, rs: seq<Span>, suffix: string): seq<string> {
    if |rs| == 0 then [] else SpanNames(prefix, rs[0], suffix) + SpansNames(prefix, rs[1..], suffix)
  }

  /** The names one token stands for: its brackets expanded, or the token itself. */
  function TokenNames(tok: string): Parsed<seq<string>> {
    var open := StrChr(tok, '[');
    if open == |tok| then Ok([tok])
    else
      var inner := tok[open + 1..];
      var close := StrChr(inner, ']');
      if close == |inner| then Ok([tok])
      else match ParseList(inner[..close], MAX_RANGES)
        case Bad => Bad
        case Ok(rs) => Ok(SpansNames(tok[..open], rs, inner[close + 1..]))
  }

  /** The names that a token writes as numbers in a bracket with nothing behind it. */
  function TokenRanges(tok: string): seq<string> {
    var open := StrChr(tok, '[');
    if open == |tok| then []
    else
      var inner := tok[open + 1..];
      var close := StrChr(inner, ']');
      if close + 1 != |inner| then []
      else match ParseList(inner[..close], MAX_RANGES)
        case Bad => []
        case Ok(rs) => SpansNames(tok[..open], rs, "")
  }

  function Append(a: Parsed<seq<string>>, b: Parsed<seq<string>>): Parsed<seq<string>> {
    if a.Ok? && b.Ok? then Ok(a.value + b.value) else Bad
  }

  /** The names a text stands for, or Bad when a bracket in it cannot be read. */
  function Parse(s: string): Parsed<seq<string>>
    decreases |s|
  {
    var t := s[SkipSeps(s)..];
    if |t| == 0 then Ok([])
    else Append(TokenNames(t[..TokLen(t, 0)]), Parse(t[TokLen(t, 0)..]))
  }

  /** The names that a text writes in such brackets. */
  function Bracketed(s: string): seq<string>
    decreases |s|
  {
    var t := s[SkipSeps(s)..];
    if |t| == 0 then [] else TokenRanges(t[..TokLen(t, 0)]) + Bracketed(t[TokLen(t, 0)..])
  }

  // ---- The parser

  lemma SpanRangeNames(prefix: string, r: Span)
    requires r.lo <= r.hi
    ensures Range(prefix, r.lo, r.hi, r.width, false).Names() == SpanNames(prefix, r, "")
  {
    var hr := Range(prefix, r.lo, r.hi, r.width, false);
    forall k | 0 <= k < hr.Count()
      ensures hr.Names()[k] == SpanNames(prefix, r, "")[k]
    {
      assert hr.Name(k) == prefix + Number(r.lo + k, r.width) + "";
    }
  }

  lemma {:induction false} SpansNamesSnoc(prefix: string, rs: seq<Span>, i: nat, suffix: string)
    requires i < |rs|
    ensures SpansNames(prefix, rs[..i + 1], suffix) == SpansNames(prefix, rs[..i], suffix) + SpanNames(prefix, rs[i], suffix)
    decreases i
  {
    if i == 0 {
      assert rs[..1][1..] == [] && rs[..0] == [];
    } else {
      assert rs[..i + 1][1..] == rs[1..][..i] && rs[..i][1..] == rs[1..][..i - 1];
      SpansNamesSnoc(prefix, rs[1..], i - 1, suffix);
      Associate(SpanNames(prefix, rs[0], suffix), SpansNames(prefix, rs[1..][..i - 1], suffix), SpanNames(prefix, rs[i], suffix));
    }
  }

  /** `_push_range_list` */
  method PushRangeList(hl: HostList, prefix: string, rs: seq<Span>)
    requires hl.Valid() && InOrder(rs)
    modifies hl
    ensures hl.Valid() && hl.Names() == old(hl.Names()) + SpansNames(prefix, rs, "")
    ensures forall n :: Spells(hl.hr, n) <==> Spells(old(hl.hr), n) || n in SpansNames(prefix, rs, "")
  {
    hide Spells, ListNames, AllValid;
    ghost var names := hl.Names();
    for i := 0 to |rs|
      invariant hl.Valid() && hl.Names() == names + SpansNames(prefix, rs[..i], "")
      invariant forall n :: Spells(hl.hr, n) <==> Spells(old(hl.hr), n) || n in SpansNames(prefix, rs[..i], "")
    {
      SpansNamesSnoc(prefix, rs, i, "");
      SpanRangeNames(prefix, rs[i]);
      Associate(names, SpansNames(prefix, rs[..i], ""), SpanNames(prefix, rs[i], ""));
      var _, _ := hl.PushRange(Range(prefix, rs[i].lo, rs[i].hi, rs[i].width, false));
    }
    assert rs[..|rs|] == rs;
  }

  /** `_push_range_list_with_suffix`: with text after the bracket, every name is pushed as
      a host of its own. */
  method PushRangeListWithSuffix(hl: HostList, prefix: string, suffix: string, rs: seq<Span>)
    requires hl.Valid() && InOrder(rs)
    modifies hl
    ensures hl.Valid() && hl.Names() == old(hl.Names()) + SpansNames(prefix, rs, suffix)
    ensures forall n :: Spells(hl.hr, n) <==> Spells(old(hl.hr), n)
  {
    hide Spells, ListNames, AllValid;
    ghost var names := hl.Names();
    for i := 0 to |rs|
      invariant hl.Valid() && hl.Names() == names + SpansNames(prefix, rs[..i], suffix)
      invariant forall n :: Spells(hl.hr, n) <==> Spells(old(hl.hr), n)
    {
      ghost var before, all := hl.Names(), SpanNames(prefix, rs[i], suffix);
      for j := rs[i].lo to rs[i].hi + 1
        invariant hl.Valid() && hl.Names() == before + all[..j - rs[i].lo]
        invariant forall n :: Spells(hl.hr, n) <==> Spells(old(hl.hr), n)
      {
        var host := prefix + Number(j, rs[i].width) + suffix;
        var r := Range(host, 0, 0, 0, true);
        assert r.Names() == [all[j - rs[i].lo]];
        Associate(before, all[..j - rs[i].lo], r.Names());
        assert all[..j - rs[i].lo] + [all[j - rs[i].lo]] == all[..j + 1 - rs[i].lo];
        var _, _ := hl.PushRange(r);
      }
      assert all[..|all|] == all;
      SpansNamesSnoc(prefix, rs, i, suffix);
      Associate(names, SpansNames(prefix, rs[..i], suffix), all);
    }
    assert rs[..|rs|] == rs;
  }

  lemma ParseAtEnd(s: string, i: nat)
    requires i <= |s| && i + SkipSeps(s[i..]) == |s|
    ensures Parse(s[i..]) == Ok([]) && Bracketed(s[i..]) == []
  {
  }

  lemma ParseUnfold(u: string, t: string, n: nat)
    requires t == u[SkipSeps(u)..] && |t| > 0 && n == TokLen(t, 0)
    ensures Parse(u) == Append(TokenNames(t[..n]), Parse(t[n..]))
    ensures Bracketed(u) == TokenRanges(t[..n]) + Bracketed(t[n..])
  {
  }

  lemma SliceTwice(s: string, i: nat, n: nat)
    requires i + n <= |s|
    ensures s[i..][n..] == s[i + n..] && s[i..][..n] == s[i..i + n]
  {
  }

  lemma ParseAtToken(s: string, i: nat, start: nat, end: nat, next: nat)
    requires i <= |s| && start == i + SkipSeps(s[i..]) < |s|
    requires end == start + TokLen(s[start..], 0) && next == end + SkipSeps(s[end..])
    ensures end <= |s| && next <= |s|
    ensures Parse(s[i..]) == Append(TokenNames(s[start..end]), Parse(s[next..]))
    ensures Bracketed(s[i..]) == TokenRanges(s[start..end]) + Bracketed(s[next..])
  {
    hide Parse, Bracketed, TokenNames, TokenRanges, TokLen;
    var n := TokLen(s[start..], 0);
    assert Parse(s[i..]) == Append(TokenNames(s[start..end]), Parse(s[end..]))
        && Bracketed(s[i..]) == TokenRanges(s[start..end]) + Bracketed(s[end..]) by {
      SliceTwice(s, i, SkipSeps(s[i..]));
      SliceTwice(s, start, n);
      ParseUnfold(s[i..], s[start..], n);
    }
    assert Parse(s[end..]) == Parse(s[next..]) && Bracketed(s[end..]) == Bracketed(s[next..]) by {
      ParseSkip(s, end);
      SliceTwice(s, end, SkipSeps(s[end..]));
    }
  }

  lemma ParseSkip(s: string, i: nat)
    requires i <= |s|
    ensures Parse(s[i..]) == Parse(s[i..][SkipSeps(s[i..])..])
    ensures Bracketed(s[i..]) == Bracketed(s[i..][SkipSeps(s[i..])..])
  {
    var t := s[i..][SkipSeps(s[i..])..];
    assert SkipSeps(t) == 0;
    assert t[0..] == t;
  }

  lemma AppendAssociates(a: seq<string>, b: seq<string>, c: Parsed<seq<string>>)
    ensures Append(Ok(a), Append(Ok(b), c)) == Append(Ok(a + b), c)
  {
    if c.Ok? {
      Associate(a, b, c.value);
    }
  }

  lemma AppendNothing(c: Parsed<seq<string>>)
    ensures Append(Ok([]), c) == c
  {
    if c.Ok? {
      assert [] + c.value == c.value;
    }
  }

  /** The body of the token loop: one token pushed, or nothing when it cannot be read. */
  method PushToken(hl: HostList, tok: string) returns (ok: bool)
    requires hl.Valid()
    modifies hl
    ensures hl.Valid() && (ok <==> TokenNames(tok).Ok?)
    ensures ok ==> hl.Names() == old(hl.Names()) + TokenNames(tok).value
    ensures ok ==> forall n :: !Searchable(n) ==> (Spells(hl.hr, n) <==> Spells(old(hl.hr), n) || n in TokenRanges(tok))
  {
    hide ParseList, ListNames, SpansNames, Spells, Searchable;
    var open := StrChr(tok, '[');
    if open < |tok| {
      var inner := tok[open + 1..];
      var close := StrChr(inner, ']');
      if close < |inner| {
        var ranges := ParseRangeList(inner[..close], MAX_RANGES);
        if ranges.Bad? {
          return false;
        }
        if close + 1 < |inner| {
          PushRangeListWithSuffix(hl, tok[..open], inner[close + 1..], ranges.value);
        } else {
          assert inner[close + 1..] == "";
          PushRangeList(hl, tok[..open], ranges.value);
        }
        return true;
      }
    }
    hl.PushHost(tok);
    return true;
  }

  /** `_hostlist_create_bracketed` and `hostlist_create`: the list a text stands for, or
      null when a bracket in it cannot be read. The names that ranges of numbers print can be
      told from the text, too. */
  method Create(text: string) returns (hl: HostList?)
    ensures hl == null <==> Parse(text).Bad?
    ensures hl != null ==> fresh(hl) && hl.Valid() && Parse(text) == Ok(hl.Names())
    ensures hl != null ==> forall n :: !Searchable(n) ==> (Spells(hl.hr, n) <==> n in Bracketed(text))
  {
    hide ListNames, AllValid, TokenNames, TokenRanges, Parse, Bracketed, Spells, Searchable;
    var made := new HostList();
    var at := 0;
    assert text[0..] == text;
    AppendNothing(Parse(text));
    forall n
      ensures !Spells(made.hr, n)
    {
      NothingSpelled(n);
    }
    while true
      invariant at <= |text| && fresh(made) && made.Valid()
      invariant Parse(text) == Append(Ok(made.Names()), Parse(text[at..]))
      invariant forall n :: !Searchable(n) ==> (n in Bracketed(text) <==> Spells(made.hr, n) || n in Bracketed(text[at..]))
      decreases |text| - at
    {
      var start, end, next := NextTok(text, at);
      if start == |text| {
        ParseAtEnd(text, at);
        assert made.Names() + [] == made.Names();
        return made;
      }
      ParseAtToken(text, at, start, end, next);
      ghost var names := made.Names();
      var ok := PushToken(made, text[start..end]);
      if !ok {
        return null;
      }
      AppendAssociates(names, TokenNames(text[start..end]).value, Parse(text[next..]));
      at := next;
    }
  }
}
