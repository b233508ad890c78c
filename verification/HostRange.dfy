/** One host range: a prefix with the numbers lo..hi, printed at a minimum width, or a
    single host whose whole name is the prefix. Operations that the code applies through
    pointers return the rewritten range. */
module HostRange {
  import opened Digits

  const MAX_HOST_SUFFIX: nat := 0x200_0000

  datatype Range = Range(prefix: string, lo: nat, hi: nat, width: nat, single: bool) {

    /** What every stored range satisfies: `hostrange_empty` reserves ULONG_MAX. */
    predicate Valid() {
      if single then lo == 0 && hi == 0 && width == 0 else lo <= hi < ULONG_MAX
    }

    /** `hostrange_empty` */
    predicate Empty() {
      hi < lo || hi == ULONG_MAX
    }

    /** `hostrange_count` */
    function Count(): nat {
      if single then 1 else if lo <= hi then hi - lo + 1 else 0
    }

    /** Printed name of the host at an offset into the range. */
    function Name(k: nat): string {
      if single then prefix else prefix + Number(lo + k, width)
    }

    /** The meaning of a range: its printed names in order. */
    function Names(): (ns: seq<string>)
      ensures |ns| == Count()
      ensures forall k :: 0 <= k < Count() ==> ns[k] == Name(k)
    {
      seq(Count(), k requires 0 <= k => Name(k))
    }
  }

  // ---- Width rewriting

  datatype Widths = Widths(ok: bool, wn: nat, wm: nat)

  /** `_width_equiv` on two distinct ranges: when one of the widths serves for both
      numbers without changing a printed digit, it becomes the width of both. */
  function WidthEquiv(n: nat, wn: nat, m: nat, wm: nat): Widths {
    var npad, nmpad := Pad(n, wn), Pad(n, wm);
    var mpad, mnpad := Pad(m, wm), Pad(m, wn);
    if npad != nmpad && mpad != mnpad then Widths(false, wn, wm)
    else if npad != nmpad then Widths(true, wn, wn)
    else Widths(true, wm, wm)
  }

  /** Two ranges that differ at most in a width that makes no difference. */
  predicate Same(a: Range, b: Range) {
    && a.prefix == b.prefix && a.lo == b.lo && a.hi == b.hi && a.single == b.single
    && Pad(a.lo, a.width) == Pad(b.lo, b.width)
    && (a.single ==> a.width == b.width)
  }

  lemma SameNames(a: Range, b: Range)
    requires Same(a, b) && a.Valid()
    ensures b.Valid() && a.Names() == b.Names()
    ensures forall k: nat :: a.Name(k) == b.Name(k)
  {
    forall k: nat
      ensures a.Name(k) == b.Name(k)
    {
      PadStable(a.lo, a.lo + k, a.width, b.width);
    }
  }

  /** `hostrange_width_combine`: whether the widths combine, and both ranges after. */
  function WidthCombine(a: Range, b: Range): (r: (bool, Range, Range))
    requires a.Valid() && b.Valid() && a.single == b.single
    ensures Same(a, r.1) && Same(b, r.2)
    ensures r.0 ==> r.1.width == r.2.width
    ensures !r.0 ==> r.1 == a && r.2 == b
    ensures r.0 <==> Pad(a.lo, a.width) == Pad(a.lo, b.width) || Pad(b.lo, a.width) == Pad(b.lo, b.width)
  {
    var w := WidthEquiv(a.lo, a.width, b.lo, b.width);
    (w.ok, a.(width := w.wn), b.(width := w.wm))
  }

  // ---- Comparing

  /** strcmp: the sign of the first difference; a proper prefix comes first. */
  function StrCmp(s: string, t: string): int {
    if |s| == 0 then (if |t| == 0 then 0 else -1)
    else if |t| == 0 then 1
    else if s[0] != t[0] then (if s[0] < t[0] then -1 else 1)
    else StrCmp(s[1..], t[1..])
  }

  lemma {:induction false} StrCmpZero(s: string, t: string)
    ensures StrCmp(s, t) == 0 <==> s == t
    ensures StrCmp(s, t) == -StrCmp(t, s)
  {
    if |s| > 0 && |t| > 0 {
      assert s == [s[0]] + s[1..] && t == [t[0]] + t[1..];
      StrCmpZero(s[1..], t[1..]);
    }
  }

  lemma {:induction false} StrCmpTransitive(s: string, t: string, u: string)
    requires StrCmp(s, t) <= 0 && StrCmp(t, u) <= 0
    ensures StrCmp(s, u) <= 0
    ensures StrCmp(s, u) == 0 ==> StrCmp(s, t) == 0 && StrCmp(t, u) == 0
  {
    if |s| > 0 && |t| > 0 && |u| > 0 && s[0] == t[0] == u[0] {
      StrCmpTransitive(s[1..], t[1..], u[1..]);
    }
  }

  /** `hostrange_prefix_cmp` */
  function PrefixCmp(a: Range, b: Range): int {
    var c := StrCmp(a.prefix, b.prefix);
    if c == 0 then (if b.single then 1 else 0) - (if a.single then 1 else 0) else c
  }

  lemma PrefixCmpZero(a: Range, b: Range)
    ensures PrefixCmp(a, b) == 0 <==> a.prefix == b.prefix && a.single == b.single
  {
    StrCmpZero(a.prefix, b.prefix);
  }

  /** Conversion of an unsigned long difference to the int that the comparison returns. */
  function ToInt(x: int): int {
    var low := x % 0x1_0000_0000;
    if low >= 0x8000_0000 then low - 0x1_0000_0000 else low
  }

  /** `hostrange_cmp`: the int it returns and the two ranges with their widths rewritten. */
  function Cmp(a: Range, b: Range): (int, Range, Range)
    requires a.Valid() && b.Valid()
  {
    var c := PrefixCmp(a, b);
    if c != 0 then (c, a, b)
    else
      PrefixCmpZero(a, b);
      var (ok, a', b') := WidthCombine(a, b);
      (if ok then ToInt(a.lo - b.lo) else a.width - b.width, a', b')
  }

  /** Printed length of the first number. */
  function FirstLength(a: Range): (n: nat)
    ensures n == |Number(a.lo, a.width)|
  {
    DigitCount(a.lo) + Pad(a.lo, a.width)
  }

  /** The order the comparison stands for: prefix, single hosts first, printed length of
      the first number, then the number itself. */
  predicate KeyLe(a: Range, b: Range) {
    PrefixCmp(a, b) < 0
    || (PrefixCmp(a, b) == 0
        && (FirstLength(a) < FirstLength(b)
            || (FirstLength(a) == FirstLength(b) && a.lo <= b.lo)))
  }

  lemma KeyLePreorder(a: Range, b: Range, c: Range)
    ensures KeyLe(a, a)
    ensures KeyLe(a, b) || KeyLe(b, a)
    ensures KeyLe(a, b) && KeyLe(b, c) ==> KeyLe(a, c)
  {
    StrCmpZero(a.prefix, a.prefix);
    StrCmpZero(a.prefix, b.prefix);
    StrCmpZero(b.prefix, c.prefix);
    StrCmpZero(a.prefix, c.prefix);
    if KeyLe(a, b) && KeyLe(b, c) {
      StrCmpTransitive(a.prefix, b.prefix, c.prefix);
    }
  }

  lemma SameKey(a: Range, a': Range, b: Range, b': Range)
    requires Same(a, a') && Same(b, b')
    ensures KeyLe(a, b) == KeyLe(a', b')
  {
  }

  /** Numbers whose differences an int can hold. */
  predicate SmallNumbers(a: Range) {
    a.lo < 0x8000_0000
  }

  lemma ToIntExact(x: int)
    requires -0x8000_0000 <= x < 0x8000_0000
    ensures ToInt(x) == x
  {
  }

  /** The comparison decides the key order although it rewrites widths while comparing,
      and the rewrites change no printed name. */
  lemma CmpIsKeyOrder(a: Range, b: Range)
    requires a.Valid() && b.Valid() && SmallNumbers(a) && SmallNumbers(b)
    ensures Cmp(a, b).0 <= 0 <==> KeyLe(a, b)
    ensures Cmp(a, b).0 >= 0 <==> KeyLe(b, a)
    ensures Same(a, Cmp(a, b).1) && Same(b, Cmp(a, b).2)
  {
    StrCmpZero(a.prefix, b.prefix);
    if PrefixCmp(a, b) == 0 {
      if a.lo <= b.lo { DigitCountMonotone(a.lo, b.lo); } else { DigitCountMonotone(b.lo, a.lo); }
      ToIntExact(a.lo - b.lo);
      PrefixCmpZero(a, b);
    }
  }

  ghost predicate ExactBelow(bound: nat) {
    forall a: Range, b: Range :: a.Valid() && b.Valid() && a.lo < bound && b.lo < bound ==>
      (Cmp(a, b).0 <= 0 <==> KeyLe(a, b))
  }

  /** 2^31 is the exact limit: the int result is right on all ranges that start below a
      bound precisely when the bound is at most 2^31. */
  lemma CmpExactDomain(bound: nat)
    ensures ExactBelow(bound) <==> bound <= 0x8000_0000
  {
    if bound <= 0x8000_0000 {
      forall a: Range, b: Range | a.Valid() && b.Valid() && a.lo < bound && b.lo < bound
        ensures Cmp(a, b).0 <= 0 <==> KeyLe(a, b)
      {
        CmpIsKeyOrder(a, b);
      }
    } else {
      var a := Range("", 0x8000_0000, 0x8000_0000, 10, false);
      var b := Range("", 0, 0, 10, false);
      DigitCountMonotone(a.lo, 9_999_999_999);
      assert DigitCount(9_999_999_999) == 10;
      assert Cmp(a, b).0 == -0x8000_0000;
      assert !KeyLe(a, b);
    }
  }

  // ---- Joining, intersecting, deleting

  /** `hostrange_within_range`: whether two ranges share a bracket. */
  predicate WithinRange(a: Range, b: Range) {
    PrefixCmp(a, b) == 0 && !a.single && !b.single
  }

  /** `hostrange_join`: the number of duplicates, or -1 when the ranges do not meet, and
      both ranges after; a joined b is absorbed into a. */
  function Join(a: Range, b: Range): (int, Range, Range)
    requires a.Valid() && b.Valid()
  {
    if PrefixCmp(a, b) != 0 then (-1, a, b)
    else
      PrefixCmpZero(a, b);
      var (ok, a', b') := WidthCombine(a, b);
      if !ok then (-1, a, b)
      else if a'.single && b'.single then (1, a', b')
      else if a'.hi + 1 == b'.lo then (0, a'.(hi := b'.hi), b')
      else if a'.hi >= b'.lo then
        if a'.hi < b'.hi then (a'.hi - b'.lo + 1, a'.(hi := b'.hi), b')
        else (b'.Count(), a', b')
      else (-1, a', b')
  }

  datatype Meet = Apart(a: Range, b: Range) | Common(both: Range, a: Range, b: Range)

  /** `hostrange_intersect`, for ranges in order; it wants a.hi strictly above b.lo. */
  function Intersect(a: Range, b: Range): Meet
    requires a.Valid() && b.Valid()
  {
    if a.single || b.single || PrefixCmp(a, b) != 0 || a.hi <= b.lo then Apart(a, b)
    else
      var (ok, a', b') := WidthCombine(a, b);
      if ok then Common(a'.(lo := b'.lo, hi := if b'.hi < a'.hi then b'.hi else a'.hi), a', b')
      else Apart(a, b)
  }

  datatype Deletion = Kept(hr: Range) | Split(hr: Range, above: Range)

  /** `hostrange_delete_host`: take number n out of a range. */
  function DeleteNumber(hr: Range, n: nat): Deletion
    requires hr.Valid() && !hr.single && hr.lo <= n <= hr.hi
  {
    if n == hr.lo then Kept(hr.(lo := hr.lo + 1))
    else if n == hr.hi then Kept(hr.(hi := hr.hi - 1))
    else Split(hr.(hi := n - 1), hr.(lo := n + 1))
  }

  // ---- Matching a host name

  datatype HostName =
    | Bare(hostname: string)
    | Suffixed(hostname: string, prefix: string, suffix: string, num: nat)
  {
    predicate Valid() {
      Suffixed? ==>
        && hostname == prefix + suffix && |suffix| > 0 && AllDigits(suffix)
        && num == Value(suffix) <= MAX_HOST_SUFFIX
    }
  }

  /** Where the trailing digits of a name start. */
  function PrefixEnd(s: string): (cut: nat)
    ensures cut <= |s| && AllDigits(s[cut..])
    ensures cut > 0 ==> !IsDigit(s[cut - 1])
  {
    if |s| > 0 && IsDigit(s[|s| - 1]) then
      var cut := PrefixEnd(s[..|s| - 1]);
      assert forall i :: cut <= i < |s| - 1 ==> s[i] == s[..|s| - 1][cut..][i - cut];
      cut
    else |s|
  }

  /** `host_prefix_end`, counting from one past the last prefix character. */
  method HostPrefixEnd(hostname: string) returns (cut: nat)
    ensures cut == PrefixEnd(hostname)
  {
    cut := |hostname|;
    while cut > 0 && IsDigit(hostname[cut - 1])
      invariant cut <= |hostname| && PrefixEnd(hostname[..cut]) == PrefixEnd(hostname)
    {
      assert hostname[..cut][..cut - 1] == hostname[..cut - 1];
      cut := cut - 1;
    }
  }

  /** `hostname_create_with_suffix`: a suffix that is too large is no suffix. */
  function HostNameAt(hostname: string, cut: nat): (hn: HostName)
    requires cut <= |hostname| && AllDigits(hostname[cut..])
    ensures hn.Valid() && hn.hostname == hostname
    ensures hn.Suffixed? <==> cut < |hostname| && Value(hostname[cut..]) <= MAX_HOST_SUFFIX
    ensures hn.Suffixed? ==> hn.prefix == hostname[..cut]
  {
    if cut == |hostname| then Bare(hostname)
    else if StrToUl(hostname[cut..]) <= MAX_HOST_SUFFIX then
      Suffixed(hostname, hostname[..cut], hostname[cut..], StrToUl(hostname[cut..]))
    else Bare(hostname)
  }

  /** `hostname_create` */
  function HostNameOf(hostname: string): (hn: HostName)
    ensures hn.Valid() && hn.hostname == hostname
  {
    HostNameAt(hostname, PrefixEnd(hostname))
  }

  /** Whether the range's prefix may have swallowed digits that the name counts as suffix. */
  predicate Resplit(hr: Range, hn: HostName)
    requires hn.Suffixed? && hn.Valid()
  {
    && |hn.prefix| < |hr.prefix| && |hn.suffix| > 1
    && IsDigit(hr.prefix[|hr.prefix| - 1]) && hr.prefix[|hn.prefix|] == hn.suffix[0]
  }

  /** `hostrange_hn_within`: the offset of the name in the range or -1, and the range with
      its width rewritten. A range prefix that itself ends in digits makes the name be
      split again one digit further. */
  function HnWithin(hr: Range, hn: HostName): (int, Range)
    requires hr.Valid() && hn.Valid()
    decreases |hn.hostname| - (if hn.Suffixed? then |hn.prefix| else 0)
  {
    if hr.single then (if hn.hostname == hr.prefix then 0 else -1, hr)
    else if hn.Bare? || !(hn.prefix <= hr.prefix) then (-1, hr)
    else if Resplit(hr, hn) then
      assert hn.hostname[|hn.prefix| + 1..] == hn.suffix[1..];
      ValueTail(hn.suffix);
      HnWithin(hr, HostNameAt(hn.hostname, |hn.prefix| + 1))
    else if hn.prefix == hr.prefix && hr.lo <= hn.num <= hr.hi then
      var w := WidthEquiv(hr.lo, hr.width, hn.num, |hn.suffix|);
      if w.ok then (hn.num - hr.lo, hr.(width := w.wn)) else (-1, hr)
    else (-1, hr)
  }

  lemma NameInjective(hr: Range, j: nat, k: nat)
    requires hr.Valid() && j < hr.Count() && k < hr.Count()
    ensures hr.Name(j) == hr.Name(k) ==> j == k
  {
    if hr.Name(j) == hr.Name(k) && !hr.single {
      assert hr.Name(j)[|hr.prefix|..] == Number(hr.lo + j, hr.width);
      assert hr.Name(k)[|hr.prefix|..] == Number(hr.lo + k, hr.width);
      ValueNumber(hr.lo + j, hr.width);
      ValueNumber(hr.lo + k, hr.width);
    }
  }

  /** A hit is a true hit, and looking changes no printed name. */
  lemma {:induction false} HnWithinSound(hr: Range, hn: HostName)
    requires hr.Valid() && hn.Valid()
    ensures var (k, hr') := HnWithin(hr, hn);
      Same(hr, hr') && -1 <= k < hr.Count() && (k >= 0 ==> hr.Name(k) == hn.hostname)
    decreases |hn.hostname| - (if hn.Suffixed? then |hn.prefix| else 0)
  {
    if !hr.single && hn.Suffixed? && hn.prefix <= hr.prefix {
      if Resplit(hr, hn) {
        assert hn.hostname[|hn.prefix| + 1..] == hn.suffix[1..];
        ValueTail(hn.suffix);
        HnWithinSound(hr, HostNameAt(hn.hostname, |hn.prefix| + 1));
      } else if hn.prefix == hr.prefix && hr.lo <= hn.num <= hr.hi {
        var w := WidthEquiv(hr.lo, hr.width, hn.num, |hn.suffix|);
        if w.ok {
          NumberValue(hn.suffix);
          if Pad(hr.lo, hr.width) == Pad(hr.lo, |hn.suffix|) {
            PadStable(hr.lo, hn.num, hr.width, |hn.suffix|);
          }
          assert Number(hn.num, hr.width) == hn.suffix;
        }
      }
    }
  }

  lemma SplitText(p: string, num: string, cut: nat)
    requires cut < |p|
    ensures (p + num)[..cut] == p[..cut]
    ensures (p + num)[cut..] == p[cut..] + num
    ensures (p + num)[cut + 1..] == (p + num)[cut..][1..]
    ensures (p + num)[cut..][0] == p[cut]
    ensures (p + num)[cut..][|p| - 1 - cut] == p[|p| - 1]
  {
  }

  lemma SplitOfHostName(hn: HostName)
    requires hn.Valid() && hn.Suffixed?
    ensures hn.prefix == hn.hostname[..|hn.prefix|] && hn.suffix == hn.hostname[|hn.prefix|..]
  {
  }

  /** A split that falls inside the range's prefix is moved one digit to the right. */
  lemma HnWithinStep(hr: Range, hn: HostName, num: string)
    requires hr.Valid() && hn.Valid() && !hr.single && hn.Suffixed?
    requires hn.hostname == hr.prefix + num && |num| > 0 && |hn.prefix| < |hr.prefix|
    ensures AllDigits(hn.hostname[|hn.prefix| + 1..])
    ensures Value(hn.hostname[|hn.prefix| + 1..]) <= MAX_HOST_SUFFIX
    ensures hn.prefix <= hr.prefix && Resplit(hr, hn)
  {
    SplitText(hr.prefix, num, |hn.prefix|);
    SplitOfHostName(hn);
    ValueTail(hn.suffix);
  }

  lemma NumberFits(suffix: string, n: nat, width: nat)
    requires suffix == Number(n, width)
    ensures Value(suffix) == n && Pad(n, |suffix|) == Pad(n, width)
  {
    ValueNumber(n, width);
  }

  /** The split at the end of the range's prefix finds the number. */
  lemma HnWithinLast(hr: Range, hn: HostName, n: nat)
    requires hn.Valid() && hn.Suffixed? && |hn.prefix| == |hr.prefix|
    requires hn.hostname == hr.prefix + Number(n, hr.width)
    ensures hn.prefix == hr.prefix && hn.num == n
    ensures WidthEquiv(hr.lo, hr.width, hn.num, |hn.suffix|).ok
  {
    SplitOfHostName(hn);
    assert hn.prefix == hr.prefix;
    assert hn.suffix == Number(n, hr.width);
    NumberFits(hn.suffix, n, hr.width);
  }

  /** Every name of the range is hit when its suffix is small enough to be one, however
      many digits the range keeps in its prefix. */
  lemma {:induction false} HnWithinComplete(hr: Range, hn: HostName, k: nat)
    requires hr.Valid() && hn.Valid() && k < hr.Count() && hr.Name(k) == hn.hostname
    requires hr.single || (hn.Suffixed? && |hn.prefix| <= |hr.prefix|)
    ensures HnWithin(hr, hn).0 == k
    decreases |hn.hostname| - (if hn.Suffixed? then |hn.prefix| else 0)
  {
    if !hr.single {
      if |hn.prefix| < |hr.prefix| {
        HnWithinStep(hr, hn, Number(hr.lo + k, hr.width));
        HnWithinComplete(hr, HostNameAt(hn.hostname, |hn.prefix| + 1), k);
      } else {
        HnWithinLast(hr, hn, hr.lo + k);
      }
    }
  }

  /** The name's own split never cuts into the number of a range that holds the name. */
  lemma SplitBeforePrefix(prefix: string, digits: string)
    requires AllDigits(digits)
    ensures PrefixEnd(prefix + digits) <= |prefix|
  {
    var s := prefix + digits;
    assert forall i :: |prefix| <= i < |s| ==> s[i] == digits[i - |prefix|];
  }
}
