/** Sorting a host list: qsort with the width-rewriting comparison, then the coalescing
    of overlaps with its restarts, then the merging of neighbours; and removing duplicates. */
module HostSort {
  import opened Digits
  import opened HostRange
  import opened HostLists
  import opened HostOrder

  predicate AllSmall(rs: seq<Range>) {
    forall i :: 0 <= i < |rs| ==> SmallNumbers(rs[i])
  }

  /** All numbers are below n. */
  predicate Under(rs: seq<Range>, n: nat) {
    forall i :: 0 <= i < |rs| ==> rs[i].hi < n
  }

  /** Sorting makes no higher numbers. */
  ghost predicate NoHigher(was: seq<Range>, rs: seq<Range>) {
    forall n: nat :: Under(was, n) ==> Under(rs, n)
  }

  /** What the sort needs: one width per prefix, and numbers whose differences an int can
      hold. */
  ghost predicate Sortable(rs: seq<Range>, W: string -> nat) {
    Under(rs, 0x8000_0000) && Uniform(rs, W)
  }

  lemma SortableSmall(rs: seq<Range>, W: string -> nat)
    requires AllValid(rs) && Sortable(rs, W)
    ensures AllSmall(rs)
  {
  }

  lemma EachNoHigher(was: seq<Range>, rs: seq<Range>)
    requires forall k :: 0 <= k < |rs| ==> exists j :: 0 <= j < |was| && rs[k].hi <= was[j].hi
    ensures NoHigher(was, rs)
  {
    forall n: nat, k | Under(was, n) && 0 <= k < |rs|
      ensures rs[k].hi < n
    {
      var j :| 0 <= j < |was| && rs[k].hi <= was[j].hi;
    }
  }

  lemma PermutedNoHigher(was: seq<Range>, rs: seq<Range>)
    requires Permuted(was, rs)
    ensures NoHigher(was, rs)
  {
    hide Permuted;
    forall n: nat, k | Under(was, n) && 0 <= k < |rs|
      ensures rs[k].hi < n
    {
      var j := PermutedFrom(was, rs, k);
    }
  }

  // ---- qsort

  /** Sorted but for the element at j, which is below everything after it. */
  predicate SortedBut(rs: seq<Range>, i: nat, j: nat) {
    j <= i < |rs| && forall p, q :: 0 <= p < q <= i && q != j ==> KeyLe(rs[p], rs[q])
  }

  /** One comparison rewrites two widths, which neither order nor permutation see. */
  lemma CompareStep(rs: seq<Range>, j: nat)
    requires AllValid(rs) && 0 < j < |rs|
    ensures var (c, a, b) := Cmp(rs[j - 1], rs[j]);
      var rs' := rs[j - 1 := a][j := b];
      && SameList(rs, rs') && AllValid(rs') && Permuted(rs, rs')
      && forall p, q :: 0 <= p < |rs| && 0 <= q < |rs| ==> KeyLe(rs[p], rs[q]) == KeyLe(rs'[p], rs'[q])
  {
    var (c, a, b) := Cmp(rs[j - 1], rs[j]);
    var rs' := rs[j - 1 := a][j := b];
    assert forall k :: 0 <= k < |rs| ==> Same(rs[k], rs'[k]);
    SameListNames(rs, rs');
    SameListPermuted(rs, rs');
    forall p, q | 0 <= p < |rs| && 0 <= q < |rs|
      ensures KeyLe(rs[p], rs[q]) == KeyLe(rs'[p], rs'[q])
    {
      SameKey(rs[p], rs'[p], rs[q], rs'[q]);
    }
  }

  lemma SwapPermuted(rs: seq<Range>, j: nat)
    requires AllValid(rs) && 0 < j < |rs|
    ensures var rs' := rs[j - 1 := rs[j]][j := rs[j - 1]];
      AllValid(rs') && Permuted(rs, rs')
  {
    var rs' := rs[j - 1 := rs[j]][j := rs[j - 1]];
    var cs, cs' := CanonList(rs), CanonList(rs');
    assert cs == cs[..j - 1] + [cs[j - 1], cs[j]] + cs[j + 1..];
    assert cs' == cs[..j - 1] + [cs[j], cs[j - 1]] + cs[j + 1..];
  }

  lemma SwapSorted(rs: seq<Range>, i: nat, j: nat)
    requires SortedBut(rs, i, j) && 0 < j && KeyLe(rs[j], rs[j - 1])
    ensures SortedBut(rs[j - 1 := rs[j]][j := rs[j - 1]], i, j - 1)
  {
  }

  lemma SortedWhole(rs: seq<Range>, i: nat, j: nat)
    requires SortedBut(rs, i, j) && (j > 0 ==> KeyLe(rs[j - 1], rs[j]))
    ensures forall p, q :: 0 <= p < q <= i ==> KeyLe(rs[p], rs[q])
  {
    forall p | 0 <= p < j
      ensures KeyLe(rs[p], rs[j])
    {
      if p < j - 1 {
        KeyLePreorder(rs[p], rs[j - 1], rs[j]);
      }
    }
  }

  /** qsort with `_cmp`. The C library leaves its algorithm open; insertion stands for it. */
  method Qsort(hl: HostList)
    requires hl.Valid() && AllSmall(hl.hr)
    modifies hl`hr
    ensures hl.Valid() && Permuted(old(hl.hr), hl.hr) && Sorted(hl.hr)
    ensures multiset(hl.Names()) == multiset(old(hl.Names()))
  {
    ghost var was := hl.hr;
    for i := 0 to |hl.hr|
      invariant AllValid(hl.hr) && |hl.hr| == |was| && Permuted(was, hl.hr)
      invariant forall p, q :: 0 <= p < q < i ==> KeyLe(hl.hr[p], hl.hr[q])
    {
      var j := i;
      while j > 0
        invariant AllValid(hl.hr) && |hl.hr| == |was| && Permuted(was, hl.hr)
        invariant SortedBut(hl.hr, i, j)
      {
        CompareStep(hl.hr, j);
        PermutedSmall(was, hl.hr);
        CmpIsKeyOrder(hl.hr[j - 1], hl.hr[j]);
        var (c, a, b) := Cmp(hl.hr[j - 1], hl.hr[j]);
        hl.hr := hl.hr[j - 1 := a][j := b];
        if c <= 0 {
          break;
        }
        SwapPermuted(hl.hr, j);
        SwapSorted(hl.hr, i, j);
        hl.hr := hl.hr[j - 1 := hl.hr[j]][j := hl.hr[j - 1]];
        j := j - 1;
      }
      SortedWhole(hl.hr, i, j);
    }
    PermutedNames(was, hl.hr);
  }

  // ---- Splitting an overlap

  ghost function Bag(rs: seq<Range>): multiset<string> {
    multiset(ListNames(rs))
  }

  /** How often a name is printed for the numbers from a up to but not including b. */
  ghost function SpanCount(prefix: string, width: nat, a: nat, b: nat, x: string): nat
    decreases b - a
  {
    if a >= b then 0
    else (if prefix + Number(a, width) == x then 1 else 0) + SpanCount(prefix, width, a + 1, b, x)
  }

  lemma {:induction false} SpanCountCut(prefix: string, width: nat, a: nat, m: nat, b: nat, x: string)
    requires a <= m <= b
    ensures SpanCount(prefix, width, a, b, x) == SpanCount(prefix, width, a, m, x) + SpanCount(prefix, width, m, b, x)
    decreases m - a
  {
    if a < m {
      SpanCountCut(prefix, width, a + 1, m, b, x);
    }
  }

  ghost function RangeCount(r: Range, x: string): nat {
    if r.single then (if r.prefix == x then 1 else 0) else SpanCount(r.prefix, r.width, r.lo, r.hi + 1, x)
  }

  /** How often a name is printed for a list of ranges. */
  ghost function NameCount(rs: seq<Range>, x: string): nat {
    if |rs| == 0 then 0 else RangeCount(rs[0], x) + NameCount(rs[1..], x)
  }

  lemma {:induction false} NameCountConcat(a: seq<Range>, b: seq<Range>, x: string)
    ensures NameCount(a + b, x) == NameCount(a, x) + NameCount(b, x)
  {
    if |a| == 0 {
      assert a + b == b;
    } else {
      assert (a + b)[1..] == a[1..] + b;
      NameCountConcat(a[1..], b, x);
    }
  }

  lemma RangeCountStep(r: Range, x: string)
    requires !r.single && r.lo <= r.hi
    ensures RangeCount(r, x) == (if r.Name(0) == x then 1 else 0) + RangeCount(r.(lo := r.lo + 1), x)
  {
  }

  lemma {:induction false} RangeCountBag(r: Range, x: string)
    ensures multiset(r.Names())[x] == RangeCount(r, x)
    decreases r.Count()
  {
    if r.single {
      assert r.Names() == [r.prefix] + [];
      FirstCount(r.prefix, [], x);
    } else if r.lo <= r.hi {
      var rest := r.(lo := r.lo + 1);
      assert multiset(r.Names())[x] == (if r.Name(0) == x then 1 else 0) + multiset(rest.Names())[x] by {
        FirstName(r);
        FirstCount(r.Name(0), rest.Names(), x);
      }
      RangeCountBag(rest, x);
      RangeCountStep(r, x);
    } else {
      assert r.Names() == [];
    }
  }

  lemma FirstCount(first: string, rest: seq<string>, x: string)
    ensures multiset([first] + rest)[x] == (if first == x then 1 else 0) + multiset(rest)[x]
  {
  }

  lemma FirstName(r: Range)
    requires !r.single && r.lo <= r.hi
    ensures r.Names() == [r.Name(0)] + r.(lo := r.lo + 1).Names()
  {
    var rest := r.(lo := r.lo + 1);
    forall k | 0 < k < r.Count()
      ensures r.Names()[k] == rest.Names()[k - 1]
    {
      assert rest.Name(k - 1) == r.Name(k);
    }
  }

  lemma {:induction false} NameCountBag(rs: seq<Range>, x: string)
    ensures Bag(rs)[x] == NameCount(rs, x)
  {
    if |rs| > 0 {
      RangeCountBag(rs[0], x);
      NameCountBag(rs[1..], x);
    }
  }

  lemma NameCountTwo(a: Range, b: Range, x: string)
    ensures NameCount([a, b], x) == RangeCount(a, x) + RangeCount(b, x)
  {
    assert [a, b] == [a] + [b];
    NameCountConcat([a], [b], x);
    NameCountOne(a, x);
    NameCountOne(b, x);
  }

  lemma NameCountThree(a: seq<Range>, b: seq<Range>, c: seq<Range>, x: string)
    ensures NameCount(a + b + c, x) == NameCount(a, x) + NameCount(b, x) + NameCount(c, x)
  {
    NameCountConcat(a + b, c, x);
    NameCountConcat(a, b, x);
  }

  lemma NameCountOne(r: Range, x: string)
    ensures NameCount([r], x) == RangeCount(r, x)
  {
    assert [r][1..] == [];
  }

  /** The one-host ranges put between the two halves of an overlap, from number k on:
      each inner number twice, the two end numbers once. */
  function Doubles(both: Range, k: nat): seq<Range>
    decreases both.hi + 1 - k
  {
    if k > both.hi then [] else DoubleAt(both, k) + Doubles(both, k + 1)
  }

  function DoubleAt(both: Range, k: nat): seq<Range> {
    var one := both.(lo := k, hi := k);
    (if k > both.lo then [one] else []) + (if k < both.hi then [one] else [])
  }

  lemma DoubleAtCount(both: Range, k: nat, x: string)
    requires !both.single
    ensures NameCount(DoubleAt(both, k), x) == (if k > both.lo then SpanCount(both.prefix, both.width, k, k + 1, x) else 0)
      + (if k < both.hi then SpanCount(both.prefix, both.width, k, k + 1, x) else 0)
  {
    hide SpanCount;
    var one := both.(lo := k, hi := k);
    NameCountConcat(if k > both.lo then [one] else [], if k < both.hi then [one] else [], x);
    NameCountOne(one, x);
  }

  lemma SpanCountNone(p: string, w: nat, a: nat, b: nat, x: string)
    requires a >= b
    ensures SpanCount(p, w, a, b, x) == 0
  {
  }

  /** The inserted hosts from number k on: all numbers but the first, and all but the last. */
  lemma {:induction false} DoublesCount(both: Range, k: nat, x: string)
    requires !both.single && both.lo <= k <= both.hi + 1
    ensures NameCount(Doubles(both, k), x) ==
      SpanCount(both.prefix, both.width, if k > both.lo then k else both.lo + 1, both.hi + 1, x)
      + SpanCount(both.prefix, both.width, k, both.hi, x)
    decreases both.hi + 1 - k
  {
    hide SpanCount, DoubleAt;
    var p, w := both.prefix, both.width;
    if k <= both.hi {
      DoublesCount(both, k + 1, x);
      NameCountConcat(DoubleAt(both, k), Doubles(both, k + 1), x);
      DoubleAtCount(both, k, x);
      SpanCountCut(p, w, k, k + 1, both.hi + 1, x);
      if k < both.hi {
        SpanCountCut(p, w, k, k + 1, both.hi, x);
      } else {
        SpanCountNone(p, w, k, both.hi, x);
        SpanCountNone(p, w, k + 1, both.hi, x);
      }
    } else {
      SpanCountNone(p, w, both.hi + 1, both.hi + 1, x);
      SpanCountNone(p, w, both.hi + 2, both.hi + 1, x);
      SpanCountNone(p, w, k, both.hi, x);
    }
  }

  ghost predicate Pieces(rs: seq<Range>, both: Range, k: nat, W: string -> nat) {
    && AllValid(rs) && Uniform(rs, W) && Chain(rs)
    && forall i :: 0 <= i < |rs| ==> rs[i].prefix == both.prefix && !rs[i].single && k <= rs[i].lo <= both.hi
  }

  lemma DoubleAtShape(both: Range, k: nat, W: string -> nat)
    requires both.Valid() && !both.single && both.lo <= k <= both.hi && PadsLike(both, W)
    ensures Pieces(DoubleAt(both, k), both, k, W)
    ensures forall i :: 0 <= i < |DoubleAt(both, k)| ==> DoubleAt(both, k)[i].lo == k
  {
    var one := both.(lo := k, hi := k);
    PadStable(both.lo, k, both.width, W(both.prefix));
    PrefixCmpZero(one, one);
  }

  lemma PiecesConcat(head: seq<Range>, rest: seq<Range>, both: Range, k: nat, W: string -> nat)
    requires Pieces(head, both, k, W) && Pieces(rest, both, k + 1, W) && forall i :: 0 <= i < |head| ==> head[i].lo == k
    ensures Pieces(head + rest, both, k, W)
  {
    hide StrCmp, Uniform, AllValid;
    if |head| > 0 && |rest| > 0 {
      PrefixCmpZero(head[|head| - 1], rest[0]);
    }
    ChainConcat(head, rest);
    UniformConcat(head, rest, W);
  }

  lemma {:induction false} DoublesShape(both: Range, k: nat, W: string -> nat)
    requires both.Valid() && !both.single && both.lo <= k && PadsLike(both, W)
    ensures Pieces(Doubles(both, k), both, k, W)
    decreases both.hi + 1 - k
  {
    hide DoubleAt;
    if k <= both.hi {
      DoublesShape(both, k + 1, W);
      DoubleAtShape(both, k, W);
      PiecesConcat(DoubleAt(both, k), Doubles(both, k + 1), both, k, W);
    }
  }

  lemma DoublesEmpty(both: Range)
    requires both.lo <= both.hi
    ensures both.lo == both.hi <==> Doubles(both, both.lo) == []
  {
  }

  /** The two ranges of an overlap after the split, and the one-host ranges between. */
  function SplitLow(both: Range, a: Range): Range {
    a.(hi := both.lo)
  }

  function SplitHigh(both: Range, a: Range, b: Range): Range {
    b.(lo := both.hi, hi := if both.hi < a.hi then a.hi else b.hi)
  }

  function SplitOverlap(both: Range, a: Range, b: Range): seq<Range> {
    [SplitLow(both, a)] + Doubles(both, both.lo) + [SplitHigh(both, a, b)]
  }

  predicate IsOverlap(both: Range, a: Range, b: Range) {
    && a.Valid() && b.Valid() && !a.single && !b.single && a.prefix == b.prefix && a.width == b.width
    && a.lo <= b.lo < a.hi
    && both == a.(lo := b.lo, hi := if b.hi < a.hi then b.hi else a.hi)
  }

  /** Splitting an overlap keeps every host with its multiplicity. */
  lemma SplitCount(both: Range, a: Range, b: Range, x: string)
    requires IsOverlap(both, a, b)
    ensures NameCount(SplitOverlap(both, a, b), x) == RangeCount(a, x) + RangeCount(b, x)
  {
    var low, mid, high := SplitLow(both, a), Doubles(both, both.lo), SplitHigh(both, a, b);
    NameCountEnds(low, mid, high, x);
    DoublesCount(both, both.lo, x);
    CutRanges(both, a, b, x);
  }

  lemma NameCountEnds(low: Range, mid: seq<Range>, high: Range, x: string)
    ensures NameCount([low] + mid + [high], x) == RangeCount(low, x) + NameCount(mid, x) + RangeCount(high, x)
  {
    NameCountThree([low], mid, [high], x);
    NameCountOne(low, x);
    NameCountOne(high, x);
  }

  lemma CutRanges(both: Range, a: Range, b: Range, x: string)
    requires IsOverlap(both, a, b)
    ensures RangeCount(SplitLow(both, a), x) + SpanCount(a.prefix, a.width, both.lo + 1, both.hi + 1, x)
      + SpanCount(a.prefix, a.width, both.lo, both.hi, x) + RangeCount(SplitHigh(both, a, b), x)
      == RangeCount(a, x) + RangeCount(b, x)
  {
    hide SpanCount;
    if b.hi < a.hi {
      CutInside(a.prefix, a.width, a.lo, b.lo, b.hi, a.hi, x);
    } else {
      CutAcross(a.prefix, a.width, a.lo, b.lo, a.hi, b.hi, x);
    }
  }

  lemma CutAcross(p: string, w: nat, alo: nat, lo: nat, hi: nat, bhi: nat, x: string)
    requires alo <= lo <= hi <= bhi
    ensures SpanCount(p, w, alo, lo + 1, x) + SpanCount(p, w, lo + 1, hi + 1, x) + SpanCount(p, w, lo, hi, x)
      + SpanCount(p, w, hi, bhi + 1, x) == SpanCount(p, w, alo, hi + 1, x) + SpanCount(p, w, lo, bhi + 1, x)
  {
    hide SpanCount;
    SpanCountCut(p, w, alo, lo + 1, hi + 1, x);
    SpanCountCut(p, w, lo, hi, bhi + 1, x);
  }

  lemma CutInside(p: string, w: nat, alo: nat, lo: nat, hi: nat, ahi: nat, x: string)
    requires alo <= lo <= hi < ahi
    ensures SpanCount(p, w, alo, lo + 1, x) + SpanCount(p, w, lo + 1, hi + 1, x) + SpanCount(p, w, lo, hi, x)
      + SpanCount(p, w, hi, ahi + 1, x) == SpanCount(p, w, alo, ahi + 1, x) + SpanCount(p, w, lo, hi + 1, x)
  {
    hide SpanCount;
    SpanCountCut(p, w, alo, lo + 1, ahi + 1, x);
    SpanCountCut(p, w, lo, hi, hi + 1, x);
    CutCountsInside(p, w, lo, hi, ahi, x);
  }

  lemma CutCountsInside(p: string, w: nat, lo: nat, hi: nat, ahi: nat, x: string)
    requires lo <= hi < ahi
    ensures SpanCount(p, w, lo + 1, ahi + 1, x) + SpanCount(p, w, hi, hi + 1, x)
         == SpanCount(p, w, lo + 1, hi + 1, x) + SpanCount(p, w, hi, ahi + 1, x)
  {
    SpanCountCut(p, w, lo + 1, hi + 1, ahi + 1, x);
    SpanCountCut(p, w, hi, hi + 1, ahi + 1, x);
  }

  /** Sum of the running totals of the upper bounds: it falls when an upper bound that is
      larger than its right neighbour's changes places with it. */
  function Totals(rs: seq<Range>, acc: nat): nat {
    if |rs| == 0 then 0 else acc + rs[0].hi + Totals(rs[1..], acc + rs[0].hi)
  }

  lemma {:induction false} SwapLowersTotals(rs: seq<Range>, i: nat, x: Range, y: Range, acc: nat)
    requires 0 < i < |rs| && x.hi == rs[i].hi < rs[i - 1].hi == y.hi
    ensures Totals(rs[i - 1 := x][i := y], acc) < Totals(rs, acc)
    decreases i
  {
    var rs' := rs[i - 1 := x][i := y];
    if i == 1 {
      assert rs'[1..][1..] == rs[1..][1..];
    } else {
      assert rs'[1..] == rs[1..][i - 2 := x][i - 1 := y];
      SwapLowersTotals(rs[1..], i - 1, x, y, acc + rs[0].hi);
    }
  }

  // ---- Coalescing

  /** What the coalescing loop keeps: the list in order, everything from range i on clear. */
  ghost predicate Scanned(rs: seq<Range>, i: nat, W: string -> nat) {
    && AllValid(rs) && Uniform(rs, W) && Chain(rs)
    && forall k :: i <= k < |rs| - 1 ==> Clear(rs[k], rs[k + 1])
  }

  /** The rewritten pair of an intersection is an overlap in order. */
  lemma MeetIsOverlap(rs: seq<Range>, i: nat, W: string -> nat)
    requires Scanned(rs, i, W) && 0 < i < |rs|
    ensures match Intersect(rs[i - 1], rs[i])
      case Apart(a, b) => a == rs[i - 1] && b == rs[i] && Clear(a, b)
      case Common(both, a, b) => IsOverlap(both, a, b) && Same(rs[i - 1], a) && Same(rs[i], b)
                                 && PadsLike(a, W) && PadsLike(b, W) && PadsLike(both, W)
    ensures KeyLe(rs[i - 1], rs[i])
  {
    var a, b := rs[i - 1], rs[i];
    assert LoLe(rs[i - 1], rs[i - 1 + 1]);
    assert PadsLike(a, W) && PadsLike(b, W);
    UniformKey(a, b, W);
    PrefixCmpZero(a, b);
    if PrefixCmp(a, b) == 0 {
      UniformCombines(a, b, W);
    }
    match Intersect(a, b)
    case Apart(_, _) =>
    case Common(both, a', b') =>
      PadStable(a.lo, both.lo, a'.width, W(a.prefix));
  }

  lemma SplitShape(both: Range, a: Range, b: Range, W: string -> nat)
    requires IsOverlap(both, a, b) && PadsLike(a, W) && PadsLike(b, W) && PadsLike(both, W)
    ensures AllValid(SplitOverlap(both, a, b)) && Uniform(SplitOverlap(both, a, b), W)
    ensures Chain(SplitOverlap(both, a, b))
  {
    var low, high, mid := SplitLow(both, a), SplitHigh(both, a, b), Doubles(both, both.lo);
    hide Doubles;
    DoublesShape(both, both.lo, W);
    PadStable(b.lo, both.hi, b.width, W(b.prefix));
    assert PadsLike(low, W) && PadsLike(high, W);
    PrefixCmpZero(low, high);
    if |mid| > 0 {
      PrefixCmpZero(low, mid[0]);
      PrefixCmpZero(mid[|mid| - 1], high);
    }
    ChainConcat([low], mid);
    ChainConcat([low] + mid, [high]);
  }

  /** Splitting the overlap at i keeps the list in order: the upper half starts no later
      than the next range because everything from i on is clear. */
  lemma SplitScanned(rs: seq<Range>, i: nat, both: Range, a: Range, b: Range, W: string -> nat)
    requires Scanned(rs, i, W) && 0 < i < |rs|
    requires IsOverlap(both, a, b) && Same(rs[i - 1], a) && Same(rs[i], b)
    requires PadsLike(a, W) && PadsLike(b, W) && PadsLike(both, W)
    ensures var rs' := rs[..i - 1] + SplitOverlap(both, a, b) + rs[i + 1..];
      Scanned(rs', |rs'|, W)
  {
    var low, high := SplitLow(both, a), SplitHigh(both, a, b);
    var mid := SplitOverlap(both, a, b);
    SplitShape(both, a, b, W);
    var front, back := rs[..i - 1], rs[i + 1..];
    Slices(rs, i, W);
    if |front| > 0 {
      assert LoLe(rs[i - 2], rs[i - 2 + 1]);
    }
    ChainConcat(front, mid);
    if |back| > 0 {
      assert LoLe(rs[i], rs[i + 1]) && Clear(rs[i], rs[i + 1]);
      PrefixCmpZero(rs[i], rs[i + 1]);
    }
    ChainConcat(front + mid, back);
    UniformConcat(front, mid, W);
    UniformConcat(front + mid, back, W);
  }

  lemma Slices(rs: seq<Range>, i: nat, W: string -> nat)
    requires AllValid(rs) && Uniform(rs, W) && Chain(rs) && 0 < i < |rs|
    ensures AllValid(rs[..i - 1]) && Uniform(rs[..i - 1], W) && Chain(rs[..i - 1])
    ensures AllValid(rs[i + 1..]) && Uniform(rs[i + 1..], W) && Chain(rs[i + 1..])
  {
    var front, back := rs[..i - 1], rs[i + 1..];
    assert forall k :: 0 <= k < |front| ==> PadsLike(rs[k], W);
    assert forall k :: 0 <= k < |front| - 1 ==> LoLe(rs[k], rs[k + 1]);
    forall k | 0 <= k < |back|
      ensures PadsLike(back[k], W)
    {
      assert PadsLike(rs[i + 1 + k], W);
    }
    forall k | 0 <= k < |back| - 1
      ensures LoLe(back[k], back[k + 1])
    {
      assert LoLe(rs[i + 1 + k], rs[i + 1 + k + 1]);
    }
  }

  lemma UniformConcat(a: seq<Range>, b: seq<Range>, W: string -> nat)
    requires AllValid(a) && AllValid(b) && Uniform(a, W) && Uniform(b, W)
    ensures AllValid(a + b) && Uniform(a + b, W)
  {
  }

  lemma SplitListNames(rs: seq<Range>, i: nat, both: Range, a: Range, b: Range)
    requires AllValid(rs) && 0 < i < |rs|
    requires IsOverlap(both, a, b) && Same(rs[i - 1], a) && Same(rs[i], b)
    ensures Bag(rs[..i - 1] + SplitOverlap(both, a, b) + rs[i + 1..]) == Bag(rs)
  {
    var rs' := rs[..i - 1] + SplitOverlap(both, a, b) + rs[i + 1..];
    SameNames(rs[i - 1], a);
    SameNames(rs[i], b);
    forall x
      ensures Bag(rs')[x] == Bag(rs)[x]
    {
      NameCountBag(rs', x);
      NameCountBag(rs, x);
      RangeCountBag(rs[i - 1], x);
      RangeCountBag(rs[i], x);
      RangeCountBag(a, x);
      RangeCountBag(b, x);
      SplitListCount(rs, i, both, a, b, x);
    }
  }

  lemma SplitListCount(rs: seq<Range>, i: nat, both: Range, a: Range, b: Range, x: string)
    requires 0 < i < |rs| && IsOverlap(both, a, b)
    requires RangeCount(rs[i - 1], x) == RangeCount(a, x) && RangeCount(rs[i], x) == RangeCount(b, x)
    ensures NameCount(rs[..i - 1] + SplitOverlap(both, a, b) + rs[i + 1..], x) == NameCount(rs, x)
  {
    hide NameCount, RangeCount, SplitOverlap;
    SplitCount(both, a, b, x);
    NameCountTwo(rs[i - 1], rs[i], x);
    NameCountThree(rs[..i - 1], SplitOverlap(both, a, b), rs[i + 1..], x);
    NameCountThree(rs[..i - 1], [rs[i - 1], rs[i]], rs[i + 1..], x);
    assert rs == rs[..i - 1] + [rs[i - 1], rs[i]] + rs[i + 1..];
  }

  /** The measure of the restarting loop falls with every split: either ranges are gained,
      of which there are never more than hosts, or two upper bounds change places. */
  lemma SplitMeasure(rs: seq<Range>, i: nat, both: Range, a: Range, b: Range)
    requires AllValid(rs) && 0 < i < |rs|
    requires IsOverlap(both, a, b) && Same(rs[i - 1], a) && Same(rs[i], b)
    ensures var rs' := rs[..i - 1] + SplitOverlap(both, a, b) + rs[i + 1..];
      |rs'| > |rs| || (|rs'| == |rs| && Totals(rs', 0) < Totals(rs, 0))
  {
    var rs' := rs[..i - 1] + SplitOverlap(both, a, b) + rs[i + 1..];
    DoublesEmpty(both);
    if Doubles(both, both.lo) == [] {
      var low, high := SplitLow(both, a), SplitHigh(both, a, b);
      assert rs' == rs[i - 1 := low][i := high];
      SwapLowersTotals(rs, i, low, high, 0);
    }
  }

  lemma SameBagCount(a: seq<Range>, b: seq<Range>)
    requires Bag(a) == Bag(b)
    ensures |ListNames(a)| == |ListNames(b)|
  {
    assert |ListNames(a)| == |multiset(ListNames(a))| && |ListNames(b)| == |multiset(ListNames(b))|;
  }

  lemma {:induction false} DoublesNoHigher(both: Range, k: nat)
    ensures forall j :: 0 <= j < |Doubles(both, k)| ==> Doubles(both, k)[j].hi <= both.hi
    decreases both.hi + 1 - k
  {
    if k <= both.hi { DoublesNoHigher(both, k + 1); }
  }

  lemma SplitNoHigher(rs: seq<Range>, i: nat, both: Range, a: Range, b: Range)
    requires 0 < i < |rs| && IsOverlap(both, a, b) && Same(rs[i - 1], a) && Same(rs[i], b)
    ensures NoHigher(rs, rs[..i - 1] + SplitOverlap(both, a, b) + rs[i + 1..])
  {
    hide Doubles;
    var mid := SplitOverlap(both, a, b);
    var rs' := rs[..i - 1] + mid + rs[i + 1..];
    DoublesNoHigher(both, both.lo);
    forall k | 0 <= k < |rs'|
      ensures exists j :: 0 <= j < |rs| && rs'[k].hi <= rs[j].hi
    {
      if k < i - 1 {
        assert rs'[k] == rs[k];
      } else if k < i - 1 + |mid| {
        assert rs'[k] == mid[k - (i - 1)];
        assert rs'[k].hi <= rs[i - 1].hi || rs'[k].hi <= rs[i].hi;
      } else {
        assert rs'[k] == rs[i + 1..][k - (i - 1) - |mid|];
        assert rs'[k] == rs[k - |mid| + 2];
      }
    }
    EachNoHigher(rs, rs');
  }

  /** `hostlist_coalesce`: splits every overlap and starts over until no two neighbours
      overlap by more than one host. */
  method Coalesce(hl: HostList, ghost W: string -> nat)
    requires hl.Valid() && Uniform(hl.hr, W) && Chain(hl.hr)
    modifies hl`hr
    ensures hl.Valid() && Bag(hl.hr) == Bag(old(hl.hr))
    ensures Scanned(hl.hr, 0, W) && NoHigher(old(hl.hr), hl.hr)
  {
    hide Intersect, SplitOverlap, ListNames, Totals, Bag, Under;
    ghost var first, names := hl.hr, hl.Names();
    var i := |hl.hr| - 1;
    while i > 0
      invariant -1 <= i < |hl.hr|
      invariant Scanned(hl.hr, if i < 0 then 0 else i, W)
      invariant Bag(hl.hr) == Bag(first) && NoHigher(first, hl.hr)
      decreases |names| - |hl.hr|, Totals(hl.hr, 0), i
    {
      ListNamesCount(hl.hr);
      SameBagCount(hl.hr, first);
      MeetIsOverlap(hl.hr, i, W);
      match Intersect(hl.hr[i - 1], hl.hr[i])
      case Apart(_, _) =>
        i := i - 1;
      case Common(both, a, b) =>
        ghost var was := hl.hr;
        SplitScanned(was, i, both, a, b, W);
        SplitListNames(was, i, both, a, b);
        SplitMeasure(was, i, both, a, b);
        SplitNoHigher(was, i, both, a, b);
        SplitAt(hl, i, both, a, b);
        ListNamesCount(hl.hr);
        SameBagCount(hl.hr, first);
        i := |hl.hr| - 1;
    }
    SameBagCount(hl.hr, first);
  }

  /** `hostlist_insert_range`: moves the ranges from n on up by one. */
  method InsertRange(hl: HostList, r: Range, n: nat)
    requires n <= |hl.hr|
    modifies hl`hr
    ensures hl.hr == old(hl.hr)[..n] + [r] + old(hl.hr)[n..]
  {
    if n == |hl.hr| {
      hl.hr := hl.hr + [r];
    } else {
      var was := hl.hr;
      var tmp := hl.hr[n];
      hl.hr := hl.hr[n := r];
      for i := n + 1 to |hl.hr|
        invariant |hl.hr| == |was| && tmp == was[i - 1] && hl.hr[n] == r
        invariant forall k :: 0 <= k < n || i <= k < |was| ==> hl.hr[k] == was[k]
        invariant forall k :: n < k < i ==> hl.hr[k] == was[k - 1]
      {
        var last := hl.hr[i];
        hl.hr := hl.hr[i := tmp];
        tmp := last;
      }
      hl.hr := hl.hr + [tmp];
    }
  }

  /** The body of the loop at an overlap: both ranges are cut, then the numbers they share
      are inserted between them one host at a time. */
  method SplitAt(hl: HostList, i: nat, both: Range, a: Range, b: Range)
    requires 0 < i < |hl.hr| && IsOverlap(both, a, b)
    modifies hl`hr
    ensures hl.hr == old(hl.hr)[..i - 1] + SplitOverlap(both, a, b) + old(hl.hr)[i + 1..]
  {
    hide DoubleAt;
    ghost var was := hl.hr;
    var hprev, hnext := a, b;
    if both.hi < hprev.hi {
      hnext := hnext.(hi := hprev.hi);
    }
    hprev := hprev.(hi := both.lo);
    hnext := hnext.(lo := both.hi);
    ReplaceTwo(hl.hr, i, hprev, hnext);
    hl.hr := hl.hr[i - 1 := hprev][i := hnext];
    if hprev.Empty() {
      assert false; // never so: the lower half keeps at least its first host
    }
    ghost var pre, post := was[..i - 1] + [hprev], [hnext] + was[i + 1..];
    var j, n := i, both.lo;
    ghost var made: seq<Range> := [];
    while n <= both.hi
      invariant both.lo <= n <= both.hi + 1 && j == |pre| + |made|
      invariant hl.hr == pre + made + post
      invariant made + Doubles(both, n) == Doubles(both, both.lo)
      decreases both.hi + 1 - n
    {
      Associate(made, DoubleAt(both, n), Doubles(both, n + 1));
      j := InsertDouble(hl, both, n, hprev, hnext, j, pre, made, post);
      made := made + DoubleAt(both, n);
      n := n + 1;
    }
    RegroupSplit(was[..i - 1], hprev, made, hnext, was[i + 1..]);
  }

  lemma RegroupSplit<T>(front: seq<T>, low: T, mid: seq<T>, high: T, back: seq<T>)
    ensures (front + [low]) + mid + ([high] + back) == front + ([low] + mid + [high]) + back
  {
  }

  lemma ReplaceTwo<T>(s: seq<T>, i: nat, low: T, high: T)
    requires 0 < i < |s|
    ensures s[i - 1 := low][i := high] == (s[..i - 1] + [low]) + [] + ([high] + s[i + 1..])
  {
  }

  /** One number of the overlap: inserted above the lower half and below the upper half. */
  method InsertDouble(hl: HostList, both: Range, n: nat, hprev: Range, hnext: Range, j: nat,
                      ghost pre: seq<Range>, ghost made: seq<Range>, ghost post: seq<Range>)
    returns (j': nat)
    requires !both.single && hprev.hi == both.lo && hnext.lo == both.hi
    requires hl.hr == pre + made + post && j == |pre| + |made|
    modifies hl`hr
    ensures hl.hr == pre + (made + DoubleAt(both, n)) + post && j' == |pre| + |made + DoubleAt(both, n)|
  {
    var one := Range(both.prefix, n, n, both.width, false);
    ghost var made' := made;
    j' := j;
    if n > hprev.hi {
      InsertAt(pre, made', post, one);
      InsertRange(hl, one, j');
      made' := made' + [one];
      j' := j' + 1;
    }
    if n < hnext.lo {
      InsertAt(pre, made', post, one);
      InsertRange(hl, one, j');
      made' := made' + [one];
      j' := j' + 1;
    }
    assert made' == made + DoubleAt(both, n);
  }

  lemma InsertAt<T>(pre: seq<T>, made: seq<T>, post: seq<T>, one: T)
    ensures var s, j := pre + made + post, |pre| + |made|;
      s[..j] + [one] + s[j..] == pre + (made + [one]) + post
  {
  }

  // ---- Collapsing

  /** Neighbours that print as one range. */
  predicate Mergeable(a: Range, b: Range) {
    WithinRange(a, b) && a.hi + 1 == b.lo
  }

  lemma MergeableIs(a: Range, b: Range)
    ensures Mergeable(a, b) <==> PrefixCmp(a, b) == 0 && !a.single && !b.single && a.hi + 1 == b.lo
  {
  }

  /** A merged range ends where its upper part did. */
  lemma MergedApart(rs: seq<Range>, i: nat, m: Range)
    requires 0 < i < |rs| && m.prefix == rs[i].prefix && m.single == rs[i].single && m.hi == rs[i].hi
    requires forall k :: i <= k < |rs| - 1 ==> !Mergeable(rs[k], rs[k + 1])
    ensures var rs' := rs[..i - 1] + [m] + rs[i + 1..];
      forall k :: i - 1 <= k < |rs'| - 1 ==> !Mergeable(rs'[k], rs'[k + 1])
  {
    hide StrCmp;
    var rs' := rs[..i - 1] + [m] + rs[i + 1..];
    forall k | i - 1 <= k < |rs'| - 1
      ensures !Mergeable(rs'[k], rs'[k + 1])
    {
      assert !Mergeable(rs[k + 1], rs[k + 1 + 1]);
      PrefixCmpZero(rs[k + 1], rs[k + 1 + 1]);
      PrefixCmpZero(rs'[k], rs'[k + 1]);
    }
  }

  lemma MergeStep(rs: seq<Range>, i: nat, t: Range, s: Range, W: string -> nat)
    requires Scanned(rs, 0, W) && 0 < i < |rs| && Mergeable(rs[i - 1], rs[i])
    requires Same(rs[i - 1], t) && Same(rs[i], s) && t.width == s.width && PadsLike(t, W)
    ensures var rs' := rs[..i - 1] + [t.(hi := s.hi)] + rs[i + 1..];
      Scanned(rs', 0, W) && ListNames(rs') == ListNames(rs)
  {
    var m := t.(hi := s.hi);
    var rs' := rs[..i - 1] + [m] + rs[i + 1..];
    PrefixCmpZero(rs[i - 1], rs[i]);
    SameNames(rs[i - 1], t);
    SameNames(rs[i], s);
    JoinedNames(t, s);
    ListNamesOne(m);
    ListNamesTwo(rs[i - 1], rs[i]);
    ListNamesConcat(rs[..i - 1], [m]);
    ListNamesConcat(rs[..i - 1] + [m], rs[i + 1..]);
    ListNamesConcat(rs[..i - 1], [rs[i - 1], rs[i]]);
    ListNamesConcat(rs[..i - 1] + [rs[i - 1], rs[i]], rs[i + 1..]);
    assert rs == rs[..i - 1] + [rs[i - 1], rs[i]] + rs[i + 1..];
    MergeOrder(rs, i, m, W);
  }

  lemma MergeOrder(rs: seq<Range>, i: nat, m: Range, W: string -> nat)
    requires Scanned(rs, 0, W) && 0 < i < |rs| && Mergeable(rs[i - 1], rs[i])
    requires m.Valid() && PadsLike(m, W) && !m.single
    requires m.prefix == rs[i].prefix && m.lo == rs[i - 1].lo && m.hi == rs[i].hi
    ensures Scanned(rs[..i - 1] + [m] + rs[i + 1..], 0, W)
  {
    var rs' := rs[..i - 1] + [m] + rs[i + 1..];
    PrefixCmpZero(rs[i - 1], rs[i]);
    forall k | 0 <= k < |rs'|
      ensures rs'[k].Valid() && PadsLike(rs'[k], W)
    {
      assert k > i - 1 ==> rs'[k] == rs[k + 1] && PadsLike(rs[k + 1], W);
      assert k < i - 1 ==> rs'[k] == rs[k] && PadsLike(rs[k], W);
    }
    forall k | 0 <= k < |rs'| - 1
      ensures LoLe(rs'[k], rs'[k + 1]) && Clear(rs'[k], rs'[k + 1])
    {
      if k < i - 1 {
        assert LoLe(rs[k], rs[k + 1]) && Clear(rs[k], rs[k + 1]);
      } else {
        assert LoLe(rs[k + 1], rs[k + 1 + 1]) && Clear(rs[k + 1], rs[k + 1 + 1]);
        if k == i - 1 { PrefixCmpZero(rs[i], rs[i + 1]); }
      }
    }
  }

  lemma MergeNoHigher(rs: seq<Range>, i: nat, m: Range)
    requires 0 < i < |rs| && m.hi == rs[i].hi
    ensures NoHigher(rs, rs[..i - 1] + [m] + rs[i + 1..])
  {
    var rs' := rs[..i - 1] + [m] + rs[i + 1..];
    forall k | 0 <= k < |rs'|
      ensures exists j :: 0 <= j < |rs| && rs'[k].hi <= rs[j].hi
    {
      assert rs'[k].hi == rs[if k < i - 1 then k else k + 1].hi;
    }
    EachNoHigher(rs, rs');
  }

  /** `hostlist_collapse`: merges neighbours that continue each other, keeping the names
      and their order. */
  method Collapse(hl: HostList, ghost W: string -> nat)
    requires hl.Valid() && Scanned(hl.hr, 0, W)
    modifies hl`hr
    ensures hl.Valid() && hl.Names() == old(hl.Names()) && Scanned(hl.hr, 0, W) && NoHigher(old(hl.hr), hl.hr)
    ensures forall k :: 0 <= k < |hl.hr| - 1 ==> !Mergeable(hl.hr[k], hl.hr[k + 1])
  {
    hide ListNames, StrCmp, Mergeable, Under;
    var i := |hl.hr| - 1;
    while i > 0
      invariant -1 <= i < |hl.hr|
      invariant Scanned(hl.hr, 0, W) && hl.Names() == old(hl.Names()) && NoHigher(old(hl.hr), hl.hr)
      invariant forall k :: 0 <= k && i <= k < |hl.hr| - 1 ==> !Mergeable(hl.hr[k], hl.hr[k + 1])
    {
      var hprev, hnext := hl.hr[i - 1], hl.hr[i];
      PrefixCmpZero(hprev, hnext);
      MergeableIs(hprev, hnext);
      if PrefixCmp(hprev, hnext) == 0 && hprev.hi + 1 == hnext.lo {
        assert PadsLike(hl.hr[i - 1], W) && PadsLike(hl.hr[i], W);
        UniformCombines(hprev, hnext, W);
        var (ok, t, s) := WidthCombine(hprev, hnext);
        if ok {
          MergeStep(hl.hr, i, t, s, W);
          MergedApart(hl.hr, i, t.(hi := s.hi));
          MergeNoHigher(hl.hr, i, t.(hi := s.hi));
          hl.hr := hl.hr[..i - 1] + [t.(hi := s.hi)] + hl.hr[i + 1..];
        }
      }
      i := i - 1;
    }
  }

  lemma ScannedOrdered(rs: seq<Range>, W: string -> nat)
    requires Scanned(rs, 0, W)
    ensures Ordered(rs)
  {
    forall k | 0 <= k < |rs| - 1
      ensures Before(rs[k], rs[k + 1])
    {
      assert LoLe(rs[k], rs[k + 1]) && Clear(rs[k], rs[k + 1]);
      PrefixCmpZero(rs[k], rs[k + 1]);
    }
    forall i, j | 0 <= i < j < |rs|
      ensures Before(rs[i], rs[j])
    {
      ChainOrdered(rs, i, j);
    }
  }

  lemma SortedChain(rs: seq<Range>, W: string -> nat)
    requires AllValid(rs) && Uniform(rs, W) && Sorted(rs)
    ensures Chain(rs)
  {
    forall k | 0 <= k < |rs| - 1
      ensures LoLe(rs[k], rs[k + 1])
    {
      assert PadsLike(rs[k], W) && PadsLike(rs[k + 1], W);
      UniformKey(rs[k], rs[k + 1], W);
    }
  }

  /** `hostlist_sort`: the same names with the same multiplicities, in host order, in
      ranges none of which overlaps or continues its neighbour. */
  method Sort(hl: HostList, ghost W: string -> nat)
    requires hl.Valid() && AllSmall(hl.hr) && Uniform(hl.hr, W)
    modifies hl`hr
    ensures hl.Valid() && Uniform(hl.hr, W) && NoHigher(old(hl.hr), hl.hr)
    ensures multiset(hl.Names()) == multiset(old(hl.Names()))
    ensures HostsInOrder(ListHosts(hl.hr))
    ensures forall k :: 0 <= k < |hl.hr| - 1 ==> !Mergeable(hl.hr[k], hl.hr[k + 1])
  {
    if |hl.hr| <= 1 {
      AllHostsInOrder(hl.hr);
      return;
    }
    ghost var was := hl.hr;
    Qsort(hl);
    PermutedUniform(was, hl.hr, W);
    PermutedNoHigher(was, hl.hr);
    SortedChain(hl.hr, W);
    Coalesce(hl, W);
    Collapse(hl, W);
    ScannedOrdered(hl.hr, W);
    AllHostsInOrder(hl.hr);
  }

  /** Without one width per prefix the sort can break its own order: in the sorted list
      f[1-30], f[5-20], f[05-07] the first overlap is split so that 20-30 comes before
      05-07, and the next comparison contradicts the assertion that guards it. */
  lemma MixedPaddingBreaksOrder()
    ensures var a, b, c := Range("f", 1, 30, 1, false), Range("f", 5, 20, 1, false), Range("f", 5, 7, 2, false);
      && Sorted([a, b, c]) && Intersect(b, c).Apart? && Intersect(a, b).Common?
      && Cmp(SplitHigh(Intersect(a, b).both, a, b), c).0 > 0
  {
    var a, b, c := Range("f", 1, 30, 1, false), Range("f", 5, 20, 1, false), Range("f", 5, 7, 2, false);
    PrefixCmpZero(a, b);
    PrefixCmpZero(a, c);
    PrefixCmpZero(b, c);
    var high := SplitHigh(Intersect(a, b).both, a, b);
    assert high == Range("f", 20, 30, 1, false);
    PrefixCmpZero(high, c);
    ToIntExact(15);
  }

  // ---- Removing duplicates

  /** A join of two ranges in order keeps the set of names and counts the duplicates. */
  lemma JoinSound(a: Range, b: Range)
    requires a.Valid() && b.Valid() && KeyLe(a, b)
    ensures var (d, a', b') := Join(a, b);
      && (d < 0 ==> d == -1 && Same(a, a') && Same(b, b'))
      && (d >= 0 ==> a'.Valid() && a'.prefix == a.prefix && a'.lo == a.lo && a'.single == a.single == b.single
                     && a'.prefix == b.prefix && a'.hi >= b.hi && Pad(a.lo, a'.width) == Pad(a.lo, a.width)
                     && |a'.Names()| + d == |a.Names()| + |b.Names()|)
  {
    PrefixCmpZero(a, b);
    if PrefixCmp(a, b) == 0 {
      if a.lo <= b.lo { DigitCountMonotone(a.lo, b.lo); } else { DigitCountMonotone(b.lo, a.lo); }
    }
  }

  lemma InNames(r: Range, n: nat)
    requires !r.single && r.lo <= n <= r.hi
    ensures r.prefix + Number(n, r.width) in r.Names()
  {
    assert r.Names()[n - r.lo] == r.Name(n - r.lo);
  }

  lemma NumberOf(r: Range, name: string) returns (n: nat)
    requires !r.single && name in r.Names()
    ensures r.lo <= n <= r.hi && name == r.prefix + Number(n, r.width)
  {
    var k :| 0 <= k < |r.Names()| && r.Names()[k] == name;
    n := r.lo + k;
  }

  /** A range that covers two that meet holds the names of both and no others. */
  lemma CoverNames(j: Range, t: Range, s: Range, name: string)
    requires !j.single && !t.single && !s.single
    requires j.prefix == t.prefix == s.prefix && j.width == t.width == s.width
    requires j.lo == t.lo <= s.lo <= t.hi + 1
    requires j.hi == if t.hi < s.hi then s.hi else t.hi
    ensures name in j.Names() <==> name in t.Names() || name in s.Names()
  {
    if name in j.Names() {
      var n := NumberOf(j, name);
      if n <= t.hi { InNames(t, n); } else { InNames(s, n); }
    }
    if name in t.Names() {
      var n := NumberOf(t, name);
      InNames(j, n);
    }
    if name in s.Names() {
      var n := NumberOf(s, name);
      InNames(j, n);
    }
  }

  lemma JoinNames(a: Range, b: Range, name: string)
    requires a.Valid() && b.Valid() && KeyLe(a, b) && Join(a, b).0 >= 0
    ensures name in Join(a, b).1.Names() <==> name in a.Names() || name in b.Names()
  {
    PrefixCmpZero(a, b);
    JoinSound(a, b);
    JoinOrder(a, b);
    if !a.single {
      var (_, t, s) := WidthCombine(a, b);
      SameNames(a, t);
      SameNames(b, s);
      CoverNames(Join(a, b).1, t, s, name);
    } else {
      assert a == b;
    }
  }

  lemma JoinOrder(a: Range, b: Range)
    requires a.Valid() && b.Valid() && KeyLe(a, b) && Join(a, b).0 >= 0
    ensures a.lo <= b.lo
  {
    PrefixCmpZero(a, b);
    if a.lo <= b.lo { DigitCountMonotone(a.lo, b.lo); } else { DigitCountMonotone(b.lo, a.lo); }
  }

  /** Under one width per prefix, ranges in order that do not join leave a gap. */
  lemma NoJoinGap(a: Range, b: Range, W: string -> nat)
    requires a.Valid() && b.Valid() && KeyLe(a, b) && PadsLike(a, W) && PadsLike(b, W)
    requires Join(a, b).0 < 0
    ensures Gap(a, b)
  {
    PrefixCmpZero(a, b);
    UniformKey(a, b, W);
    if PrefixCmp(a, b) == 0 {
      UniformCombines(a, b, W);
    }
  }

  lemma JoinListNames(rs: seq<Range>, i: nat, name: string)
    requires AllValid(rs) && 0 < i < |rs| && KeyLe(rs[i - 1], rs[i]) && Join(rs[i - 1], rs[i]).0 >= 0
    ensures var rs' := rs[..i - 1] + [Join(rs[i - 1], rs[i]).1] + rs[i + 1..];
      && (name in ListNames(rs') <==> name in ListNames(rs))
      && |ListNames(rs')| + Join(rs[i - 1], rs[i]).0 == |ListNames(rs)|
  {
    var a := Join(rs[i - 1], rs[i]).1;
    JoinSound(rs[i - 1], rs[i]);
    JoinNames(rs[i - 1], rs[i], name);
    ListNamesOne(a);
    ListNamesTwo(rs[i - 1], rs[i]);
    ListNamesConcat(rs[..i - 1], [a]);
    ListNamesConcat(rs[..i - 1] + [a], rs[i + 1..]);
    ListNamesConcat(rs[..i - 1], [rs[i - 1], rs[i]]);
    ListNamesConcat(rs[..i - 1] + [rs[i - 1], rs[i]], rs[i + 1..]);
    assert rs == rs[..i - 1] + [rs[i - 1], rs[i]] + rs[i + 1..];
  }

  ghost predicate SameSet(a: seq<string>, b: seq<string>) {
    forall name :: name in a <==> name in b
  }

  lemma BagsSameSet(a: seq<string>, b: seq<string>)
    requires multiset(a) == multiset(b)
    ensures SameSet(a, b)
  {
    forall name
      ensures name in a <==> name in b
    {
      assert name in a <==> name in multiset(a);
      assert name in b <==> name in multiset(b);
    }
  }

  lemma JoinSameSet(rs: seq<Range>, i: nat)
    requires AllValid(rs) && 0 < i < |rs| && KeyLe(rs[i - 1], rs[i]) && Join(rs[i - 1], rs[i]).0 >= 0
    ensures var rs' := rs[..i - 1] + [Join(rs[i - 1], rs[i]).1] + rs[i + 1..];
      && SameSet(ListNames(rs'), ListNames(rs))
      && |ListNames(rs')| + Join(rs[i - 1], rs[i]).0 == |ListNames(rs)|
  {
    var rs' := rs[..i - 1] + [Join(rs[i - 1], rs[i]).1] + rs[i + 1..];
    JoinListNames(rs, i, "");
    forall name
      ensures name in ListNames(rs') <==> name in ListNames(rs)
    {
      JoinListNames(rs, i, name);
    }
  }

  /** What the loop of `hostlist_uniq` keeps. */
  ghost predicate Uniqued(rs: seq<Range>, i: nat, W: string -> nat, uniform: bool) {
    && AllValid(rs) && Sorted(rs)
    && (uniform ==> Uniform(rs, W) && forall k :: 0 <= k < i - 1 && k < |rs| - 1 ==> Gap(rs[k], rs[k + 1]))
  }

  lemma JoinStep(rs: seq<Range>, i: nat, W: string -> nat, uniform: bool)
    requires Uniqued(rs, i, W, uniform) && 0 < i < |rs| && Join(rs[i - 1], rs[i]).0 >= 0
    ensures Uniqued(rs[..i - 1] + [Join(rs[i - 1], rs[i]).1] + rs[i + 1..], i, W, uniform)
  {
    hide Join, Pad;
    var a := Join(rs[i - 1], rs[i]).1;
    var rs' := rs[..i - 1] + [a] + rs[i + 1..];
    JoinSound(rs[i - 1], rs[i]);
    assert forall k :: 0 <= k < |rs'| && k != i - 1 ==> rs'[k] == rs[if k < i - 1 then k else k + 1];
    forall p, q | 0 <= p < q < |rs'|
      ensures KeyLe(rs'[p], rs'[q])
    {
      assert KeyLe(rs[if p <= i - 1 then p else p + 1], rs[if q <= i - 1 then q else q + 1]);
    }
    if uniform {
      assert PadsLike(rs[i - 1], W);
      forall k | 0 <= k < |rs'|
        ensures PadsLike(rs'[k], W)
      {
        assert k != i - 1 ==> PadsLike(rs[if k < i - 1 then k else k + 1], W);
      }
      forall k | 0 <= k < i - 1 && k < |rs'| - 1
        ensures Gap(rs'[k], rs'[k + 1])
      {
        assert Gap(rs[k], rs[k + 1]);
      }
    }
  }

  lemma SameGap(a: Range, a': Range, b: Range, b': Range)
    requires Same(a, a') && Same(b, b') && Gap(a, b)
    ensures Gap(a', b')
  {
  }

  lemma KeepStep(rs: seq<Range>, i: nat, W: string -> nat, uniform: bool)
    requires Uniqued(rs, i, W, uniform) && 0 < i < |rs| && Join(rs[i - 1], rs[i]).0 < 0
    ensures var (_, a, b) := Join(rs[i - 1], rs[i]);
      var rs' := rs[i - 1 := a][i := b];
      Uniqued(rs', i + 1, W, uniform) && SameList(rs, rs')
  {
    hide Join, KeyLe, Gap;
    var (_, a, b) := Join(rs[i - 1], rs[i]);
    var rs' := rs[i - 1 := a][i := b];
    JoinSound(rs[i - 1], rs[i]);
    assert SameList(rs, rs');
    SameListNames(rs, rs');
    forall p, q | 0 <= p < q < |rs'|
      ensures KeyLe(rs'[p], rs'[q])
    {
      SameKey(rs[p], rs'[p], rs[q], rs'[q]);
    }
    if uniform {
      assert forall k :: 0 <= k < |rs'| ==> PadsLike(rs[k], W);
      NoJoinGap(rs[i - 1], rs[i], W);
      forall k | 0 <= k < i && k < |rs'| - 1
        ensures Gap(rs'[k], rs'[k + 1])
      {
        assert Gap(rs[k], rs[k + 1]);
        SameGap(rs[k], rs'[k], rs[k + 1], rs'[k + 1]);
      }
    }
  }

  /** `hostlist_uniq`: the same set of names on every list, with the host count kept exact;
      under one width per prefix no host is left twice and ranges are kept apart. */
  method Uniq(hl: HostList, ghost W: string -> nat)
    requires hl.Valid() && AllSmall(hl.hr)
    modifies hl
    ensures hl.Valid() && SameSet(hl.Names(), old(hl.Names()))
    ensures Uniform(old(hl.hr), W) ==> Separated(hl.hr) && NoHostTwice(ListHosts(hl.hr))
  {
    hide AllValid, Join, KeyLe, ListNames, Gap, Uniqued, SameSet, Uniform, AllSmall, Same, NoHostTwice, ListHosts;
    if |hl.hr| <= 1 {
      NoneTwice(hl.hr);
      SameSetSelf(hl.Names());
      return;
    }
    ghost var was, names := hl.hr, hl.Names();
    ghost var uniform := Uniform(was, W);
    Qsort(hl);
    StartUniqued(was, hl.hr, W, uniform);
    BagsSameSet(hl.Names(), names);
    var i := 1;
    while i < |hl.hr|
      invariant 1 <= i && hl.Valid() && Uniqued(hl.hr, i, W, uniform)
      invariant SameSet(hl.Names(), names)
      decreases |hl.hr| - i
    {
      UniquedAt(hl.hr, i, W, uniform);
      var (ndup, a, b) := Join(hl.hr[i - 1], hl.hr[i]);
      ghost var before := hl.hr;
      if ndup >= 0 {
        JoinStep(hl.hr, i, W, uniform);
        JoinSameSet(before, i);
        hl.hr := hl.hr[..i - 1] + [a] + hl.hr[i + 1..];
        hl.nhosts := hl.nhosts - ndup;
        UniquedValid(hl.hr, i, W, uniform);
        SameSetTransitive(hl.Names(), ListNames(before), names);
      } else {
        KeepStep(hl.hr, i, W, uniform);
        hl.hr := hl.hr[i - 1 := a][i := b];
        SameListNames(before, hl.hr);
        i := i + 1;
      }
    }
    if uniform {
      UniquedSeparated(hl.hr, i, W);
      NoneTwice(hl.hr);
    }
  }

  lemma StartUniqued(was: seq<Range>, rs: seq<Range>, W: string -> nat, uniform: bool)
    requires AllValid(was) && AllValid(rs) && Permuted(was, rs) && Sorted(rs) && (uniform ==> Uniform(was, W))
    ensures Uniqued(rs, 1, W, uniform) && |ListNames(rs)| == |ListNames(was)|
  {
    if uniform { PermutedUniform(was, rs, W); }
    PermutedNames(was, rs);
  }

  lemma UniquedAt(rs: seq<Range>, i: nat, W: string -> nat, uniform: bool)
    requires Uniqued(rs, i, W, uniform) && 0 < i < |rs|
    ensures rs[i - 1].Valid() && rs[i].Valid() && KeyLe(rs[i - 1], rs[i])
  {
  }

  lemma UniquedValid(rs: seq<Range>, i: nat, W: string -> nat, uniform: bool)
    requires Uniqued(rs, i, W, uniform)
    ensures AllValid(rs)
  {
  }

  lemma UniquedSeparated(rs: seq<Range>, i: nat, W: string -> nat)
    requires Uniqued(rs, i, W, true) && i >= |rs|
    ensures Separated(rs)
  {
    forall p, q | 0 <= p < q < |rs|
      ensures Gap(rs[p], rs[q])
    {
      GapsSeparate(rs, p, q);
    }
  }

  lemma SameSetSelf(a: seq<string>)
    ensures SameSet(a, a)
  {
  }

  lemma SameSetTransitive(a: seq<string>, b: seq<string>, c: seq<string>)
    requires SameSet(a, b) && SameSet(b, c)
    ensures SameSet(a, c)
  {
  }
}
