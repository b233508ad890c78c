/** Orders on ranges, permutations up to padding, and what they say about the hosts. */
module HostOrder {
  import opened Digits
  import opened HostRange
  import opened HostLists

  // ---- Padding

  /** One width per prefix that prints every range as it is printed now. */
  ghost predicate Uniform(rs: seq<Range>, W: string -> nat) {
    forall i :: 0 <= i < |rs| ==> PadsLike(rs[i], W)
  }

  ghost predicate PadsLike(r: Range, W: string -> nat) {
    !r.single ==> Pad(r.lo, r.width) == Pad(r.lo, W(r.prefix))
  }

  /** Ranges under one prefix are pairwise width-compatible. */
  predicate PairwiseCompatible(rs: seq<Range>) {
    forall i, j :: 0 <= i < |rs| && 0 <= j < |rs| && WithinRange(rs[i], rs[j]) ==>
      WidthEquiv(rs[i].lo, rs[i].width, rs[j].lo, rs[j].width).ok
  }

  /** The width of the first range under the prefix that is really padded, else 0. */
  function WidthFor(rs: seq<Range>, prefix: string): nat {
    if |rs| == 0 then 0
    else if !rs[0].single && rs[0].prefix == prefix && Pad(rs[0].lo, rs[0].width) > 0 then rs[0].width
    else WidthFor(rs[1..], prefix)
  }

  lemma {:induction false} WidthForFits(rs: seq<Range>, r: Range)
    requires !r.single
    requires forall j :: 0 <= j < |rs| && WithinRange(r, rs[j]) ==> WidthEquiv(r.lo, r.width, rs[j].lo, rs[j].width).ok
    requires r in rs || Pad(r.lo, r.width) == 0
    ensures Pad(r.lo, r.width) == Pad(r.lo, WidthFor(rs, r.prefix))
  {
    if |rs| > 0 {
      PrefixCmpZero(r, rs[0]);
      if !rs[0].single && rs[0].prefix == r.prefix && Pad(rs[0].lo, rs[0].width) > 0 {
        assert WithinRange(r, rs[0]);
      } else {
        assert r in rs && r != rs[0] ==> r in rs[1..];
        WidthForFits(rs[1..], r);
      }
    }
  }

  /** Pairwise compatibility is exactly the existence of one width per prefix. */
  lemma UniformIffCompatible(rs: seq<Range>)
    ensures (exists W: string -> nat :: Uniform(rs, W)) <==> PairwiseCompatible(rs)
  {
    if PairwiseCompatible(rs) {
      var W := (p: string) => WidthFor(rs, p);
      forall i | 0 <= i < |rs|
        ensures PadsLike(rs[i], W)
      {
        if !rs[i].single {
          WidthForFits(rs, rs[i]);
        }
      }
      assert Uniform(rs, W);
    }
    if W: string -> nat :| Uniform(rs, W) {
      forall i, j | 0 <= i < |rs| && 0 <= j < |rs| && WithinRange(rs[i], rs[j])
        ensures WidthEquiv(rs[i].lo, rs[i].width, rs[j].lo, rs[j].width).ok
      {
        PrefixCmpZero(rs[i], rs[j]);
        assert PadsLike(rs[i], W) && PadsLike(rs[j], W);
      }
    }
  }

  lemma UniformCombines(a: Range, b: Range, W: string -> nat)
    requires a.Valid() && b.Valid() && PadsLike(a, W) && PadsLike(b, W) && PrefixCmp(a, b) == 0
    ensures a.single == b.single && WidthCombine(a, b).0
    ensures PadsLike(WidthCombine(a, b).1, W) && PadsLike(WidthCombine(a, b).2, W)
  {
    PrefixCmpZero(a, b);
  }

  // ---- Permutations up to padding

  /** The range with a width that makes no difference set to 0. */
  function Canon(r: Range): Range {
    if !r.single && Pad(r.lo, r.width) == 0 then r.(width := 0) else r
  }

  lemma CanonIffSame(a: Range, b: Range)
    requires a.Valid() && b.Valid()
    ensures Same(a, b) <==> Canon(a) == Canon(b)
  {
  }

  function CanonList(rs: seq<Range>): (cs: seq<Range>)
    ensures |cs| == |rs| && forall i :: 0 <= i < |rs| ==> cs[i] == Canon(rs[i])
  {
    seq(|rs|, i requires 0 <= i < |rs| => Canon(rs[i]))
  }

  /** The same ranges in another order, up to widths that make no difference. */
  predicate Permuted(a: seq<Range>, b: seq<Range>) {
    multiset(CanonList(a)) == multiset(CanonList(b))
  }

  lemma SameListPermuted(a: seq<Range>, b: seq<Range>)
    requires AllValid(a) && AllValid(b) && SameList(a, b)
    ensures Permuted(a, b)
  {
    forall i | 0 <= i < |a|
      ensures CanonList(a)[i] == CanonList(b)[i]
    {
      CanonIffSame(a[i], b[i]);
    }
    assert CanonList(a) == CanonList(b);
  }

  /** Every range of b is a range of a, up to padding. */
  lemma PermutedFrom(a: seq<Range>, b: seq<Range>, i: nat) returns (j: nat)
    requires Permuted(a, b) && i < |b|
    ensures j < |a| && Canon(a[j]) == Canon(b[i])
  {
    assert CanonList(b)[i] in multiset(CanonList(b));
    assert CanonList(b)[i] in multiset(CanonList(a));
    j :| 0 <= j < |a| && CanonList(a)[j] == CanonList(b)[i];
  }

  lemma PermutedUniform(a: seq<Range>, b: seq<Range>, W: string -> nat)
    requires Permuted(a, b) && Uniform(a, W)
    ensures Uniform(b, W)
  {
    forall i | 0 <= i < |b|
      ensures PadsLike(b[i], W)
    {
      var j := PermutedFrom(a, b, i);
      assert PadsLike(a[j], W);
    }
  }

  lemma PermutedSmall(a: seq<Range>, b: seq<Range>)
    requires Permuted(a, b) && forall i :: 0 <= i < |a| ==> SmallNumbers(a[i])
    ensures forall i :: 0 <= i < |b| ==> SmallNumbers(b[i])
  {
    forall i | 0 <= i < |b|
      ensures SmallNumbers(b[i])
    {
      var j := PermutedFrom(a, b, i);
      assert SmallNumbers(a[j]);
    }
  }

  lemma CanonNames(r: Range)
    requires r.Valid()
    ensures Canon(r).Valid() && Canon(r).Names() == r.Names()
  {
    CanonIffSame(r, Canon(r));
    SameNames(r, Canon(r));
  }

  lemma TakeOne<T>(s: seq<T>, j: nat)
    requires j < |s|
    ensures multiset(s) == multiset(s[..j] + s[j + 1..]) + multiset{s[j]}
  {
    assert s == s[..j] + ([s[j]] + s[j + 1..]);
  }

  lemma TakeOneNames(rs: seq<Range>, j: nat)
    requires j < |rs|
    ensures multiset(ListNames(rs)) == multiset(ListNames(rs[..j] + rs[j + 1..])) + multiset(rs[j].Names())
  {
    NamesAt(rs, j);
    ListNamesConcat(rs[..j], rs[j + 1..]);
  }

  lemma MatchFirst<T>(a: seq<T>, b: seq<T>) returns (j: nat)
    requires |a| > 0 && multiset(a) == multiset(b)
    ensures j < |b| && b[j] == a[0] && multiset(a[1..]) == multiset(b[..j] + b[j + 1..])
  {
    assert a[0] in multiset(b);
    j :| 0 <= j < |b| && b[j] == a[0];
    assert a == [a[0]] + a[1..];
    assert multiset(a[1..]) == multiset(a) - multiset{a[0]};
    TakeOne(b, j);
    assert multiset(b[..j] + b[j + 1..]) == multiset(b) - multiset{b[j]};
  }

  lemma FirstNames(a: seq<Range>)
    requires |a| > 0
    ensures multiset(ListNames(a)) == multiset(ListNames(a[1..])) + multiset(a[0].Names())
  {
    assert ListNames(a) == a[0].Names() + ListNames(a[1..]);
  }

  /** The names of equal multisets of ranges are equal multisets. */
  lemma {:induction false} MultisetNames(a: seq<Range>, b: seq<Range>)
    requires multiset(a) == multiset(b)
    ensures multiset(ListNames(a)) == multiset(ListNames(b))
  {
    if |a| == 0 {
      assert |b| == |multiset(b)| == |multiset(a)| == 0;
    } else {
      var j := MatchFirst(a, b);
      MultisetNames(a[1..], b[..j] + b[j + 1..]);
      TakeOneNames(b, j);
      FirstNames(a);
      assert a[0].Names() == b[j].Names();
    }
  }

  lemma {:induction false} CanonListNames(rs: seq<Range>)
    requires AllValid(rs)
    ensures ListNames(CanonList(rs)) == ListNames(rs)
  {
    if |rs| > 0 {
      assert CanonList(rs)[1..] == CanonList(rs[1..]);
      CanonNames(rs[0]);
      CanonListNames(rs[1..]);
    }
  }

  lemma PermutedNames(a: seq<Range>, b: seq<Range>)
    requires AllValid(a) && AllValid(b) && Permuted(a, b)
    ensures multiset(ListNames(a)) == multiset(ListNames(b)) && |ListNames(a)| == |ListNames(b)|
  {
    MultisetNames(CanonList(a), CanonList(b));
    CanonListNames(a);
    CanonListNames(b);
    assert |ListNames(a)| == |multiset(ListNames(a))|;
    assert |ListNames(b)| == |multiset(ListNames(b))|;
  }

  // ---- Orders

  predicate Sorted(rs: seq<Range>) {
    forall i, j :: 0 <= i < j < |rs| ==> KeyLe(rs[i], rs[j])
  }

  /** Order by prefix, single hosts first, then by first number. */
  predicate LoLe(a: Range, b: Range) {
    PrefixCmp(a, b) < 0 || (PrefixCmp(a, b) == 0 && a.lo <= b.lo)
  }

  lemma UniformKey(a: Range, b: Range, W: string -> nat)
    requires PadsLike(a, W) && PadsLike(b, W)
    requires a.Valid() && b.Valid()
    ensures KeyLe(a, b) <==> LoLe(a, b)
  {
    PrefixCmpZero(a, b);
    if a.lo <= b.lo { DigitCountMonotone(a.lo, b.lo); } else { DigitCountMonotone(b.lo, a.lo); }
  }

  lemma PrefixCmpTransitive(a: Range, b: Range, c: Range)
    requires PrefixCmp(a, b) <= 0 && PrefixCmp(b, c) <= 0
    ensures PrefixCmp(a, c) <= 0
    ensures PrefixCmp(a, c) == 0 ==> PrefixCmp(a, b) == 0 && PrefixCmp(b, c) == 0
  {
    StrCmpZero(a.prefix, b.prefix);
    StrCmpZero(b.prefix, c.prefix);
    StrCmpZero(a.prefix, c.prefix);
    StrCmpTransitive(a.prefix, b.prefix, c.prefix);
  }

  /** Neighbours in order. */
  predicate Chain(rs: seq<Range>) {
    forall k :: 0 <= k < |rs| - 1 ==> LoLe(rs[k], rs[k + 1])
  }

  lemma ChainConcat(a: seq<Range>, b: seq<Range>)
    requires Chain(a) && Chain(b)
    requires |a| > 0 && |b| > 0 ==> LoLe(a[|a| - 1], b[0])
    ensures Chain(a + b)
  {
    var c := a + b;
    forall k | 0 <= k < |c| - 1
      ensures LoLe(c[k], c[k + 1])
    {
      if k >= |a| { assert LoLe(b[k - |a|], b[k - |a| + 1]); }
    }
  }

  /** Two ranges of one prefix, in order and without an overlap longer than one host. */
  predicate Clear(a: Range, b: Range) {
    WithinRange(a, b) ==> a.hi <= b.lo
  }

  /** All hosts of a come before all hosts of b, up to repetition. */
  predicate Before(a: Range, b: Range) {
    PrefixCmp(a, b) < 0 || (PrefixCmp(a, b) == 0 && a.hi <= b.lo)
  }

  predicate Ordered(rs: seq<Range>) {
    forall i, j :: 0 <= i < j < |rs| ==> Before(rs[i], rs[j])
  }

  lemma {:induction false} ChainOrdered(rs: seq<Range>, i: nat, j: nat)
    requires AllValid(rs) && i < j < |rs|
    requires forall k :: 0 <= k < |rs| - 1 ==> Before(rs[k], rs[k + 1])
    ensures Before(rs[i], rs[j])
    decreases j - i
  {
    if j > i + 1 {
      ChainOrdered(rs, i, j - 1);
      assert Before(rs[j - 1], rs[j - 1 + 1]);
      PrefixCmpTransitive(rs[i], rs[j - 1], rs[j]);
    }
  }

  // ---- Hosts

  /** A host apart from its padding. */
  datatype Host = Host(prefix: string, single: bool, num: nat)

  function HostLe(a: Host, b: Host): bool {
    var c := StrCmp(a.prefix, b.prefix);
    c < 0 || (c == 0 && ((a.single && !b.single) || (a.single == b.single && a.num <= b.num)))
  }

  function RangeHosts(r: Range): (hs: seq<Host>)
    ensures |hs| == r.Count()
    ensures forall k :: 0 <= k < |hs| ==> hs[k] == Host(r.prefix, r.single, r.lo + k)
  {
    seq(r.Count(), k requires 0 <= k => Host(r.prefix, r.single, r.lo + k))
  }

  function ListHosts(rs: seq<Range>): (hs: seq<Host>)
  {
    if |rs| == 0 then [] else RangeHosts(rs[0]) + ListHosts(rs[1..])
  }

  /** Each host of the list belongs to a range. */
  lemma {:induction false} HostInRange(rs: seq<Range>, k: nat) returns (i: nat, d: nat)
    requires k < |ListHosts(rs)|
    ensures i < |rs| && d < rs[i].Count() && ListHosts(rs)[k] == Host(rs[i].prefix, rs[i].single, rs[i].lo + d)
  {
    if k < rs[0].Count() {
      assert ListHosts(rs)[k] == RangeHosts(rs[0])[k];
      i, d := 0, k;
    } else {
      i, d := HostInRange(rs[1..], k - rs[0].Count());
      i := i + 1;
    }
  }

  /** Ordered ranges hold their hosts in order. */
  lemma {:induction false} OrderedHosts(rs: seq<Range>, j: nat, k: nat)
    requires AllValid(rs) && Ordered(rs) && j < k < |ListHosts(rs)|
    ensures HostLe(ListHosts(rs)[j], ListHosts(rs)[k])
  {
    var n := rs[0].Count();
    StrCmpZero(rs[0].prefix, rs[0].prefix);
    if k < n {
      assert ListHosts(rs)[j] == RangeHosts(rs[0])[j] && ListHosts(rs)[k] == RangeHosts(rs[0])[k];
    } else if j < n {
      assert ListHosts(rs)[j] == RangeHosts(rs[0])[j];
      var i, d := HostInRange(rs[1..], k - n);
      assert Before(rs[0], rs[1..][i]);
      PrefixCmpZero(rs[0], rs[1..][i]);
    } else {
      OrderedHosts(rs[1..], j - n, k - n);
    }
  }

  /** Ranges of one prefix leave a gap, and a single host occurs once. */
  predicate Gap(a: Range, b: Range) {
    PrefixCmp(a, b) < 0 || (PrefixCmp(a, b) == 0 && a.hi + 1 < b.lo)
  }

  predicate Separated(rs: seq<Range>) {
    forall i, j :: 0 <= i < j < |rs| ==> Gap(rs[i], rs[j])
  }

  lemma {:induction false} GapsSeparate(rs: seq<Range>, i: nat, j: nat)
    requires AllValid(rs) && i < j < |rs|
    requires forall k :: 0 <= k < |rs| - 1 ==> Gap(rs[k], rs[k + 1])
    ensures Gap(rs[i], rs[j])
    decreases j - i
  {
    if j > i + 1 {
      GapsSeparate(rs, i, j - 1);
      assert Gap(rs[j - 1], rs[j - 1 + 1]);
      PrefixCmpTransitive(rs[i], rs[j - 1], rs[j]);
    }
  }

  /** Separated ranges hold no host twice. */
  lemma {:induction false} SeparatedHosts(rs: seq<Range>, j: nat, k: nat)
    requires AllValid(rs) && Separated(rs) && j < k < |ListHosts(rs)|
    ensures ListHosts(rs)[j] != ListHosts(rs)[k]
  {
    var n := rs[0].Count();
    if k < n {
      assert ListHosts(rs)[j] == RangeHosts(rs[0])[j] && ListHosts(rs)[k] == RangeHosts(rs[0])[k];
    } else if j < n {
      assert ListHosts(rs)[j] == RangeHosts(rs[0])[j];
      var i, d := HostInRange(rs[1..], k - n);
      assert Gap(rs[0], rs[1..][i]);
      PrefixCmpZero(rs[0], rs[1..][i]);
    } else {
      SeparatedHosts(rs[1..], j - n, k - n);
    }
  }

  ghost predicate HostsInOrder(hs: seq<Host>) {
    forall j, k :: 0 <= j < k < |hs| ==> HostLe(hs[j], hs[k])
  }

  ghost predicate NoHostTwice(hs: seq<Host>) {
    forall j, k :: 0 <= j < k < |hs| ==> hs[j] != hs[k]
  }

  lemma AllHostsInOrder(rs: seq<Range>)
    requires AllValid(rs) && Ordered(rs)
    ensures HostsInOrder(ListHosts(rs))
  {
    forall j, k | 0 <= j < k < |ListHosts(rs)|
      ensures HostLe(ListHosts(rs)[j], ListHosts(rs)[k])
    {
      OrderedHosts(rs, j, k);
    }
  }

  lemma NoneTwice(rs: seq<Range>)
    requires AllValid(rs) && Separated(rs)
    ensures NoHostTwice(ListHosts(rs))
  {
    forall j, k | 0 <= j < k < |ListHosts(rs)|
      ensures ListHosts(rs)[j] != ListHosts(rs)[k]
    {
      SeparatedHosts(rs, j, k);
    }
  }

  function PrintHost(h: Host, W: string -> nat): string {
    if h.single then h.prefix else h.prefix + Number(h.num, W(h.prefix))
  }

  /** The order of the hosts is an order of the printed names: position by position the
      list prints its hosts. */
  lemma {:induction false} NamesOfHosts(rs: seq<Range>, W: string -> nat, k: nat)
    requires AllValid(rs) && Uniform(rs, W) && k < |ListNames(rs)|
    ensures |ListNames(rs)| == |ListHosts(rs)|
    ensures ListNames(rs)[k] == PrintHost(ListHosts(rs)[k], W)
    decreases |rs|
  {
    var r, n := rs[0], rs[0].Count();
    assert PadsLike(rs[0], W);
    assert forall i :: 0 <= i < |rs[1..]| ==> PadsLike(rs[1..][i], W);
    NamesHostsCount(rs);
    if k < n {
      if !r.single { PadStable(r.lo, r.lo + k, r.width, W(r.prefix)); }
      assert ListNames(rs)[k] == r.Names()[k] == r.Name(k);
      assert ListHosts(rs)[k] == RangeHosts(r)[k];
    } else {
      NamesOfHosts(rs[1..], W, k - n);
    }
  }

  lemma {:induction false} NamesHostsCount(rs: seq<Range>)
    ensures |ListNames(rs)| == |ListHosts(rs)|
  {
    if |rs| > 0 {
      NamesHostsCount(rs[1..]);
    }
  }
}
