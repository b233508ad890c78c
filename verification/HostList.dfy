/** Host lists: an array of ranges that stands for a sequence of printed names. */
module HostLists {
  import opened Digits
  import opened HostRange

  // ---- The sequence of names a sequence of ranges stands for

  predicate AllValid(rs: seq<Range>) {
    forall i :: 0 <= i < |rs| ==> rs[i].Valid()
  }

  function ListNames(rs: seq<Range>): seq<string> {
    if |rs| == 0 then [] else rs[0].Names() + ListNames(rs[1..])
  }

  lemma {:induction false} ListNamesConcat(a: seq<Range>, b: seq<Range>)
    ensures ListNames(a + b) == ListNames(a) + ListNames(b)
  {
    if |a| == 0 {
      assert a + b == b;
    } else {
      assert (a + b)[1..] == a[1..] + b;
      ListNamesConcat(a[1..], b);
    }
  }

  lemma ListNamesOne(r: Range)
    ensures ListNames([r]) == r.Names()
  {
    assert [r][1..] == [];
  }

  /** Every valid range holds a host. */
  lemma {:induction false} ListNamesCount(rs: seq<Range>)
    requires AllValid(rs)
    ensures |ListNames(rs)| >= |rs|
  {
    if |rs| > 0 {
      ListNamesCount(rs[1..]);
    }
  }

  /** Ranges that differ at most in widths that make no difference. */
  predicate SameList(a: seq<Range>, b: seq<Range>) {
    |a| == |b| && forall i :: 0 <= i < |a| ==> Same(a[i], b[i])
  }

  lemma {:induction false} SameListNames(a: seq<Range>, b: seq<Range>)
    requires AllValid(a) && SameList(a, b)
    ensures AllValid(b) && ListNames(a) == ListNames(b)
  {
    if |a| > 0 {
      SameNames(a[0], b[0]);
      SameListNames(a[1..], b[1..]);
    }
  }

  /** Names before, at and after range i. */
  lemma NamesAt(rs: seq<Range>, i: nat)
    requires i < |rs|
    ensures ListNames(rs) == ListNames(rs[..i]) + (rs[i].Names() + ListNames(rs[i + 1..]))
    ensures ListNames(rs[i..]) == rs[i].Names() + ListNames(rs[i + 1..])
  {
    assert rs == rs[..i] + rs[i..];
    ListNamesConcat(rs[..i], rs[i..]);
    assert rs[i..][1..] == rs[i + 1..];
  }

  lemma NamesUpTo(rs: seq<Range>, i: nat)
    requires i < |rs|
    ensures ListNames(rs[..i + 1]) == ListNames(rs[..i]) + rs[i].Names()
  {
    assert rs[..i + 1] == rs[..i] + [rs[i]];
    ListNamesConcat(rs[..i], [rs[i]]);
    ListNamesOne(rs[i]);
  }

  /** Putting other ranges in the place of range i. */
  lemma ReplaceNames(rs: seq<Range>, i: nat, mid: seq<Range>)
    requires i < |rs|
    ensures ListNames(rs[..i] + mid + rs[i + 1..]) == ListNames(rs[..i]) + (ListNames(mid) + ListNames(rs[i + 1..]))
  {
    ListNamesConcat(rs[..i], mid);
    ListNamesConcat(rs[..i] + mid, rs[i + 1..]);
  }

  // ---- Searching

  /** Least position of a name, or -1. */
  function IndexOf(ns: seq<string>, name: string): (k: int)
    ensures -1 <= k < |ns|
    ensures k >= 0 ==> ns[k] == name
    ensures forall j :: 0 <= j < |ns| && (k < 0 || j < k) ==> ns[j] != name
  {
    if |ns| == 0 then -1
    else if ns[0] == name then 0
    else
      var k := IndexOf(ns[1..], name);
      assert forall j :: 1 <= j < |ns| ==> ns[j] == ns[1..][j - 1];
      if k < 0 then -1 else k + 1
  }

  lemma IndexOfConcat(a: seq<string>, b: seq<string>, name: string)
    ensures IndexOf(a + b, name) ==
      if IndexOf(a, name) >= 0 then IndexOf(a, name)
      else if IndexOf(b, name) >= 0 then |a| + IndexOf(b, name) else -1
  {
    var k := IndexOf(a + b, name);
    var ka, kb := IndexOf(a, name), IndexOf(b, name);
    if ka >= 0 {
      assert (a + b)[ka] == name;
      assert k < |a| ==> a[k] == name;
    } else if kb >= 0 {
      assert (a + b)[|a| + kb] == name;
      assert k >= |a| ==> b[k - |a|] == name;
    }
  }

  /** Position at which the range-by-range search stops, or -1. */
  function Found(rs: seq<Range>, name: string): int
    requires AllValid(rs)
  {
    if |rs| == 0 then -1
    else
      var k := HnWithin(rs[0], HostNameOf(name)).0;
      if k >= 0 then k
      else
        var rest := Found(rs[1..], name);
        if rest < 0 then -1 else rs[0].Count() + rest
  }

  /** Names whose digits, if any, are a small enough suffix. */
  predicate Searchable(name: string) {
    PrefixEnd(name) == |name| || Value(name[PrefixEnd(name)..]) <= MAX_HOST_SUFFIX
  }

  lemma NameHasSuffix(r: Range, k: nat)
    requires !r.single
    ensures PrefixEnd(r.Name(k)) <= |r.prefix| < |r.Name(k)|
  {
    SplitBeforePrefix(r.prefix, Number(r.lo + k, r.width));
  }

  lemma WithinIsIndexOf(r: Range, name: string)
    requires r.Valid() && (Searchable(name) || r.single)
    ensures HnWithin(r, HostNameOf(name)).0 == IndexOf(r.Names(), name)
  {
    hide HnWithin, PrefixEnd, Number;
    var hn := HostNameOf(name);
    HnWithinSound(r, hn);
    var j := IndexOf(r.Names(), name);
    if j >= 0 {
      assert r.Name(j) == name;
      if !r.single {
        NameHasSuffix(r, j);
      }
      HnWithinComplete(r, hn, j);
    }
  }

  /** The search is exact on every searchable name: the least position that prints as the
      name, and -1 precisely when no position does. */
  lemma {:induction false} FoundExact(rs: seq<Range>, name: string)
    requires AllValid(rs) && Searchable(name)
    ensures Found(rs, name) == IndexOf(ListNames(rs), name)
  {
    if |rs| > 0 {
      WithinIsIndexOf(rs[0], name);
      FoundExact(rs[1..], name);
      IndexOfConcat(rs[0].Names(), ListNames(rs[1..]), name);
    }
  }

  /** A hit is a true hit for every name. */
  lemma {:induction false} FoundSound(rs: seq<Range>, name: string)
    requires AllValid(rs)
    ensures -1 <= Found(rs, name) < |ListNames(rs)|
    ensures Found(rs, name) >= 0 ==> ListNames(rs)[Found(rs, name)] == name
  {
    hide HnWithin, HostNameOf, Same;
    if |rs| > 0 {
      var k := HnWithin(rs[0], HostNameOf(name)).0;
      HnWithinSound(rs[0], HostNameOf(name));
      FoundSound(rs[1..], name);
      assert k >= 0 ==> rs[0].Names()[k] == name;
    }
  }

  // ---- Names that a range of numbers prints

  predicate SpelledBy(r: Range, name: string) {
    !r.single && name in r.Names()
  }

  /** Some range of numbers prints the name. */
  predicate Spells(rs: seq<Range>, name: string) {
    exists i :: 0 <= i < |rs| && SpelledBy(rs[i], name)
  }

  lemma SpellsConcat(a: seq<Range>, b: seq<Range>, name: string)
    ensures Spells(a + b, name) <==> Spells(a, name) || Spells(b, name)
  {
    hide SpelledBy;
    var s := a + b;
    assert forall i :: 0 <= i < |a| ==> s[i] == a[i];
    assert forall i :: 0 <= i < |b| ==> s[|a| + i] == b[i];
    if Spells(s, name) {
      var i :| 0 <= i < |s| && SpelledBy(s[i], name);
      assert if i < |a| then SpelledBy(a[i], name) else SpelledBy(b[i - |a|], name);
    }
    if Spells(a, name) {
      var i :| 0 <= i < |a| && SpelledBy(a[i], name);
      assert SpelledBy(s[i], name);
    }
    if Spells(b, name) {
      var i :| 0 <= i < |b| && SpelledBy(b[i], name);
      assert SpelledBy(s[|a| + i], name);
    }
  }

  lemma SpellsMiddle(a: seq<Range>, b: seq<Range>, c: seq<Range>, name: string)
    ensures Spells(a + b + c, name) <==> Spells(a, name) || Spells(b, name) || Spells(c, name)
  {
    hide Spells;
    SpellsConcat(a + b, c, name);
    SpellsConcat(a, b, name);
  }

  lemma SpellsOne(r: Range, name: string)
    ensures Spells([r], name) <==> SpelledBy(r, name)
  {
    assert [r][0] == r;
  }

  lemma {:induction false} SpellsListed(rs: seq<Range>, name: string)
    ensures Spells(rs, name) ==> name in ListNames(rs)
    ensures (forall i :: 0 <= i < |rs| ==> !rs[i].single) ==> (Spells(rs, name) <==> name in ListNames(rs))
  {
    hide Spells;
    if |rs| == 0 {
      assert !Spells([], name) by { NothingSpelled(name); }
    } else {
      assert rs == [rs[0]] + rs[1..];
      SpellsConcat([rs[0]], rs[1..], name);
      SpellsOne(rs[0], name);
      SpellsListed(rs[1..], name);
    }
  }

  lemma NothingSpelled(name: string)
    ensures !Spells([], name)
  {
  }

  /** A name that is not searchable is only found among single hosts. */
  lemma WithinBare(r: Range, name: string)
    requires r.Valid() && !r.single && !Searchable(name)
    ensures HnWithin(r, HostNameOf(name)).0 == -1
  {
  }

  lemma WithinUnspelled(r: Range, name: string)
    requires r.Valid() && !SpelledBy(r, name)
    ensures HnWithin(r, HostNameOf(name)).0 == IndexOf(r.Names(), name)
  {
    if r.single {
      WithinIsIndexOf(r, name);
    } else {
      HnWithinSound(r, HostNameOf(name));
      assert forall j :: 0 <= j < r.Count() ==> r.Names()[j] == r.Name(j) && r.Names()[j] in r.Names();
    }
  }

  /** The search is exact on every list in which no range of numbers prints the name. */
  lemma {:induction false} FoundUnspelled(rs: seq<Range>, name: string)
    requires AllValid(rs) && !Spells(rs, name)
    ensures Found(rs, name) == IndexOf(ListNames(rs), name)
  {
    hide HnWithin, HostNameOf, SpelledBy;
    if |rs| > 0 {
      assert rs == [rs[0]] + rs[1..];
      SpellsConcat([rs[0]], rs[1..], name);
      SpellsOne(rs[0], name);
      WithinUnspelled(rs[0], name);
      FoundUnspelled(rs[1..], name);
      IndexOfConcat(rs[0].Names(), ListNames(rs[1..]), name);
    }
  }

  /** The search can be trusted with a name. */
  predicate Findable(rs: seq<Range>, name: string) {
    Searchable(name) || !Spells(rs, name)
  }

  lemma FoundFindable(rs: seq<Range>, name: string)
    requires AllValid(rs) && Findable(rs, name)
    ensures Found(rs, name) == IndexOf(ListNames(rs), name)
  {
    hide Searchable, Spells;
    if Searchable(name) { FoundExact(rs, name); } else { FoundUnspelled(rs, name); }
  }

  lemma FindableSame(a: seq<Range>, b: seq<Range>, name: string)
    requires AllValid(a) && SameList(a, b)
    ensures Findable(a, name) <==> Findable(b, name)
  {
    SpellsSame(a, b, name);
  }

  /** It stops at a single host when the name is not searchable. */
  lemma {:induction false} FoundInSingle(rs: seq<Range>, name: string, i: nat)
    requires AllValid(rs) && !Searchable(name) && i < |rs|
    requires |ListNames(rs[..i])| <= Found(rs, name) < |ListNames(rs[..i])| + rs[i].Count()
    ensures rs[i].single
  {
    hide HnWithin, HostNameOf, Searchable;
    var k := HnWithin(rs[0], HostNameOf(name)).0;
    HnWithinSound(rs[0], HostNameOf(name));
    FoundSound(rs[1..], name);
    if i == 0 {
      if !rs[0].single { WithinBare(rs[0], name); }
    } else {
      assert rs[..i] == [rs[0]] + rs[1..][..i - 1];
      ListNamesConcat([rs[0]], rs[1..][..i - 1]);
      ListNamesOne(rs[0]);
      FoundInSingle(rs[1..], name, i - 1);
    }
  }

  /** Without such a host it finds nothing, whatever the ranges of numbers print. */
  lemma {:induction false} FoundNoSingle(rs: seq<Range>, name: string)
    requires AllValid(rs) && !Searchable(name) && forall i :: 0 <= i < |rs| && rs[i].single ==> rs[i].prefix != name
    ensures Found(rs, name) == -1
  {
    hide HnWithin, HostNameOf, Searchable;
    if |rs| > 0 {
      if rs[0].single {
        HnWithinSound(rs[0], HostNameOf(name));
      } else {
        WithinBare(rs[0], name);
      }
      FoundNoSingle(rs[1..], name);
    }
  }

  lemma SpelledSame(a: Range, b: Range)
    requires a.Valid() && Same(a, b)
    ensures forall n :: SpelledBy(a, n) <==> SpelledBy(b, n)
  {
    SameNames(a, b);
  }

  lemma {:induction false} SpellsSame(a: seq<Range>, b: seq<Range>, name: string)
    requires AllValid(a) && SameList(a, b)
    ensures Spells(a, name) <==> Spells(b, name)
  {
    hide Spells;
    if |a| == 0 {
      assert a == b;
    } else {
      assert a == [a[0]] + a[1..] && b == [b[0]] + b[1..];
      SameNames(a[0], b[0]);
      SpellsOne(a[0], name);
      SpellsOne(b[0], name);
      SpellsConcat([a[0]], a[1..], name);
      SpellsConcat([b[0]], b[1..], name);
      SpellsSame(a[1..], b[1..], name);
    }
  }

  /** The search does not look at widths that make no difference. */
  lemma FoundStep(rs: seq<Range>, i: nat, name: string, count: nat)
    requires AllValid(rs) && i < |rs|
    ensures var k := HnWithin(rs[i], HostNameOf(name)).0;
      k >= 0 ==> FoundFrom(rs, i, name, count) == count + k
    ensures var k := HnWithin(rs[i], HostNameOf(name)).0;
      k < 0 ==> FoundFrom(rs, i, name, count) == FoundFrom(rs, i + 1, name, count + rs[i].Count())
  {
    assert rs[i..][0] == rs[i] && rs[i..][1..] == rs[i + 1..];
  }

  /** The search continued at range i with `count` hosts passed. */
  function FoundFrom(rs: seq<Range>, i: nat, name: string, count: nat): int
    requires AllValid(rs) && i <= |rs|
  {
    var rest := Found(rs[i..], name);
    if rest < 0 then -1 else count + rest
  }

  lemma FoundEnds(rs: seq<Range>, name: string)
    requires AllValid(rs)
    ensures FoundFrom(rs, 0, name, 0) == Found(rs, name) && forall count: nat :: FoundFrom(rs, |rs|, name, count) == -1
  {
    assert rs[0..] == rs;
    FoundSound(rs, name);
  }

  ghost predicate ExactFor(name: string) {
    forall rs: seq<Range> {:trigger Found(rs, name)} :: AllValid(rs) ==> Found(rs, name) == IndexOf(ListNames(rs), name)
  }

  /** The range of the one name whose last digit is its number; the digits before it belong
      to the prefix. */
  function LastDigit(name: string): (r: Range)
    requires |name| > 0 && IsDigit(name[|name| - 1])
    ensures r.Valid() && !r.single
  {
    var d := DigitValue(name[|name| - 1]);
    Range(name[..|name| - 1], d, d, 1, false)
  }

  lemma LastDigitPrints(name: string)
    requires |name| > 0 && IsDigit(name[|name| - 1])
    ensures LastDigit(name).Names() == [name]
  {
    var front, last := name[..|name| - 1], name[|name| - 1..];
    assert last[..0] == "";
    NumberValue(last);
    assert LastDigit(name).Name(0) == front + last == name;
  }

  lemma UnsearchableDigits(name: string)
    requires !Searchable(name)
    ensures |name| > 0 && IsDigit(name[|name| - 1])
  {
    assert name[|name| - 1] == name[PrefixEnd(name)..][|name| - 1 - PrefixEnd(name)];
  }

  /** The suffix bound is the exact condition: on every other name some list holds the name
      and the search misses it. */
  lemma FindExactDomain(name: string)
    ensures ExactFor(name) <==> Searchable(name)
  {
    hide HnWithin, Value, LastDigit;
    if Searchable(name) {
      forall rs: seq<Range> | AllValid(rs)
        ensures Found(rs, name) == IndexOf(ListNames(rs), name)
      {
        FoundExact(rs, name);
      }
    } else {
      UnsearchableDigits(name);
      var r := LastDigit(name);
      LastDigitPrints(name);
      ListNamesOne(r);
      assert ListNames([r])[0] == name;
      FoundOne(r, name);
    }
  }

  lemma FoundOne(r: Range, name: string)
    requires r.Valid() && !r.single && HostNameOf(name).Bare?
    ensures Found([r], name) == -1
  {
    assert Found([r][1..], name) == -1;
  }

  // ---- The list object

  class HostList {
    var hr: seq<Range>
    var nhosts: int

    ghost predicate Valid()
      reads this
    {
      AllValid(hr) && nhosts == |ListNames(hr)|
    }

    ghost function Names(): seq<string>
      reads this
      requires AllValid(hr)
    {
      ListNames(hr)
    }

    /** `hostlist_new` */
    constructor ()
      ensures Valid() && hr == [] && Names() == []
    {
      hr, nhosts := [], 0;
    }

    /** `hostlist_copy` */
    constructor Copy(other: HostList)
      requires other.Valid()
      ensures Valid() && Names() == other.Names()
    {
      hr, nhosts := other.hr, other.nhosts;
    }

    /** `hostlist_push_range`: extends the last range when the new one continues it, and
        appends a copy otherwise. Also returns the caller's range, whose width may change. */
    method PushRange(r: Range) returns (total: int, r': Range)
      requires Valid() && r.Valid()
      modifies this
      ensures Valid() && Names() == old(Names()) + r.Names()
      ensures total == nhosts && Same(r, r')
      ensures forall n :: Spells(hr, n) <==> Spells(old(hr), n) || SpelledBy(r, n)
    {
      hide Spells, SpelledBy;
      var last := |hr| - 1;
      if |hr| > 0 && PrefixCmp(hr[last], r) == 0 && hr[last].hi + 1 == r.lo {
        PrefixCmpZero(hr[last], r);
        var (ok, t, s) := WidthCombine(hr[last], r);
        r' := s;
        if ok {
          ExtendLastNames(hr, t, s, r);
          ExtendLastSpells(hr, t, s, r);
          hr := hr[last := t.(hi := s.hi)];
        } else {
          AppendNames(hr, r);
          AppendSpells(hr, r);
          hr := hr + [r];
        }
      } else {
        AppendNames(hr, r);
        AppendSpells(hr, r);
        hr := hr + [r];
        r' := r;
      }
      nhosts := nhosts + r.Count();
      total := nhosts;
    }

    /** `hostlist_push_host` */
    method PushHost(name: string)
      requires Valid()
      modifies this
      ensures Valid() && Names() == old(Names()) + [name]
      ensures forall n :: !Searchable(n) ==> (Spells(hr, n) <==> Spells(old(hr), n))
    {
      hide Spells;
      var cut := HostPrefixEnd(name);
      var hn := HostNameAt(name, cut);
      var r := if hn.Suffixed? then Range(hn.prefix, hn.num, hn.num, |hn.suffix|, false)
               else Range(name, 0, 0, 0, true);
      HostNamePrints(hn, r);
      var _, _ := PushRange(r);
    }

    /** `hostlist_push_list` */
    method PushList(other: HostList)
      requires Valid() && other.Valid() && this != other
      modifies this, other`hr
      ensures Valid() && Names() == old(Names()) + old(other.Names())
      ensures other.Valid() && other.Names() == old(other.Names())
      ensures forall n :: Spells(hr, n) <==> Spells(old(hr), n) || Spells(old(other.hr), n)
    {
      hide Spells, SpelledBy;
      forall n
        ensures !Spells([], n)
      {
        NothingSpelled(n);
      }
      ghost var was, mine := other.hr, Names();
      for i := 0 to |other.hr|
        invariant |other.hr| == |was| && AllValid(other.hr)
        invariant forall j :: 0 <= j < |was| ==> Same(was[j], other.hr[j])
        invariant Valid() && Names() == mine + ListNames(was[..i])
        invariant forall n :: Spells(hr, n) <==> Spells(old(hr), n) || Spells(was[..i], n)
      {
        SameNames(was[i], other.hr[i]);
        NamesUpTo(was, i);
        assert was[..i + 1] == was[..i] + [was[i]];
        AppendSpells(was[..i], was[i]);
        SpelledSame(was[i], other.hr[i]);
        var _, r := PushRange(other.hr[i]);
        SameNames(other.hr[i], r);
        Associate(mine, ListNames(was[..i]), was[i].Names());
        other.hr := other.hr[i := r];
      }
      assert was[..|was|] == was;
      SameListNames(was, other.hr);
    }

    /** `hostlist_find`: the widths may be rewritten on the way, the names are not. */
    method Find(name: string) returns (ret: int)
      requires Valid()
      modifies this`hr
      ensures Valid() && Names() == old(Names()) && SameList(old(hr), hr)
      ensures ret == Found(old(hr), name)
      ensures Searchable(name) ==> ret == IndexOf(Names(), name)
    {
      hide IndexOf, Searchable, ListNames, HnWithin, Found, FoundFrom;
      ghost var was := hr;
      FoundEnds(was, name);
      var cut := HostPrefixEnd(name);
      var hn := HostNameAt(name, cut);
      assert hn == HostNameOf(name);
      assert was[0..] == was;
      ret := -1;
      var count := 0;
      for i := 0 to |hr|
        invariant |hr| == |was| && SameList(was, hr) && count >= 0
        invariant forall j :: i <= j < |was| ==> hr[j] == was[j]
        invariant Found(was, name) == FoundFrom(was, i, name, count)
      {
        HnWithinSound(was[i], hn);
        FoundStep(was, i, name, count);
        var (offset, r) := HnWithin(hr[i], hn);
        hr := hr[i := r];
        if offset >= 0 {
          ret := count + offset;
          break;
        }
        count := count + hr[i].Count();
      }
      FindResult(was, hr, name);
    }

    /** `hostlist_nth` */
    method Nth(n: nat) returns (host: string, ok: bool)
      requires Valid()
      ensures ok <==> n < nhosts
      ensures ok ==> host == Names()[n]
    {
      var count := 0;
      for i := 0 to |hr|
        invariant 0 <= count == |ListNames(hr[..i])| <= n
      {
        var num := hr[i].Count();
        NamesUpTo(hr, i);
        if n <= num - 1 + count {
          NameAt(hr, i, n - count);
          return hr[i].Name(n - count), true;
        }
        count := count + num;
      }
      assert hr[..|hr|] == hr;
      return "", false;
    }

    /** `hostlist_delete_nth`. Asked for position nhosts, which its assertion lets through,
        it deletes nothing and still counts one host less. */
    method DeleteNth(n: nat) returns (ghost at: nat)
      requires Valid() && n <= nhosts
      modifies this
      ensures nhosts == old(nhosts) - 1
      ensures n < old(nhosts) ==> Holds(old(hr), at, n) && hr == Without(old(hr), at, n)
      ensures n < old(nhosts) ==> Valid() && Names() == old(Names())[..n] + old(Names())[n + 1..]
      ensures n == old(nhosts) ==> hr == old(hr)
    {
      var count := 0;
      for i := 0 to |hr|
        invariant hr == old(hr) && 0 <= count == |ListNames(hr[..i])| <= n && nhosts == old(nhosts)
      {
        var num := hr[i].Count();
        NamesUpTo(hr, i);
        if n <= num - 1 + count {
          DeleteInRange(hr, i, n);
          hr := hr[..i] + DeleteFromRange(hr[i], n - count) + hr[i + 1..];
          nhosts := nhosts - 1;
          return i;
        }
        count := count + num;
      }
      assert hr[..|hr|] == hr;
      nhosts := nhosts - 1;
      return 0;
    }

    /** `hostlist_delete_host` */
    method DeleteHost(name: string) returns (deleted: nat)
      requires Valid()
      modifies this
      ensures Valid()
      ensures deleted == if Found(old(hr), name) >= 0 then 1 else 0
      ensures Searchable(name) ==> Found(old(hr), name) == IndexOf(old(Names()), name)
      ensures deleted == 0 ==> Names() == old(Names())
      ensures var k := Found(old(hr), name);
        deleted == 1 ==>
          && 0 <= k < |old(Names())| && old(Names())[k] == name
          && Names() == old(Names())[..k] + old(Names())[k + 1..]
      ensures forall n :: Spells(hr, n) ==> Spells(old(hr), n)
      ensures forall n :: Spells(old(hr), n) && (n != name || !Searchable(n)) ==> Spells(hr, n)
    {
      hide Found, Searchable, Spells, Without, AllValid, ListNames;
      FoundSound(hr, name);
      ghost var was := hr;
      var n := Find(name);
      FoundSame(was, hr, name);
      forall m
        ensures Spells(was, m) <==> Spells(hr, m)
      {
        SpellsSame(was, hr, m);
      }
      if n >= 0 {
        ghost var found := hr;
        ghost var at := DeleteNth(n);
        if !Searchable(name) { FoundInSingle(found, name, at); }
        forall m
          ensures Spells(hr, m) ==> Spells(found, m)
          ensures Spells(found, m) && (m != name || !Searchable(m)) ==> Spells(hr, m)
        {
          SpellsWithout(found, at, n, m);
        }
      }
      deleted := if n >= 0 then 1 else 0;
    }

    /** `hostlist_pop` */
    method Pop() returns (host: string, ok: bool)
      requires Valid()
      modifies this
      ensures Valid() && (ok <==> |old(Names())| > 0)
      ensures ok ==> old(Names()) == Names() + [host]
      ensures !ok ==> Names() == old(Names())
    {
      host, ok := "", false;
      if nhosts > 0 {
        var last := |hr| - 1;
        ghost var was := hr;
        var r := hr[last];
        var r' := if r.single then r.(lo := r.lo + 1)
                  else r.(hi := if r.hi == 0 then ULONG_MAX else r.hi - 1);
        host, ok := if r.single then r.prefix else r.prefix + Number(r.hi, r.width), true;
        NamesUpTo(hr, last);
        assert hr[..last + 1] == hr;
        PoppedNames(r, r', host);
        nhosts := nhosts - 1;
        if r'.Empty() {
          hr := hr[..last];
        } else {
          hr := hr[last := r'];
          NamesUpTo(hr, last);
          assert hr[..last + 1] == hr && hr[..last] == was[..last];
        }
      }
    }

    /** `hostlist_shift` */
    method Shift() returns (host: string, ok: bool)
      requires Valid()
      modifies this
      ensures Valid() && (ok <==> |old(Names())| > 0)
      ensures ok ==> old(Names()) == [host] + Names()
      ensures !ok ==> Names() == old(Names())
    {
      host, ok := "", false;
      if nhosts > 0 {
        var r := hr[0];
        var r' := r.(lo := r.lo + 1);
        host, ok := if r.single then r.prefix else r.prefix + Number(r.lo, r.width), true;
        ShiftedList(hr, r', host);
        nhosts := nhosts - 1;
        hr := if r'.Empty() then hr[1..] else hr[0 := r'];
      }
    }
  }

  // ---- What the list operations do to the names

  /** A range continued by the next numbers at the same width prints as the two in turn. */
  lemma JoinedNames(a: Range, b: Range)
    requires !a.single && !b.single && a.lo <= a.hi && b.lo <= b.hi
    requires a.prefix == b.prefix && a.width == b.width && a.hi + 1 == b.lo
    ensures a.(hi := b.hi).Names() == a.Names() + b.Names()
  {
    var c := a.(hi := b.hi);
    forall k | 0 <= k < c.Count()
      ensures c.Names()[k] == (a.Names() + b.Names())[k]
    {
      if k < a.Count() {
        assert c.Name(k) == a.Name(k);
      } else {
        assert c.Name(k) == b.Name(k - a.Count());
      }
    }
  }

  lemma ExtendLastNames(rs: seq<Range>, t: Range, s: Range, r: Range)
    requires AllValid(rs) && r.Valid() && |rs| > 0 && Same(rs[|rs| - 1], t) && Same(r, s)
    requires t.prefix == s.prefix && t.single == s.single && t.width == s.width && t.hi + 1 == s.lo
    ensures var rs' := rs[|rs| - 1 := t.(hi := s.hi)];
      AllValid(rs') && ListNames(rs') == ListNames(rs) + r.Names()
  {
    var last := |rs| - 1;
    SameNames(rs[last], t);
    SameNames(r, s);
    JoinedNames(t, s);
    ReplaceLast(rs, t.(hi := s.hi));
    ReplaceLast(rs, rs[last]);
    assert rs[last := rs[last]] == rs;
    Associate(ListNames(rs[..last]), rs[last].Names(), r.Names());
  }

  lemma AppendSpells(rs: seq<Range>, r: Range)
    ensures forall n :: Spells(rs + [r], n) <==> Spells(rs, n) || SpelledBy(r, n)
  {
    hide Spells, SpelledBy;
    forall n
      ensures Spells(rs + [r], n) <==> Spells(rs, n) || SpelledBy(r, n)
    {
      SpellsConcat(rs, [r], n);
      SpellsOne(r, n);
    }
  }

  lemma ExtendLastSpells(rs: seq<Range>, t: Range, s: Range, r: Range)
    requires AllValid(rs) && r.Valid() && |rs| > 0 && Same(rs[|rs| - 1], t) && Same(r, s)
    requires t.prefix == s.prefix && t.single == s.single && t.width == s.width && t.hi + 1 == s.lo
    ensures forall n :: Spells(rs[|rs| - 1 := t.(hi := s.hi)], n) <==> Spells(rs, n) || SpelledBy(r, n)
  {
    hide Spells;
    var last, u := |rs| - 1, t.(hi := s.hi);
    SameNames(rs[last], t);
    SameNames(r, s);
    JoinedNames(t, s);
    assert rs == rs[..last] + [rs[last]] && rs[last := u] == rs[..last] + [u];
    AppendSpells(rs[..last], rs[last]);
    AppendSpells(rs[..last], u);
  }

  lemma ReplaceLast(rs: seq<Range>, r: Range)
    requires |rs| > 0
    ensures ListNames(rs[|rs| - 1 := r]) == ListNames(rs[..|rs| - 1]) + r.Names()
  {
    assert rs[|rs| - 1 := r] == rs[..|rs| - 1] + [r];
    AppendNames(rs[..|rs| - 1], r);
  }

  lemma AppendNames(rs: seq<Range>, r: Range)
    ensures ListNames(rs + [r]) == ListNames(rs) + r.Names()
  {
    ListNamesConcat(rs, [r]);
    ListNamesOne(r);
  }

  /** The range that `hostlist_push_host` pushes prints as the name, however it was split. */
  lemma HostNamePrints(hn: HostName, r: Range)
    requires hn.Valid()
    requires hn.Suffixed? ==> r == Range(hn.prefix, hn.num, hn.num, |hn.suffix|, false)
    requires hn.Bare? ==> r == Range(hn.hostname, 0, 0, 0, true)
    ensures r.Valid() && r.Names() == [hn.hostname]
  {
    if hn.Suffixed? {
      NumberValue(hn.suffix);
    }
    assert r.Name(0) == hn.hostname;
  }

  lemma PoppedNames(r: Range, r': Range, host: string)
    requires r.Valid()
    requires r' == if r.single then r.(lo := r.lo + 1) else r.(hi := if r.hi == 0 then ULONG_MAX else r.hi - 1)
    requires host == if r.single then r.prefix else r.prefix + Number(r.hi, r.width)
    ensures r'.Empty() ==> r.Names() == [host]
    ensures !r'.Empty() ==> r'.Valid() && r.Names() == r'.Names() + [host]
  {
    hide Number;
    assert host == r.Name(r.Count() - 1);
    if !r'.Empty() {
      assert forall k :: 0 <= k < r'.Count() ==> r'.Name(k) == r.Name(k);
    }
  }

  lemma ShiftedNames(r: Range, r': Range, host: string)
    requires r.Valid() && r' == r.(lo := r.lo + 1)
    requires host == if r.single then r.prefix else r.prefix + Number(r.lo, r.width)
    ensures r'.Empty() ==> r.Names() == [host]
    ensures !r'.Empty() ==> r'.Valid() && r.Names() == [host] + r'.Names()
  {
    hide Number;
    assert host == r.Name(0);
    if !r'.Empty() {
      assert forall k :: 0 <= k < r'.Count() ==> r'.Name(k) == r.Name(k + 1);
    }
  }

  lemma ShiftedList(rs: seq<Range>, r': Range, host: string)
    requires AllValid(rs) && |rs| > 0 && r' == rs[0].(lo := rs[0].lo + 1)
    requires host == if rs[0].single then rs[0].prefix else rs[0].prefix + Number(rs[0].lo, rs[0].width)
    ensures var rs' := if r'.Empty() then rs[1..] else rs[0 := r'];
      AllValid(rs') && ListNames(rs) == [host] + ListNames(rs')
  {
    ShiftedNames(rs[0], r', host);
    if !r'.Empty() {
      assert rs[0 := r'][1..] == rs[1..];
      Associate([host], r'.Names(), ListNames(rs[1..]));
    }
  }

  /** What the deletion of one host leaves of its range: none, one or two ranges. */
  function DeleteFromRange(r: Range, k: nat): seq<Range>
    requires r.Valid() && k < r.Count()
  {
    if r.single then []
    else match DeleteNumber(r, r.lo + k)
      case Kept(kept) => if kept.Empty() then [] else [kept]
      case Split(below, above) => [below, above]
  }

  lemma KeptNames(r: Range, k: nat, kept: Range)
    requires r.Valid() && !r.single && k < r.Count() && DeleteNumber(r, r.lo + k) == Kept(kept)
    ensures kept.Names() == r.Names()[..k] + r.Names()[k + 1..]
  {
    if k == 0 {
      forall i | 0 <= i < kept.Count()
        ensures kept.Names()[i] == r.Names()[1..][i]
      {
        assert kept.Name(i) == r.Name(i + 1);
      }
      assert kept.Names() == r.Names()[1..];
    } else {
      forall i | 0 <= i < kept.Count()
        ensures kept.Names()[i] == r.Names()[..k][i]
      {
        assert kept.Name(i) == r.Name(i);
      }
      assert kept.Names() == r.Names()[..k];
    }
  }

  lemma SplitNames(r: Range, k: nat, below: Range, above: Range)
    requires r.Valid() && !r.single && k < r.Count() && DeleteNumber(r, r.lo + k) == Split(below, above)
    ensures below.Names() == r.Names()[..k] && above.Names() == r.Names()[k + 1..]
  {
    forall i | 0 <= i < below.Count()
      ensures below.Names()[i] == r.Names()[i]
    {
      assert below.Name(i) == r.Name(i);
    }
    forall i | 0 <= i < above.Count()
      ensures above.Names()[i] == r.Names()[k + 1 + i]
    {
      assert above.Name(i) == r.Name(k + 1 + i);
    }
  }

  lemma DeleteFromRangeNames(r: Range, k: nat)
    requires r.Valid() && k < r.Count()
    ensures AllValid(DeleteFromRange(r, k))
    ensures ListNames(DeleteFromRange(r, k)) == r.Names()[..k] + r.Names()[k + 1..]
  {
    if !r.single {
      match DeleteNumber(r, r.lo + k)
      case Kept(kept) =>
        KeptNames(r, k, kept);
        ListNamesOne(kept);
      case Split(below, above) =>
        SplitNames(r, k, below, above);
        ListNamesTwo(below, above);
    }
  }

  lemma ListNamesTwo(a: Range, b: Range)
    ensures ListNames([a, b]) == a.Names() + b.Names()
  {
    assert [a, b][1..] == [b];
    ListNamesOne(b);
  }

  /** Deleting one host from the range that holds it deletes one name from the list. */
  lemma DeleteInRange(rs: seq<Range>, i: nat, n: nat)
    requires AllValid(rs) && i < |rs|
    requires |ListNames(rs[..i])| <= n < |ListNames(rs[..i])| + rs[i].Count()
    ensures var rs' := rs[..i] + DeleteFromRange(rs[i], n - |ListNames(rs[..i])|) + rs[i + 1..];
      && n < |ListNames(rs)| && AllValid(rs')
      && ListNames(rs') == ListNames(rs)[..n] + ListNames(rs)[n + 1..]
  {
    var before, after := ListNames(rs[..i]), ListNames(rs[i + 1..]);
    var mid := DeleteFromRange(rs[i], n - |before|);
    NamesAt(rs, i);
    DeleteFromRangeNames(rs[i], n - |before|);
    ReplaceNames(rs, i, mid);
    CutNames(before, rs[i].Names(), after, n);
  }

  /** Position n belongs to range i. */
  ghost predicate Holds(rs: seq<Range>, i: nat, n: nat) {
    AllValid(rs) && i < |rs| && |ListNames(rs[..i])| <= n < |ListNames(rs[..i])| + rs[i].Count()
  }

  /** The ranges without the host at position n, which belongs to range i. */
  ghost function Without(rs: seq<Range>, i: nat, n: nat): seq<Range>
    requires Holds(rs, i, n)
  {
    rs[..i] + DeleteFromRange(rs[i], n - |ListNames(rs[..i])|) + rs[i + 1..]
  }

  /** The range that a position belongs to. */
  lemma {:induction false} HolderOf(rs: seq<Range>, n: nat) returns (i: nat)
    requires AllValid(rs) && n < |ListNames(rs)|
    ensures Holds(rs, i, n)
  {
    if n < rs[0].Count() {
      i := 0;
    } else {
      var j := HolderOf(rs[1..], n - rs[0].Count());
      i := j + 1;
      assert rs[..i] == [rs[0]] + rs[1..][..j];
      ListNamesConcat([rs[0]], rs[1..][..j]);
      ListNamesOne(rs[0]);
    }
  }

  lemma DeletedSpelling(r: Range, k: nat, name: string)
    requires r.Valid() && k < r.Count()
    ensures Spells(DeleteFromRange(r, k), name) <==> !r.single && name in r.Names()[..k] + r.Names()[k + 1..]
  {
    DeleteFromRangeNames(r, k);
    SpellsListed(DeleteFromRange(r, k), name);
  }

  /** Deleting a host leaves what ranges of numbers print, but for that host's name if it
      was in such a range. */
  lemma SpellsWithout(rs: seq<Range>, i: nat, n: nat, name: string)
    requires Holds(rs, i, n)
    ensures Spells(Without(rs, i, n), name) ==> Spells(rs, name)
    ensures Spells(rs, name) && (n >= |ListNames(rs)| || name != ListNames(rs)[n] || rs[i].single) ==> Spells(Without(rs, i, n), name)
  {
    hide Spells, ListNames, DeleteFromRange, Number;
    var k, r := n - |ListNames(rs[..i])|, rs[i];
    NameAt(rs, i, k);
    DeletedSpelling(r, k, name);
    var mid := DeleteFromRange(r, k);
    SpellsMiddle(rs[..i], mid, rs[i + 1..], name);
    assert rs == rs[..i] + [r] + rs[i + 1..];
    SpellsMiddle(rs[..i], [r], rs[i + 1..], name);
    SpellsOne(r, name);
    CutMembers(r.Names(), k, name);
  }

  lemma CutMembers(ns: seq<string>, k: nat, name: string)
    requires k < |ns|
    ensures name in ns[..k] + ns[k + 1..] ==> name in ns
    ensures name in ns && name != ns[k] ==> name in ns[..k] + ns[k + 1..]
  {
    if name in ns && name != ns[k] {
      var j :| 0 <= j < |ns| && ns[j] == name;
      assert j < k ==> (ns[..k] + ns[k + 1..])[j] == name;
      assert j > k ==> (ns[..k] + ns[k + 1..])[j - 1] == name;
    }
  }

  /** Rewriting widths does not change where a name is found, searchable or not. */
  lemma {:induction false} FoundSame(a: seq<Range>, b: seq<Range>, name: string)
    requires AllValid(a) && SameList(a, b)
    ensures AllValid(b) && Found(a, name) == Found(b, name)
  {
    SameListNames(a, b);
    if Searchable(name) {
      FoundExact(a, name);
      FoundExact(b, name);
    } else if |a| > 0 {
      FoundSame(a[1..], b[1..], name);
    }
  }

  lemma FindResult(was: seq<Range>, rs: seq<Range>, name: string)
    requires AllValid(was) && SameList(was, rs)
    ensures AllValid(rs) && ListNames(rs) == ListNames(was)
    ensures Searchable(name) ==> Found(was, name) == IndexOf(ListNames(rs), name)
  {
    SameListNames(was, rs);
    if Searchable(name) { FoundExact(was, name); }
  }

  lemma Associate<T>(a: seq<T>, b: seq<T>, c: seq<T>)
    ensures a + (b + c) == (a + b) + c
  {
  }

  lemma PickName(a: seq<string>, r: Range, c: seq<string>, n: nat)
    requires |a| <= n < |a| + r.Count()
    ensures (a + (r.Names() + c))[n] == r.Name(n - |a|)
  {
    assert r.Names()[n - |a|] == r.Name(n - |a|);
  }

  lemma CutNames(a: seq<string>, b: seq<string>, c: seq<string>, n: nat)
    requires |a| <= n < |a| + |b|
    ensures var ns := a + (b + c);
      ns[..n] + ns[n + 1..] == a + ((b[..n - |a|] + b[n - |a| + 1..]) + c)
  {
  }

  // ---- Iterators

  /** An iterator over a list that is not changed behind its back. `depth` is -1 before the
      first host; `idx` is past the last range at the end. */
  class HostIterator {
    var hl: HostList
    var idx: nat
    var depth: int

    ghost predicate Valid()
      reads this, hl
    {
      hl.Valid() && (idx < |hl.hr| ==> -1 <= depth < hl.hr[idx].Count())
    }

    /** How many names lie behind the iterator. */
    ghost function Passed(): nat
      reads this, hl
      requires Valid()
    {
      if idx < |hl.hr| then |ListNames(hl.hr[..idx])| + depth + 1 else |hl.Names()|
    }

    /** `hostlist_iterator_create` */
    constructor (list: HostList)
      requires list.Valid()
      ensures hl == list && Valid() && Passed() == 0
    {
      hl, idx, depth := list, 0, -1;
    }

    /** `hostlist_iterator_reset` */
    method Reset()
      requires hl.Valid()
      modifies this
      ensures hl == old(hl) && Valid() && Passed() == 0
    {
      idx, depth := 0, -1;
    }

    /** `hostlist_next`: enumerates the names in order. */
    method Next() returns (host: string, ok: bool)
      requires Valid()
      modifies this
      ensures hl == old(hl) && Valid()
      ensures ok <==> old(Passed()) < |hl.Names()|
      ensures ok ==> host == hl.Names()[old(Passed())] && Passed() == old(Passed()) + 1
      ensures !ok ==> Passed() == |hl.Names()|
    {
      hide ListNames, Number;
      host, ok := "", false;
      if idx < |hl.hr| {
        NamesUpTo(hl.hr, idx);
        depth := depth + 1;
        if depth > hl.hr[idx].hi - hl.hr[idx].lo {
          depth := 0;
          idx := idx + 1;
        }
        if idx < |hl.hr| {
          host, ok := hl.hr[idx].Name(depth), true;
          NameAt(hl.hr, idx, depth);
        } else {
          assert hl.hr[..idx] == hl.hr;
        }
      }
    }
  }

  lemma NameAt(rs: seq<Range>, i: nat, depth: nat)
    requires i < |rs| && depth < rs[i].Count()
    ensures var n := |ListNames(rs[..i])| + depth;
      n < |ListNames(rs)| && ListNames(rs)[n] == rs[i].Name(depth)
  {
    NamesAt(rs, i);
    PickName(ListNames(rs[..i]), rs[i], ListNames(rs[i + 1..]), |ListNames(rs[..i])| + depth);
  }
}
