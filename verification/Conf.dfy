/** The node list and the aliases of the configuration. */
module Conf {
  import opened Digits
  import opened HostRange
  import opened HostLists
  import opened HostText
  import HostPrint

  // ---- Aliases

  datatype Alias = Alias(name: string, hl: HostList)

  /** An alias at its meaning. */
  datatype Entry = Entry(name: string, hosts: seq<string>)

  /** The alias objects stand for the table. */
  ghost predicate Describes(aliases: seq<Alias>, t: seq<Entry>)
    reads set i | 0 <= i < |aliases| :: aliases[i].hl
  {
    |aliases| == |t| && forall i :: 0 <= i < |t| ==>
      aliases[i].hl.Valid() && t[i] == Entry(aliases[i].name, aliases[i].hl.Names())
  }

  /** Position of the first alias with a name, or the number of aliases. */
  ghost function Lookup(t: seq<Entry>, name: string): (k: nat)
    ensures k <= |t| && (k < |t| ==> t[k].name == name)
    ensures forall i :: 0 <= i < k ==> t[i].name != name
  {
    if |t| == 0 || t[0].name == name then 0 else 1 + Lookup(t[1..], name)
  }

  ghost predicate IsAlias(t: seq<Entry>, name: string) {
    Lookup(t, name) < |t|
  }

  ghost function PlainOf(t: seq<Entry>, name: string): seq<string> {
    if IsAlias(t, name) then [] else [name]
  }

  ghost function ExpansionOf(t: seq<Entry>, name: string): seq<string> {
    if IsAlias(t, name) then t[Lookup(t, name)].hosts else []
  }

  /** The names that are no aliases, in order. */
  ghost function Plain(t: seq<Entry>, ns: seq<string>): seq<string> {
    if |ns| == 0 then []
    else PlainOf(t, ns[0]) + Plain(t, ns[1..])
  }

  /** The expansions of the aliases among the names, in order. Names inside an expansion
      are taken as they are. */
  ghost function Expansions(t: seq<Entry>, ns: seq<string>): seq<string> {
    if |ns| == 0 then []
    else ExpansionOf(t, ns[0]) + Expansions(t, ns[1..])
  }

  lemma {:induction false} ExpandConcat(t: seq<Entry>, a: seq<string>, b: seq<string>)
    ensures Plain(t, a + b) == Plain(t, a) + Plain(t, b)
    ensures Expansions(t, a + b) == Expansions(t, a) + Expansions(t, b)
  {
    hide PlainOf, ExpansionOf;
    if |a| == 0 {
      assert a + b == b;
    } else {
      assert (a + b)[1..] == a[1..] + b;
      ExpandConcat(t, a[1..], b);
      Associate(PlainOf(t, a[0]), Plain(t, a[1..]), Plain(t, b));
      Associate(ExpansionOf(t, a[0]), Expansions(t, a[1..]), Expansions(t, b));
    }
  }

  lemma {:induction false} NoAliases(t: seq<Entry>, ns: seq<string>)
    requires forall k :: 0 <= k < |ns| ==> !IsAlias(t, ns[k])
    ensures Plain(t, ns) == ns && Expansions(t, ns) == []
  {
    if |ns| > 0 {
      NoAliases(t, ns[1..]);
    }
  }

  lemma ExpandOne(t: seq<Entry>, name: string)
    requires IsAlias(t, name)
    ensures Plain(t, [name]) == [] && Expansions(t, [name]) == t[Lookup(t, name)].hosts
  {
    assert [name][1..] == [];
  }

  lemma NothingBefore<T>(s: seq<T>)
    ensures [] + s == s
  {
  }

  /** Taking the first alias out of a list of names takes out its expansion. */
  lemma TakeAlias(t: seq<Entry>, ns: seq<string>, p: nat)
    requires p < |ns| && IsAlias(t, ns[p])
    requires forall k :: 0 <= k < p ==> !IsAlias(t, ns[k])
    ensures var rest := ns[..p] + ns[p + 1..];
      && Plain(t, ns) == Plain(t, rest)
      && Expansions(t, ns) == t[Lookup(t, ns[p])].hosts + Expansions(t, rest)
  {
    hide Plain, Expansions, Lookup, IsAlias;
    var head, tail := ns[..p], ns[p + 1..];
    assert ns == head + ([ns[p]] + tail);
    assert forall k :: 0 <= k < |head| ==> head[k] == ns[k];
    ExpandConcat(t, head, [ns[p]] + tail);
    ExpandConcat(t, [ns[p]], tail);
    ExpandConcat(t, head, tail);
    ExpandOne(t, ns[p]);
    NoAliases(t, head);
    NothingBefore(Plain(t, tail));
    NothingBefore(Expansions(t, tail));
    NothingBefore(Expansions(t, [ns[p]]) + Expansions(t, tail));
  }

  lemma {:induction false} LookupAt(t: seq<Entry>, name: string, k: nat)
    requires k <= |t| && (k < |t| ==> t[k].name == name)
    requires forall i :: 0 <= i < k ==> t[i].name != name
    ensures Lookup(t, name) == k
  {
    var j := Lookup(t, name);
    assert j < |t| ==> t[j].name == name;
  }

  /** `list_find_first` with `_alias_match` */
  method FindAlias(aliases: seq<Alias>, name: string, ghost t: seq<Entry>) returns (k: nat)
    requires Describes(aliases, t)
    ensures k == Lookup(t, name)
  {
    k := 0;
    while k < |aliases| && aliases[k].name != name
      invariant k <= |aliases|
      invariant forall i :: 0 <= i < k ==> t[i].name != name
    {
      k := k + 1;
    }
    LookupAt(t, name, k);
  }

  /** What the loop keeps: what is still to come and what is put aside add up. */
  ghost predicate Expanding(t: seq<Entry>, names: seq<string>, cur: seq<string>, aside: seq<string>) {
    Plain(t, cur) == Plain(t, names) && aside + Expansions(t, cur) == Expansions(t, names)
  }

  lemma ExpandStep(t: seq<Entry>, names: seq<string>, cur: seq<string>, aside: seq<string>, p: nat)
    requires Expanding(t, names, cur, aside) && p < |cur| && IsAlias(t, cur[p])
    requires forall k :: 0 <= k < p ==> !IsAlias(t, cur[k])
    ensures Expanding(t, names, cur[..p] + cur[p + 1..], aside + t[Lookup(t, cur[p])].hosts)
  {
    TakeAlias(t, cur, p);
    Associate(aside, t[Lookup(t, cur[p])].hosts, Expansions(t, cur[..p] + cur[p + 1..]));
  }

  lemma ExpandStart(t: seq<Entry>, names: seq<string>)
    ensures Expanding(t, names, names, [])
  {
    assert [] + Expansions(t, names) == Expansions(t, names);
  }

  lemma ExpandEnd(t: seq<Entry>, names: seq<string>, cur: seq<string>, aside: seq<string>)
    requires Expanding(t, names, cur, aside) && forall k :: 0 <= k < |cur| ==> !IsAlias(t, cur[k])
    ensures cur + aside == Plain(t, names) + Expansions(t, names)
  {
    NoAliases(t, cur);
    assert aside + [] == aside;
  }

  /** A range of numbers prints the name of an alias that the search cannot find there: the
      name can be met, but not deleted. */
  ghost predicate Endless(t: seq<Entry>, rs: seq<Range>) {
    exists i :: 0 <= i < |t| && Elusive(t[i].name, rs)
  }

  predicate Elusive(name: string, rs: seq<Range>) {
    !Searchable(name) && Spells(rs, name)
  }

  lemma EndlessSame(t: seq<Entry>, was: seq<Range>, rs: seq<Range>)
    requires forall n :: !Searchable(n) ==> (Spells(rs, n) <==> Spells(was, n))
    ensures Endless(t, was) <==> Endless(t, rs)
  {
    hide Searchable, Spells;
    forall i | 0 <= i < |t|
      ensures Elusive(t[i].name, was) <==> Elusive(t[i].name, rs)
    {
    }
  }

  /** An alias that was met has its name in the list, and is found there unless it is elusive. */
  lemma FoundMet(t: seq<Entry>, rs: seq<Range>, p: nat)
    requires AllValid(rs) && p < |ListNames(rs)| && IsAlias(t, ListNames(rs)[p]) && !Endless(t, rs)
    requires NoneBefore(t, ListNames(rs), p)
    ensures Found(rs, ListNames(rs)[p]) == p
  {
    hide Searchable, Spells, Found, ListNames, AllValid;
    var name := ListNames(rs)[p];
    assert t[Lookup(t, name)].name == name && !Elusive(name, rs);
    FoundFindable(rs, name);
    FirstAt(ListNames(rs), name, p, t);
  }

  /** Such an alias is always still to be met. */
  lemma EndlessMeets(t: seq<Entry>, rs: seq<Range>)
    requires Endless(t, rs)
    ensures !NoneBefore(t, ListNames(rs), |ListNames(rs)|)
  {
    hide Searchable, Spells;
    var i :| 0 <= i < |t| && Elusive(t[i].name, rs);
    SpellsListed(rs, t[i].name);
    var j :| 0 <= j < |ListNames(rs)| && ListNames(rs)[j] == t[i].name;
    assert IsAlias(t, ListNames(rs)[j]);
  }

  /** Where the loop stands: the ranges of the list, how many names the iterator has passed,
      and the hosts put aside. */
  datatype Stand = Stand(hr: seq<Range>, passed: nat, aside: seq<string>)

  /** The iterator is in the list, and no alias lies behind it. */
  ghost predicate StandOk(t: seq<Entry>, s: Stand) {
    AllValid(s.hr) && s.passed <= |ListNames(s.hr)| && NoneBefore(t, ListNames(s.hr), s.passed)
  }

  /** The iterator has reached the end, which ends the loop. */
  ghost predicate Over(s: Stand) {
    s.passed == |ListNames(s.hr)|
  }

  /** One turn of the loop: a plain name is passed. An alias is put aside and the iterator
      starts again; the name leaves the list if the search finds it. */
  ghost predicate Turned(t: seq<Entry>, s: Stand, s': Stand)
    requires StandOk(t, s)
  {
    && StandOk(t, s') && s.passed < |ListNames(s.hr)|
    && (forall n :: !Searchable(n) ==> (Spells(s'.hr, n) <==> Spells(s.hr, n)))
    && var names, name := ListNames(s.hr), ListNames(s.hr)[s.passed];
      if IsAlias(t, name) then
        && s'.passed == 0 && s'.aside == s.aside + t[Lookup(t, name)].hosts
        && var k := Found(s.hr, name);
          if k < 0 then ListNames(s'.hr) == names
          else k < |names| && ListNames(s'.hr) == names[..k] + names[k + 1..]
      else
        ListNames(s'.hr) == names && s'.passed == s.passed + 1 && s'.aside == s.aside
  }

  ghost function StandOf(hl: HostList, newhosts: HostList, itr: HostIterator): Stand
    reads hl, newhosts, itr, itr.hl
    requires itr.Valid() && AllValid(newhosts.hr)
  {
    Stand(hl.hr, itr.Passed(), newhosts.Names())
  }

  /** The lists that the loop works on. */
  ghost predicate Lists(hl: HostList, newhosts: HostList, itr: HostIterator, aliases: seq<Alias>, t: seq<Entry>)
    reads hl, newhosts, itr, set i | 0 <= i < |aliases| :: aliases[i].hl
  {
    && hl.Valid() && newhosts.Valid() && newhosts != hl && Describes(aliases, t)
    && (forall i :: 0 <= i < |aliases| ==> aliases[i].hl != hl && aliases[i].hl != newhosts)
    && itr.hl == hl && itr.Valid() && StandOk(t, StandOf(hl, newhosts, itr))
  }

  /** The body of the loop and its condition. */
  method Turn(hl: HostList, newhosts: HostList, itr: HostIterator, aliases: seq<Alias>, ghost t: seq<Entry>) returns (going: bool)
    requires Lists(hl, newhosts, itr, aliases, t)
    modifies hl, newhosts, itr, set i | 0 <= i < |aliases| :: aliases[i].hl
    ensures Lists(hl, newhosts, itr, aliases, t)
    ensures var s := old(StandOf(hl, newhosts, itr));
      if going then Turned(t, s, StandOf(hl, newhosts, itr)) else Over(s) && StandOf(hl, newhosts, itr) == s
  {
    hide ListNames, AllValid, IsAlias, Lookup, Spells, Searchable, Found, HostIterator.Valid, HostIterator.Passed;
    ghost var was := hl.hr;
    var host, ok := itr.Next();
    if !ok {
      return false;
    }
    var k := FindAlias(aliases, host, t);
    LookupIsAlias(t, host);
    if k < |aliases| {
      FoundSound(was, host);
      var _ := hl.DeleteHost(host);
      newhosts.PushList(aliases[k].hl);
      itr.Reset();
    }
    return true;
  }

  lemma TurnedEndless(t: seq<Entry>, s: Stand, s': Stand)
    requires StandOk(t, s) && Turned(t, s, s')
    ensures Endless(t, s.hr) <==> Endless(t, s'.hr)
  {
    hide Searchable, Spells, ListNames, Found;
    EndlessSame(t, s.hr, s'.hr);
  }

  /** How many turns the loop can still take when every alias met is taken out. */
  ghost function Left(s: Stand): int {
    var n := |ListNames(s.hr)|;
    n * n + n - s.passed
  }

  /** A turn leaves fewer. */
  lemma TurnedLess(t: seq<Entry>, s: Stand, s': Stand)
    requires StandOk(t, s) && Turned(t, s, s') && !Endless(t, s.hr)
    ensures 0 <= Left(s') < Left(s)
    ensures var name := ListNames(s.hr)[s.passed]; IsAlias(t, name) ==> Found(s.hr, name) == s.passed
  {
    hide Searchable, Spells, ListNames, Found, Endless, AllValid;
    var n := |ListNames(s.hr)|;
    if IsAlias(t, ListNames(s.hr)[s.passed]) {
      FoundMet(t, s.hr, s.passed);
      assert (n - 1) * (n - 1) == n * n - 2 * n + 1;
    }
  }

  /** `conf_exp_aliases`: the plain names in order, then the expansions in order of the
      aliases. It ends because every restart has one alias less to meet, for all aliases but
      those that a range of numbers prints and the search misses. */
  method ExpandAliases(hl: HostList, aliases: seq<Alias>, ghost t: seq<Entry>)
    requires hl.Valid() && Describes(aliases, t) && forall i :: 0 <= i < |aliases| ==> aliases[i].hl != hl
    requires !Endless(t, hl.hr)
    modifies hl, set i | 0 <= i < |aliases| :: aliases[i].hl
    ensures hl.Valid() && Describes(aliases, t)
    ensures hl.Names() == Plain(t, old(hl.Names())) + Expansions(t, old(hl.Names()))
  {
    hide ListNames, AllValid, Expanding, IsAlias, Lookup, Plain, Expansions, Endless, HostIterator.Valid, HostIterator.Passed;
    hide Spells, Searchable, Found, Turned, NoneBefore, Left;
    ghost var names := hl.Names();
    var newhosts := new HostList();
    var itr := new HostIterator(hl);
    ExpandStart(t, names);
    NoneYet(t, names);
    var going := true;
    while going
      invariant Lists(hl, newhosts, itr, aliases, t) && fresh(newhosts) && fresh(itr)
      invariant !Endless(t, hl.hr) && Expanding(t, names, hl.Names(), newhosts.Names())
      invariant !going ==> Over(StandOf(hl, newhosts, itr))
      decreases Left(StandOf(hl, newhosts, itr)), going
    {
      ghost var s := StandOf(hl, newhosts, itr);
      going := Turn(hl, newhosts, itr, aliases, t);
      if going { TurnedExpands(t, names, s, StandOf(hl, newhosts, itr)); }
    }
    NoneLeft(t, hl.Names());
    ExpandEnd(t, names, hl.Names(), newhosts.Names());
    hl.PushList(newhosts);
  }

  /** A turn that can be the one before the last keeps what the loop keeps. */
  lemma TurnedExpands(t: seq<Entry>, names: seq<string>, s: Stand, s': Stand)
    requires StandOk(t, s) && Turned(t, s, s') && !Endless(t, s.hr) && Expanding(t, names, ListNames(s.hr), s.aside)
    ensures !Endless(t, s'.hr) && Expanding(t, names, ListNames(s'.hr), s'.aside) && 0 <= Left(s') < Left(s)
  {
    hide Searchable, Spells, ListNames, Found, Endless, AllValid, Expanding, Left, Lookup;
    TurnedEndless(t, s, s');
    TurnedLess(t, s, s');
    if IsAlias(t, ListNames(s.hr)[s.passed]) {
      ExpandStep(t, names, ListNames(s.hr), s.aside, s.passed);
    }
  }

  lemma NoneLeft(t: seq<Entry>, ns: seq<string>)
    ensures NoneBefore(t, ns, |ns|) ==> forall k :: 0 <= k < |ns| ==> !IsAlias(t, ns[k])
  {
  }

  // ---- When the loop ends

  /** The loop from its start: each stand is a turn after the one before. */
  ghost predicate Trace(t: seq<Entry>, hr: seq<Range>, tr: seq<Stand>) {
    && |tr| > 0 && tr[0] == Stand(hr, 0, []) && (forall i :: 0 <= i < |tr| ==> StandOk(t, tr[i]))
    && forall i :: 0 <= i < |tr| - 1 ==> Turned(t, tr[i], tr[i + 1])
  }

  lemma TraceStart(t: seq<Entry>, hr: seq<Range>)
    requires AllValid(hr)
    ensures Trace(t, hr, [Stand(hr, 0, [])])
  {
  }

  lemma TraceMore(t: seq<Entry>, hr: seq<Range>, tr: seq<Stand>, s: Stand)
    requires Trace(t, hr, tr) && Turned(t, tr[|tr| - 1], s)
    ensures Trace(t, hr, tr + [s])
  {
    hide Turned, StandOk;
    assert StandOk(t, s) by { TurnedOk(t, tr[|tr| - 1], s); }
    var tr' := tr + [s];
    forall i | 0 <= i < |tr'| - 1
      ensures Turned(t, tr'[i], tr'[i + 1])
    {
      assert tr'[i] == tr[i] && (i + 1 < |tr| ==> tr'[i + 1] == tr[i + 1]);
    }
  }

  lemma TurnedOk(t: seq<Entry>, s: Stand, s': Stand)
    requires StandOk(t, s) && Turned(t, s, s')
    ensures StandOk(t, s') && !Over(s)
  {
  }

  /** The condition stays over a trace; where it fails, every turn counts. */
  lemma {:induction false} TraceCounts(t: seq<Entry>, hr: seq<Range>, tr: seq<Stand>, k: nat)
    requires Trace(t, hr, tr) && k < |tr|
    ensures Endless(t, tr[k].hr) <==> Endless(t, hr)
    ensures !Endless(t, hr) ==> 0 <= Left(tr[k]) <= Left(tr[0]) - k
  {
    hide Turned, Endless, Left;
    if k == 0 {
      LeftStart(t, tr[0]);
    } else {
      TraceCounts(t, hr, tr, k - 1);
      assert Turned(t, tr[k - 1], tr[k - 1 + 1]);
      TurnedEndless(t, tr[k - 1], tr[k]);
      if !Endless(t, hr) { TurnedLess(t, tr[k - 1], tr[k]); }
    }
  }

  lemma LeftStart(t: seq<Entry>, s: Stand)
    requires StandOk(t, s)
    ensures 0 <= Left(s)
  {
  }

  /** As long as the iterator is not at the end, there is a turn. */
  lemma CanTurn(t: seq<Entry>, s: Stand) returns (s': Stand)
    requires StandOk(t, s) && !Over(s)
    ensures Turned(t, s, s')
  {
    hide ListNames, AllValid, IsAlias, Lookup, Spells, Searchable, Found;
    var name := ListNames(s.hr)[s.passed];
    if !IsAlias(t, name) {
      s' := s.(passed := s.passed + 1);
    } else {
      LookupIsAlias(t, name);
      var hr := Deleted(s.hr, name);
      s' := Stand(hr, 0, s.aside + t[Lookup(t, name)].hosts);
    }
  }

  /** The ranges without the host that the search finds. */
  lemma Deleted(rs: seq<Range>, name: string) returns (rs': seq<Range>)
    requires AllValid(rs)
    ensures AllValid(rs') && forall n :: !Searchable(n) ==> (Spells(rs', n) <==> Spells(rs, n))
    ensures var k := Found(rs, name);
      if k < 0 then ListNames(rs') == ListNames(rs)
      else k < |ListNames(rs)| && ListNames(rs') == ListNames(rs)[..k] + ListNames(rs)[k + 1..]
  {
    hide ListNames, Spells, Searchable, Found;
    var k := Found(rs, name);
    if k < 0 { return rs; }
    FoundSound(rs, name);
    var at := HolderOf(rs, k);
    DeleteInRange(rs, at, k);
    rs' := Without(rs, at, k);
    if !Searchable(name) { FoundInSingle(rs, name, at); }
    forall n | !Searchable(n)
      ensures Spells(rs', n) <==> Spells(rs, n)
    {
      SpellsWithout(rs, at, k, n);
    }
  }

  /** The loop can go on for that many turns. */
  ghost predicate RunsFor(t: seq<Entry>, hr: seq<Range>, turns: nat) {
    exists tr :: Trace(t, hr, tr) && |tr| == turns + 1
  }

  /** On a list of n names the loop goes on for (n + 1)^2 turns if and only if it never ends, and
      that is so precisely when a range of numbers prints an alias that is not searchable. */
  lemma EndsIff(t: seq<Entry>, hr: seq<Range>)
    requires AllValid(hr)
    ensures var n := |ListNames(hr)|;
      && (Endless(t, hr) <==> RunsFor(t, hr, (n + 1) * (n + 1)))
      && (Endless(t, hr) <==> forall turns: nat :: RunsFor(t, hr, turns))
  {
    hide Turned, Endless, ListNames, StandOk, Trace, RunsFor;
    var n := |ListNames(hr)|;
    if Endless(t, hr) {
      forall turns: nat
        ensures RunsFor(t, hr, turns)
      {
        EndlessRuns(t, hr, turns);
      }
    } else if RunsFor(t, hr, (n + 1) * (n + 1)) {
      RunsOut(t, hr, (n + 1) * (n + 1));
    }
  }

  lemma {:induction false} EndlessRuns(t: seq<Entry>, hr: seq<Range>, turns: nat)
    requires AllValid(hr) && Endless(t, hr)
    ensures RunsFor(t, hr, turns)
  {
    hide Turned, Endless, ListNames, StandOk, Trace, AllValid;
    if turns == 0 {
      TraceStart(t, hr);
      assert |[Stand(hr, 0, [])]| == 0 + 1;
    } else {
      EndlessRuns(t, hr, turns - 1);
      var tr :| Trace(t, hr, tr) && |tr| == turns - 1 + 1;
      var s := Further(t, hr, tr);
      assert |tr + [s]| == turns + 1;
    }
  }

  lemma Further(t: seq<Entry>, hr: seq<Range>, tr: seq<Stand>) returns (s: Stand)
    requires Endless(t, hr) && Trace(t, hr, tr)
    ensures Trace(t, hr, tr + [s])
  {
    hide Turned, Endless, ListNames;
    var last := tr[|tr| - 1];
    TraceCounts(t, hr, tr, |tr| - 1);
    EndlessMeets(t, last.hr);
    s := CanTurn(t, last);
    TraceMore(t, hr, tr, s);
  }

  lemma RunsOut(t: seq<Entry>, hr: seq<Range>, turns: nat)
    requires AllValid(hr) && RunsFor(t, hr, turns) && !Endless(t, hr)
    ensures var n := |ListNames(hr)|; turns < (n + 1) * (n + 1)
  {
    hide Turned, Endless, ListNames, StandOk;
    var tr :| Trace(t, hr, tr) && |tr| == turns + 1;
    TraceCounts(t, hr, tr, turns);
    var n := |ListNames(hr)|;
    assert (n + 1) * (n + 1) == n * n + 2 * n + 1;
  }

  /** The loop for at most that many turns, and where it stood after each. It is still going
      after (n + 1)^2 turns if and only if it never ends. */
  method ExpandFor(hl: HostList, aliases: seq<Alias>, ghost t: seq<Entry>, turns: nat) returns (going: bool, ghost tr: seq<Stand>)
    requires hl.Valid() && Describes(aliases, t) && forall i :: 0 <= i < |aliases| ==> aliases[i].hl != hl
    modifies hl, set i | 0 <= i < |aliases| :: aliases[i].hl
    ensures Trace(t, old(hl.hr), tr) && hl.hr == tr[|tr| - 1].hr
    ensures if going then |tr| == turns + 1 else |tr| <= turns && Over(tr[|tr| - 1])
    ensures Endless(t, old(hl.hr)) ==> going
    ensures var n := |old(hl.Names())|; turns >= (n + 1) * (n + 1) ==> (going <==> Endless(t, old(hl.hr)))
  {
    hide ListNames, AllValid, IsAlias, Lookup, Endless, HostIterator.Valid, HostIterator.Passed, NoneBefore, StandOk, Turned, Trace, Over;
    ghost var first := hl.hr;
    var newhosts := new HostList();
    var itr := new HostIterator(hl);
    StandFirst(t, first);
    TraceStart(t, first);
    tr := [Stand(first, 0, [])];
    going := true;
    for i := 0 to turns
      invariant Lists(hl, newhosts, itr, aliases, t) && fresh(newhosts) && fresh(itr) && going
      invariant |tr| == i + 1 && Trace(t, first, tr) && tr[i] == StandOf(hl, newhosts, itr)
    {
      going := Turn(hl, newhosts, itr, aliases, t);
      if !going {
        OverEnds(t, first, tr);
        return;
      }
      TraceMore(t, first, tr, StandOf(hl, newhosts, itr));
      tr := tr + [StandOf(hl, newhosts, itr)];
    }
    StillGoing(t, first, tr, turns);
  }

  lemma StandFirst(t: seq<Entry>, hr: seq<Range>)
    requires AllValid(hr)
    ensures StandOk(t, Stand(hr, 0, []))
  {
  }

  lemma OverEnds(t: seq<Entry>, hr: seq<Range>, tr: seq<Stand>)
    requires Trace(t, hr, tr) && Over(tr[|tr| - 1])
    ensures !Endless(t, hr)
  {
    hide Turned, Endless, ListNames;
    TraceCounts(t, hr, tr, |tr| - 1);
    if Endless(t, hr) { EndlessMeets(t, tr[|tr| - 1].hr); }
  }

  lemma StillGoing(t: seq<Entry>, hr: seq<Range>, tr: seq<Stand>, turns: nat)
    requires AllValid(hr) && Trace(t, hr, tr) && |tr| == turns + 1
    ensures var n := |ListNames(hr)|; turns >= (n + 1) * (n + 1) ==> Endless(t, hr)
  {
    hide Trace, Endless, ListNames;
    assert RunsFor(t, hr, turns);
    if !Endless(t, hr) { RunsOut(t, hr, turns); }
  }

  /** For every alias that the search misses there is a list on which the loop does not end. */
  lemma EndlessAlias(t: seq<Entry>, i: nat)
    requires i < |t| && !Searchable(t[i].name)
    ensures |t[i].name| > 0 && IsDigit(t[i].name[|t[i].name| - 1])
    ensures AllValid([LastDigit(t[i].name)]) && Endless(t, [LastDigit(t[i].name)])
  {
    hide Searchable, Spells, LastDigit;
    var name := t[i].name;
    UnsearchableDigits(name);
    LastDigitPrints(name);
    var r := LastDigit(name);
    assert r.Names()[0] == name;
    SpellsOne(r, name);
    assert Elusive(name, [r]);
  }

  lemma EndlessWitness(hosts: seq<string>)
    ensures Endless([Entry("a99999999", hosts)], [Range("a", 99999999, 99999999, 8, false)])
  {
    hide Spells, Searchable;
    var name, r := "a99999999", Range("a", 99999999, 99999999, 8, false);
    NinesAlias();
    NumberValue("99999999");
    assert r.Names()[0] == r.Name(0) == "a" + "99999999" == name;
    SpellsOne(r, name);
    assert Elusive([Entry(name, hosts)][0].name, [r]);
  }

  lemma NinesAlias()
    ensures "a99999999" == "a" + "99999999" && Value("99999999") == 99999999 && !Searchable("a99999999")
  {
    var name, digits := "a99999999", "99999999";
    SplitBeforePrefix("a", digits);
    assert !AllDigits(name) by { assert !IsDigit(name[0]); }
    assert name == "a" + digits && name[0..] == name && name[1..] == digits;
    NinesValue(digits);
  }

  lemma NinesValue(s: string)
    requires s == "99999999"
    ensures Value(s) == 99999999
  {
    assert s[..7] == "9999999" && "9999999"[..6] == "999999" && "999999"[..5] == "99999" && "99999"[..4] == "9999";
    assert "9999"[..3] == "999" && "999"[..2] == "99" && "99"[..1] == "9" && "9"[..0] == "";
    assert Value("99") == 99;
    assert Value("9999") == 9999;
    assert Value("999999") == 999999;
  }

  lemma NoneYet(t: seq<Entry>, ns: seq<string>)
    ensures NoneBefore(t, ns, 0)
  {
  }

  ghost predicate NoneBefore(t: seq<Entry>, ns: seq<string>, p: nat)
    requires p <= |ns|
  {
    forall k :: 0 <= k < p ==> !IsAlias(t, ns[k])
  }

  lemma LookupIsAlias(t: seq<Entry>, name: string)
    ensures IsAlias(t, name) <==> Lookup(t, name) < |t|
  {
  }

  /** The first alias met is the first occurrence of its name. */
  lemma FirstAt(ns: seq<string>, name: string, p: nat, t: seq<Entry>)
    requires p < |ns| && ns[p] == name && IsAlias(t, name)
    requires forall k :: 0 <= k < p ==> !IsAlias(t, ns[k])
    ensures IndexOf(ns, name) == p
  {
    assert forall k :: 0 <= k < p ==> !IsAlias(t, ns[k]) && ns[k] != name;
  }

  // ---- Nodes

  /** What pushing a text adds. */
  ghost function Pushed(text: string): seq<string> {
    if Parse(text).Ok? then Parse(text).value else []
  }

  /** The names after adding some one by one, up to the first that is there already. Each is
      read again when it is pushed. */
  ghost function Added(have: seq<string>, ns: seq<string>): (r: (seq<string>, bool))
    decreases |ns|
  {
    if |ns| == 0 then (have, true)
    else if ns[0] in have then (have, false)
    else Added(have + Pushed(ns[0]), ns[1..])
  }

  ghost predicate NoneTwice(ns: seq<string>) {
    forall i, j :: 0 <= i < j < |ns| ==> ns[i] != ns[j]
  }

  /** A host name as the parser takes it whole: no separators, no brackets, not empty. */
  predicate PlainName(name: string) {
    Clean(name) && |name| > 0
  }

  lemma ParsePlain(name: string)
    requires PlainName(name)
    ensures Parse(name) == Ok([name])
  {
    HostPrint.TokLenClean(name, "");
    HostPrint.ParseNothing();
    assert name + "" == name;
    assert name[0..] == name && name[..|name|] == name && name[|name|..] == "";
    StrChrNone(name, '[');
    ParseUnfold(name, name, |name|);
    assert [name] + [] == [name];
  }

  /** Adding plain names keeps the node names distinct, keeps the old ones in front, and succeeds
      precisely when all are new and distinct. */
  lemma {:induction false} AddedDistinct(have: seq<string>, ns: seq<string>)
    requires NoneTwice(have) && forall i :: 0 <= i < |ns| ==> PlainName(ns[i])
    ensures NoneTwice(Added(have, ns).0) && have <= Added(have, ns).0 <= have + ns
    ensures Added(have, ns).1 <==> NoneTwice(have + ns)
    ensures Added(have, ns).1 ==> Added(have, ns).0 == have + ns
    decreases |ns|
  {
    hide PlainName, Parse;
    if |ns| == 0 {
      assert have + ns == have;
    } else if ns[0] in have {
      var k :| 0 <= k < |have| && have[k] == ns[0];
      assert (have + ns)[k] == (have + ns)[|have|];
    } else {
      ParsePlain(ns[0]);
      AddedDistinct(have + [ns[0]], ns[1..]);
      assert have + [ns[0]] + ns[1..] == have + ns;
      assert have <= have + [ns[0]];
    }
  }

  /** `hostlist_push`: pushes what a text stands for, or nothing. */
  method Push(hl: HostList, text: string)
    requires hl.Valid()
    modifies hl
    ensures hl.Valid()
    ensures hl.Names() == old(hl.Names()) + Pushed(text)
    ensures forall n :: !Searchable(n) && n !in Bracketed(text) ==> (Spells(hl.hr, n) <==> Spells(old(hl.hr), n))
  {
    hide Parse, Bracketed, ListNames, AllValid, Spells, Searchable;
    var list := Create(text);
    if list != null {
      hl.PushList(list);
    } else {
      assert hl.Names() + [] == hl.Names();
    }
  }

  /** `conf_node_exists`: what it finds is there, and it is exact unless a range of numbers
      prints a name that is not searchable. */
  method NodeExists(nodes: HostList, node: string) returns (found: bool)
    requires nodes.Valid()
    modifies nodes`hr
    ensures nodes.Valid() && nodes.Names() == old(nodes.Names()) && SameList(old(nodes.hr), nodes.hr)
    ensures Findable(old(nodes.hr), node) ==> (found <==> node in nodes.Names())
    ensures found ==> node in nodes.Names()
  {
    hide Findable, Found;
    FoundSound(nodes.hr, node);
    if Findable(nodes.hr, node) { FoundFindable(nodes.hr, node); }
    var res := nodes.Find(node);
    found := res != -1;
  }

  /** No range of numbers prints one of these names that is not searchable, or comes to print
      it when the names are pushed. */
  ghost predicate Tellable(rs: seq<Range>, ns: seq<string>) {
    forall n :: n in ns && !Searchable(n) ==> !Spells(rs, n) && forall m :: m in ns ==> n !in Bracketed(m)
  }

  lemma TellableFindable(rs: seq<Range>, ns: seq<string>, name: string)
    requires Tellable(rs, ns) && name in ns
    ensures Findable(rs, name)
  {
  }

  lemma TellablePushed(was: seq<Range>, rs: seq<Range>, ns: seq<string>, name: string)
    requires Tellable(was, ns) && name in ns
    requires forall n :: !Searchable(n) && n !in Bracketed(name) ==> (Spells(rs, n) <==> Spells(was, n))
    ensures Tellable(rs, ns)
  {
    hide Searchable, Spells, Bracketed;
  }

  lemma TellableSame(was: seq<Range>, rs: seq<Range>, ns: seq<string>)
    requires AllValid(was) && SameList(was, rs) && Tellable(was, ns)
    ensures Tellable(rs, ns)
  {
    hide Searchable, Spells, Bracketed;
    forall n
      ensures Spells(was, n) <==> Spells(rs, n)
    {
      SpellsSame(was, rs, n);
    }
  }

  /** `conf_addnodes`: the names are added one by one up to the first that is there already;
      the node list keeps no plain name twice. */
  method AddNodes(nodes: HostList, text: string) returns (res: bool)
    requires nodes.Valid() && Parse(text).Ok?
    modifies nodes
    ensures nodes.Valid()
    ensures Tellable(old(nodes.hr), Parse(text).value) ==>
      var ns := Parse(text).value;
      && (nodes.Names(), res) == Added(old(nodes.Names()), ns)
      && ((forall n :: n in ns ==> PlainName(n)) && NoneTwice(old(nodes.Names())) ==> NoneTwice(nodes.Names()))
  {
    hide ListNames, AllValid, Parse, Bracketed, PlainName, NoneTwice, Searchable, Spells, Findable, Tellable, Pushed;
    var hl := Create(text);
    var itr := new HostIterator(hl);
    ghost var rs, was, ns := nodes.hr, nodes.Names(), hl.Names();
    AddedPlain(was, ns);
    assert ns[0..] == ns;
    res := true;
    while true
      invariant nodes.Valid() && hl.Valid() && hl.Names() == ns && itr.hl == hl && itr.Valid()
      invariant fresh(hl) && fresh(itr) && itr.Passed() <= |ns| && res
      invariant Tellable(rs, ns) ==> Tellable(nodes.hr, ns) && Added(was, ns) == Added(nodes.Names(), ns[itr.Passed()..])
      decreases |ns| - itr.Passed()
    {
      ghost var p := itr.Passed();
      var node, ok := itr.Next();
      if !ok {
        break;
      }
      assert ns[p] == node && ns[p..][0] == node && ns[p..][1..] == ns[p + 1..];
      var exists' := AddOne(nodes, node, ns);
      if exists' {
        res := false;
        break;
      }
    }
  }

  /** The body of the loop. */
  method AddOne(nodes: HostList, node: string, ghost ns: seq<string>) returns (exists': bool)
    requires nodes.Valid() && node in ns
    modifies nodes
    ensures nodes.Valid()
    ensures Tellable(old(nodes.hr), ns) ==> Tellable(nodes.hr, ns) && (exists' <==> node in old(nodes.Names()))
    ensures nodes.Names() == if exists' then old(nodes.Names()) else old(nodes.Names()) + Pushed(node)
  {
    hide ListNames, AllValid, Bracketed, Searchable, Spells, Findable, Tellable, Pushed, SameList;
    ghost var rs := nodes.hr;
    if Tellable(rs, ns) { TellableFindable(rs, ns, node); }
    exists' := NodeExists(nodes, node);
    ghost var mid := nodes.hr;
    if Tellable(rs, ns) { TellableSame(rs, mid, ns); }
    if !exists' {
      Push(nodes, node);
      if Tellable(rs, ns) { TellablePushed(mid, nodes.hr, ns, node); }
    }
  }

  lemma AddedPlain(have: seq<string>, ns: seq<string>)
    ensures (forall n :: n in ns ==> PlainName(n)) && NoneTwice(have) ==> NoneTwice(Added(have, ns).0)
  {
    if (forall n :: n in ns ==> PlainName(n)) && NoneTwice(have) { AddedDistinct(have, ns); }
  }
}
