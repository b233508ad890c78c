/** From the target nodes of a command to actions queued on a device. */
module Targeting {
  import opened Scripts
  import opened ArgLists
  import opened Actions
  import opened Devices
  import HostRange
  import HostLists

  type Range = HostRange.Range

  // ---- Scripts for all plugs and for several plugs

  function Defined(dev: Device, com: Com): Option<Com> {
    if com in dev.scripts then Some(com) else None
  }

  /** `_get_all_script` */
  function AllScript(dev: Device, com: Com): Option<Com> {
    match com
    case PowerOn => Defined(dev, PowerOnAll)
    case PowerOff => Defined(dev, PowerOffAll)
    case PowerCycle => Defined(dev, PowerCycleAll)
    case Reset => Defined(dev, ResetAll)
    case StatusPlugs => Defined(dev, StatusPlugsAll)
    case StatusTemp => Defined(dev, StatusTempAll)
    case StatusBeacon => Defined(dev, StatusBeaconAll)
    case _ => None
  }

  /** `_get_ranged_script` */
  function RangedScript(dev: Device, com: Com): Option<Com> {
    match com
    case PowerOn => Defined(dev, PowerOnRanged)
    case PowerOff => Defined(dev, PowerOffRanged)
    case PowerCycle => Defined(dev, PowerCycleRanged)
    case Reset => Defined(dev, ResetRanged)
    case BeaconOn => Defined(dev, BeaconOnRanged)
    case BeaconOff => Defined(dev, BeaconOffRanged)
    case _ => None
  }

  /** Whether the device implements a command in some form. */
  predicate Implements(dev: Device, com: Com) {
    com in dev.scripts || AllScript(dev, com).Some? || RangedScript(dev, com).Some?
  }

  // ---- Targets

  /** The node of a plug is among the targets. */
  predicate Hit(plug: Plug, rs: seq<Range>)
    requires HostLists.AllValid(rs)
  {
    plug.node.Some? && HostLists.Found(rs, plug.node.value) >= 0
  }

  /** The plugs whose nodes are among the targets, in order. */
  function Targeted(ps: seq<Plug>, rs: seq<Range>): (r: seq<Plug>)
    requires HostLists.AllValid(rs)
    ensures |r| <= |ps|
  {
    if |ps| == 0 then []
    else (if Hit(ps[0], rs) then [ps[0]] else []) + Targeted(ps[1..], rs)
  }

  /** Exactly the plugs whose node is named by the targets. */
  lemma {:induction false} TargetedExact(ps: seq<Plug>, rs: seq<Range>, p: Plug)
    requires HostLists.AllValid(rs)
    requires p.node.Some? ==> HostLists.Findable(rs, p.node.value)
    ensures p in Targeted(ps, rs) <==> p in ps && p.node.Some? && p.node.value in HostLists.ListNames(rs)
  {
    if p.node.Some? {
      HostLists.FoundFindable(rs, p.node.value);
    }
    if |ps| > 0 {
      TargetedExact(ps[1..], rs, p);
    }
  }

  lemma {:induction false} TargetedSnoc(ps: seq<Plug>, rs: seq<Range>, k: nat)
    requires HostLists.AllValid(rs) && k < |ps|
    ensures Targeted(ps[..k + 1], rs) == Targeted(ps[..k], rs) + (if Hit(ps[k], rs) then [ps[k]] else [])
  {
    hide Hit;
    if k == 0 {
      assert ps[..1] == [ps[0]] && ps[..0] == [];
    } else {
      TargetedSnoc(ps[1..], rs, k - 1);
      assert ps[..k + 1][1..] == ps[1..][..k] && ps[..k][1..] == ps[1..][..k - 1];
    }
  }

  lemma {:induction false} TargetedAll(ps: seq<Plug>, rs: seq<Range>)
    requires HostLists.AllValid(rs) && |Targeted(ps, rs)| == |ps|
    ensures Targeted(ps, rs) == ps
  {
    hide Hit;
    if |ps| > 0 { TargetedAll(ps[1..], rs); }
  }

  lemma HitSame(plug: Plug, was: seq<Range>, rs: seq<Range>)
    requires HostLists.AllValid(was) && HostLists.SameList(was, rs)
    ensures HostLists.AllValid(rs) && Hit(plug, rs) == Hit(plug, was)
  {
    HostLists.SameListNames(was, rs);
    if plug.node.Some? { HostLists.FoundSame(was, rs, plug.node.value); }
  }

  /** The test that both plug loops make; the search rewrites widths, and no name. */
  method IsHit(plug: Plug, hl: HostLists.HostList, ghost was: seq<Range>) returns (hit: bool)
    requires hl.Valid() && HostLists.AllValid(was) && HostLists.SameList(was, hl.hr)
    modifies hl`hr
    ensures hl.Valid() && hl.Names() == old(hl.Names()) && HostLists.SameList(was, hl.hr)
    ensures hit == Hit(plug, was)
  {
    hide HostLists.Found, HostLists.ListNames, HostLists.AllValid;
    HitSame(plug, was, hl.hr);
    hit := false;
    if plug.node.Some? {
      HostLists.FoundSound(hl.hr, plug.node.value);
      var k := hl.Find(plug.node.value);
      hit := k != -1;
    }
  }

  /** `_command_needs_device` */
  method NeedsDevice(dev: Device, hl: HostLists.HostList) returns (needed: bool)
    requires hl.Valid()
    modifies hl`hr
    ensures hl.Valid() && hl.Names() == old(hl.Names()) && HostLists.SameList(old(hl.hr), hl.hr)
    ensures needed <==> Targeted(dev.plugs, old(hl.hr)) != []
  {
    hide HostLists.ListNames, HostLists.AllValid, Targeted, Hit;
    ghost var was := hl.hr;
    TargetedNone(dev.plugs, was);
    var i := 0;
    while i < |dev.plugs|
      invariant i <= |dev.plugs| && hl.Valid() && hl.Names() == old(hl.Names()) && HostLists.SameList(was, hl.hr)
      invariant Targeted(dev.plugs[..i], was) == []
    {
      TargetedSnoc(dev.plugs, was, i);
      needed := IsHit(dev.plugs[i], hl, was);
      if needed {
        TargetedMore(dev.plugs, was, i + 1);
        return;
      }
      i := i + 1;
    }
    assert dev.plugs[..i] == dev.plugs;
    needed := false;
  }

  lemma {:induction false} TargetedMore(ps: seq<Plug>, rs: seq<Range>, k: nat)
    requires HostLists.AllValid(rs) && k <= |ps|
    ensures Targeted(ps[..k], rs) <= Targeted(ps, rs)
    decreases |ps| - k
  {
    if k < |ps| {
      TargetedSnoc(ps, rs, k);
      TargetedMore(ps, rs, k + 1);
    } else {
      assert ps[..k] == ps;
    }
  }

  // ---- Actions for the targets

  /** A fresh action of a client's command. */
  predicate IsFor(dev: Device, a: Action, com: Com, plugs: seq<Plug>, clientId: nat, arglist: ArgList) {
    && com in dev.scripts && a.com == com && a.script == dev.scripts[com] && a.plugs == plugs
    && a.callback && a.clientId == clientId && a.arglist == arglist
  }

  /** One action for each plug. */
  predicate Singlets(dev: Device, acts: seq<Action>, com: Com, plugs: seq<Plug>, clientId: nat, arglist: ArgList) {
    |acts| == |plugs| && forall i :: 0 <= i < |acts| ==> IsFor(dev, acts[i], com, [plugs[i]], clientId, arglist)
  }

  /** The actions queued for a command whose targets on the device are tg. */
  predicate ChosenFor(dev: Device, added: seq<Action>, com: Com, tg: seq<Plug>, clientId: nat, arglist: ArgList) {
    var all, ranged := AllScript(dev, com), RangedScript(dev, com);
    if (|tg| == |dev.plugs| || com.Query()) && all.Some?
    then |added| == 1 && IsFor(dev, added[0], all.value, [], clientId, arglist)
    else if ranged.Some? then |added| == 1 && IsFor(dev, added[0], ranged.value, tg, clientId, arglist)
    else if com in dev.scripts then Singlets(dev, added, com, tg, clientId, arglist)
    else added == []
  }

  /** The plugs that an action works on: an empty list stands for all. */
  function PlugsOf(dev: Device, a: Action): seq<Plug> {
    if a.plugs == [] then dev.plugs else a.plugs
  }

  function Covered(dev: Device, acts: seq<Action>): seq<Plug> {
    if |acts| == 0 then [] else PlugsOf(dev, acts[0]) + Covered(dev, acts[1..])
  }

  lemma {:induction false} SingletsCover(dev: Device, acts: seq<Action>, com: Com, plugs: seq<Plug>, clientId: nat, arglist: ArgList)
    requires Singlets(dev, acts, com, plugs, clientId, arglist)
    ensures Covered(dev, acts) == plugs
  {
    if |acts| > 0 {
      SingletsCover(dev, acts[1..], com, plugs[1..], clientId, arglist);
    }
  }

  /** Targeting is exact: the actions queued for a command that is no query cover the plugs
      whose nodes are targets, each once and in order, and the script for all plugs is chosen
      only when every plug of the device is a target. */
  lemma CoveredExactly(dev: Device, added: seq<Action>, com: Com, rs: seq<Range>, clientId: nat, arglist: ArgList)
    requires HostLists.AllValid(rs) && com.Request() && !com.Query()
    requires ChosenFor(dev, added, com, Targeted(dev.plugs, rs), clientId, arglist)
    requires Targeted(dev.plugs, rs) != []
    ensures added != [] ==> Covered(dev, added) == Targeted(dev.plugs, rs)
    ensures added == [] <==>
      (com !in dev.scripts && RangedScript(dev, com).None? && (AllScript(dev, com).None? || Targeted(dev.plugs, rs) != dev.plugs))
    ensures forall i :: 0 <= i < |added| && added[i].plugs == [] ==> Targeted(dev.plugs, rs) == dev.plugs
  {
    hide Hit, Targeted;
    var tg := Targeted(dev.plugs, rs);
    if |tg| == |dev.plugs| { TargetedAll(dev.plugs, rs); }
    if (|tg| == |dev.plugs| || com.Query()) && AllScript(dev, com).Some? {
      assert added == [added[0]] && added[1..] == [];
    } else if RangedScript(dev, com).Some? {
      assert added == [added[0]] && added[1..] == [];
    } else if com in dev.scripts {
      SingletsCover(dev, added, com, tg, clientId, arglist);
    }
  }

  /** A single action of the command, on its way into a queue. */
  method Create(dev: Device, com: Com, plugs: seq<Plug>, clientId: nat, arglist: ArgList) returns (act: Action)
    requires dev.ScriptsOk() && com in dev.scripts && !com.Internal() && arglist.refcount > 0
    modifies arglist`refcount
    ensures fresh(act) && IsFor(dev, act, com, plugs, clientId, arglist) && act.Queued(dev.plugs) && AllNew([act])
    ensures arglist.refcount == old(arglist.refcount) + 1
  {
    act := new Action(com, dev.scripts[com], plugs, true, clientId, arglist);
  }

  method AddSinglet(dev: Device, acts: seq<Action>, com: Com, plug: Plug, ghost ps: seq<Plug>, clientId: nat, arglist: ArgList)
    returns (acts': seq<Action>)
    requires dev.ScriptsOk() && com in dev.scripts && !com.Internal() && arglist.refcount > 0
    requires QueueOk(dev.plugs, acts) && AllNew(acts) && Singlets(dev, acts, com, ps, clientId, arglist)
    modifies arglist`refcount
    ensures QueueOk(dev.plugs, acts') && AllNew(acts') && Singlets(dev, acts', com, ps + [plug], clientId, arglist)
    ensures |acts'| == |acts| + 1 && acts <= acts' && fresh(acts'[|acts|])
    ensures arglist.refcount == old(arglist.refcount) + 1
  {
    hide QueueOk, AllNew, Action.Queued, IsFor;
    var act := Create(dev, com, [plug], clientId, arglist);
    QueueOne(dev.plugs, act);
    QueueAppend(dev.plugs, acts, [act]);
    AllNewAppend(acts, [act]);
    acts' := acts + [act];
  }

  /** The loop over the plugs of `_enqueue_targetted_actions`. */
  method CollectTargets(dev: Device, com: Com, hl: HostLists.HostList, clientId: nat, arglist: ArgList)
    returns (all: bool, ranged: seq<Plug>, newActs: seq<Action>)
    requires dev.ScriptsOk() && com.Request() && hl.Valid() && arglist.refcount > 0
    modifies hl`hr, arglist`refcount
    ensures hl.Valid() && hl.Names() == old(hl.Names()) && HostLists.SameList(old(hl.hr), hl.hr)
    ensures ranged == Targeted(dev.plugs, old(hl.hr)) && all == (|ranged| == |dev.plugs|)
    ensures if com in dev.scripts then Singlets(dev, newActs, com, ranged, clientId, arglist) else newActs == []
    ensures QueueOk(dev.plugs, newActs) && AllNew(newActs) && forall i :: 0 <= i < |newActs| ==> fresh(newActs[i])
    ensures arglist.refcount == old(arglist.refcount) + |newActs|
  {
    hide HostLists.ListNames, HostLists.AllValid, Targeted, Hit, QueueOk, AllNew, Singlets;
    ghost var was := hl.hr;
    all, ranged, newActs := true, [], [];
    TargetedNone(dev.plugs, was);
    NoSinglets(dev, com, clientId, arglist);
    var i := 0;
    while i < |dev.plugs|
      invariant i <= |dev.plugs| && hl.Valid() && hl.Names() == old(hl.Names()) && HostLists.SameList(was, hl.hr)
      invariant ranged == Targeted(dev.plugs[..i], was) && |ranged| <= i && all == (|ranged| == i)
      invariant if com in dev.scripts then Singlets(dev, newActs, com, ranged, clientId, arglist) else newActs == []
      invariant QueueOk(dev.plugs, newActs) && AllNew(newActs) && forall i :: 0 <= i < |newActs| ==> fresh(newActs[i])
      invariant arglist.refcount == old(arglist.refcount) + |newActs|
    {
      var plug := dev.plugs[i];
      TargetedSnoc(dev.plugs, was, i);
      var hit := IsHit(plug, hl, was);
      i := i + 1;
      if !hit {
        all := false;
      } else {
        if com in dev.scripts {
          newActs := AddSinglet(dev, newActs, com, plug, ranged, clientId, arglist);
        }
        ranged := ranged + [plug];
      }
    }
    assert dev.plugs[..i] == dev.plugs;
  }

  lemma TargetedNone(ps: seq<Plug>, rs: seq<Range>)
    requires HostLists.AllValid(rs)
    ensures Targeted(ps[..0], rs) == []
  {
  }

  lemma NoSinglets(dev: Device, com: Com, clientId: nat, arglist: ArgList)
    ensures QueueOk(dev.plugs, []) && AllNew([])
    ensures com in dev.scripts ==> Singlets(dev, [], com, [], clientId, arglist)
  {
  }

  /** Actions that were made in vain let go of the result list. */
  method Discard(acts: seq<Action>, arglist: ArgList)
    requires arglist.refcount > |acts|
    modifies arglist`refcount
    ensures arglist.refcount == old(arglist.refcount) - |acts|
  {
    for i := 0 to |acts|
      invariant arglist.refcount == old(arglist.refcount) - i
    {
      arglist.Unlink();
    }
  }

  /** One action for all or several plugs goes into the queue. */
  method QueueSingle(dev: Device, com: Com, plugs: seq<Plug>, clientId: nat, arglist: ArgList) returns (ghost added: seq<Action>)
    requires dev.ScriptsOk() && com in dev.scripts && !com.Internal() && arglist.refcount > 0
    modifies dev`acts, arglist`refcount
    ensures dev.acts == old(dev.acts) + added && |added| == 1 && fresh(added[0])
    ensures IsFor(dev, added[0], com, plugs, clientId, arglist) && QueueOk(dev.plugs, added) && AllNew(added)
    ensures arglist.refcount == old(arglist.refcount) + 1
  {
    hide QueueOk, AllNew, Action.Queued, IsFor;
    var act := Create(dev, com, plugs, clientId, arglist);
    added := [act];
    QueueOne(dev.plugs, act);
    dev.acts := dev.acts + [act];
  }

  /** The choice that ends `_enqueue_targetted_actions`: the script for all plugs, the one for
      several, or an action for each. */
  method Choose(dev: Device, com: Com, all: bool, ranged: seq<Plug>, newActs: seq<Action>, clientId: nat, arglist: ArgList)
    returns (count: nat, ghost added: seq<Action>)
    requires dev.ScriptsOk() && com.Request() && arglist.refcount > |newActs| && all == (|ranged| == |dev.plugs|)
    requires if com in dev.scripts then Singlets(dev, newActs, com, ranged, clientId, arglist) else newActs == []
    requires QueueOk(dev.plugs, newActs) && AllNew(newActs)
    modifies dev`acts, arglist`refcount
    ensures dev.acts == old(dev.acts) + added && count == |added| && QueueOk(dev.plugs, added) && AllNew(added)
    ensures ChosenFor(dev, added, com, ranged, clientId, arglist)
    ensures added == newActs || (|added| == 1 && fresh(added[0]))
    ensures arglist.refcount == old(arglist.refcount) - |newActs| + count
  {
    hide QueueOk, AllNew, Action.Queued, IsFor, Singlets;
    count, added := 0, [];
    if all || com.Query() {
      var ncom := AllScript(dev, com);
      if ncom.Some? {
        added := QueueSingle(dev, ncom.value, [], clientId, arglist);
        count := count + 1;
      }
    }
    if count == 0 {
      var ncom := RangedScript(dev, com);
      if ncom.Some? {
        added := QueueSingle(dev, ncom.value, ranged, clientId, arglist);
        count := count + 1;
      }
    }
    if count == 0 {
      added := newActs;
      dev.acts := dev.acts + newActs;
      count := count + |newActs|;
    } else {
      Discard(newActs, arglist);
    }
  }

  /** `_enqueue_targetted_actions` */
  method EnqueueTargetted(dev: Device, com: Com, hl: HostLists.HostList, clientId: nat, arglist: ArgList)
    returns (count: nat, ghost added: seq<Action>)
    requires dev.Valid() && com.Request() && hl.Valid() && arglist.refcount > 0
    modifies dev`acts, hl`hr, arglist`refcount
    ensures dev.Valid() && dev.acts == old(dev.acts) + added && count == |added|
    ensures ChosenFor(dev, added, com, Targeted(dev.plugs, old(hl.hr)), clientId, arglist)
    ensures AllNew(added) && forall i :: 0 <= i < |added| ==> fresh(added[i])
    ensures arglist.refcount == old(arglist.refcount) + count
    ensures hl.Valid() && hl.Names() == old(hl.Names()) && HostLists.SameList(old(hl.hr), hl.hr)
  {
    hide HostLists.ListNames, HostLists.AllValid, Targeted, QueueOk, AllNew, Refs, Action.Queued, IsFor, Singlets, ChosenFor;
    ghost var was := dev.acts;
    var all, ranged, newActs := CollectTargets(dev, com, hl, clientId, arglist);
    count, added := Choose(dev, com, all, ranged, newActs, clientId, arglist);
    QueueAppend(dev.plugs, was, added);
    ChosenParts(dev, added, com, ranged, clientId, arglist);
    HeldGrown(was, added, arglist);
  }

  lemma ChosenParts(dev: Device, added: seq<Action>, com: Com, tg: seq<Plug>, clientId: nat, arglist: ArgList)
    requires ChosenFor(dev, added, com, tg, clientId, arglist) && com.Request()
    ensures forall i :: 0 <= i < |added| ==>
      added[i].arglist == arglist && added[i].callback && added[i].clientId == clientId && !added[i].com.Internal()
  {
  }

  /** The result list of a command has gained a holder for each action added. */
  lemma HeldGrown(acts: seq<Action>, added: seq<Action>, arglist: ArgList)
    requires forall l :: l in Lists(acts) ==> l.refcount >= Refs(acts, l) + (if l == arglist then |added| else 0)
    requires arglist.refcount >= |added| && forall i :: 0 <= i < |added| ==> added[i].arglist == arglist
    ensures AllHeld(acts + added)
  {
    hide Refs;
    forall l | l in Lists(acts + added)
      ensures l.refcount >= Refs(acts + added, l)
    {
      CountsConcat(acts, added);
      RefsBound(added, l);
      if l in Lists(acts) {
        if l != arglist { NoRefs(added, l); }
      } else {
        NoRefs(acts, l);
        if l != arglist { NoRefs(added, l); }
      }
    }
  }

  lemma {:induction false} RefsBound(acts: seq<Action>, l: ArgList)
    ensures Refs(acts, l) <= |acts|
  {
    if |acts| > 0 { RefsBound(acts[1..], l); }
  }
}
