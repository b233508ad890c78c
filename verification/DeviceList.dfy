/** All the devices together, and the result lists they share. */
module DeviceList {
  import opened Scripts
  import opened ArgLists
  import opened Actions
  import opened Devices
  import opened Targeting
  import HostLists

  // ---- What the queues owe together

  ghost function Queues(devs: seq<Device>): (qs: seq<seq<Action>>)
    reads devs
    ensures |qs| == |devs| && forall i :: 0 <= i < |devs| ==> qs[i] == devs[i].acts
  {
    seq(|devs|, i requires 0 <= i < |devs| reads devs => devs[i].acts)
  }

  ghost function OwedAll(qs: seq<seq<Action>>, id: nat): nat {
    if |qs| == 0 then 0 else Owed(qs[0], id) + OwedAll(qs[1..], id)
  }

  ghost function RefsAll(qs: seq<seq<Action>>, l: ArgList): nat {
    if |qs| == 0 then 0 else Refs(qs[0], l) + RefsAll(qs[1..], l)
  }

  lemma {:induction false} OwedUpdate(qs: seq<seq<Action>>, i: nat, q: seq<Action>, id: nat)
    requires i < |qs|
    ensures OwedAll(qs[i := q], id) == OwedAll(qs, id) - Owed(qs[i], id) + Owed(q, id)
    ensures OwedAll(qs, id) >= Owed(qs[i], id)
  {
    hide Owed;
    if i == 0 {
      assert qs[0 := q][1..] == qs[1..];
    } else {
      assert qs[i := q][1..] == qs[1..][i - 1 := q];
      OwedUpdate(qs[1..], i - 1, q, id);
    }
  }

  lemma {:induction false} RefsUpdate(qs: seq<seq<Action>>, i: nat, q: seq<Action>, l: ArgList)
    requires i < |qs|
    ensures RefsAll(qs[i := q], l) == RefsAll(qs, l) - Refs(qs[i], l) + Refs(q, l)
    ensures RefsAll(qs, l) >= Refs(qs[i], l)
  {
    hide Refs;
    if i == 0 {
      assert qs[0 := q][1..] == qs[1..];
    } else {
      assert qs[i := q][1..] == qs[1..][i - 1 := q];
      RefsUpdate(qs[1..], i - 1, q, l);
    }
  }

  /** Every live result list has one holder for each action that refers to it, and `base`
      others; and the queues refer to live lists only. */
  ghost predicate Accounted(qs: seq<seq<Action>>, base: map<ArgList, nat>)
    reads base.Keys
  {
    && (forall l :: l in base ==> l.refcount == base[l] + RefsAll(qs, l))
    && forall i :: 0 <= i < |qs| ==> Lists(qs[i]) <= base.Keys
  }

  lemma AccountedHeld(qs: seq<seq<Action>>, base: map<ArgList, nat>, i: nat)
    requires Accounted(qs, base) && i < |qs|
    ensures AllHeld(qs[i])
  {
    hide Refs, RefsAll, Lists;
    forall l | l in Lists(qs[i])
      ensures l.refcount >= Refs(qs[i], l)
    {
      RefsUpdate(qs, i, qs[i], l);
    }
  }

  /** One queue has changed, and each list has changed by the references it gained or lost. */
  lemma AccountedUpdate(qs: seq<seq<Action>>, i: nat, q: seq<Action>, base: map<ArgList, nat>)
    requires i < |qs| && Lists(q) <= base.Keys
    requires forall k :: 0 <= k < |qs| ==> Lists(qs[k]) <= base.Keys
    requires forall l :: l in base ==> l.refcount - Refs(q, l) == base[l] + RefsAll(qs, l) - Refs(qs[i], l)
    ensures Accounted(qs[i := q], base)
  {
    hide Refs, RefsAll, Lists;
    forall l | l in base
      ensures l.refcount == base[l] + RefsAll(qs[i := q], l)
    {
      RefsUpdate(qs, i, q, l);
    }
  }

  // ---- The devices

  ghost predicate Apart(p: seq<Action>, q: seq<Action>) {
    forall a :: a in p ==> a !in q
  }

  ghost function ActsOf(devs: seq<Device>): set<Action>
    reads devs
  {
    set i, k | 0 <= i < |devs| && 0 <= k < |devs[i].acts| :: devs[i].acts[k]
  }

  lemma ActsAllocated(devs: seq<Device>)
    ensures forall a :: a in ActsOf(devs) ==> allocated(a)
  {
  }

  /** Where every device stands. */
  ghost function Stands(devs: seq<Device>): (ss: seq<Stand>)
    reads devs, ActsOf(devs)
    ensures |ss| == |devs| && forall i :: 0 <= i < |devs| ==> ss[i] == devs[i].Standing()
  {
    seq(|devs|, i requires 0 <= i < |devs| reads devs, ActsOf(devs) => devs[i].Standing())
  }

  /** On every device, all actions that were waiting still are or have ended, and have gone on
      from where they were. */
  ghost predicate AllCarried(s: seq<Stand>, t: seq<Stand>) {
    |s| == |t| && forall i :: 0 <= i < |s| ==> Carried(s[i], t[i])
  }

  lemma AllCarriedSame(s: seq<Stand>)
    ensures AllCarried(s, s)
  {
    hide Carried;
    forall i | 0 <= i < |s|
      ensures Carried(s[i], s[i])
    {
      CarriedSame(s[i]);
    }
  }

  lemma AllCarriedTrans(s: seq<Stand>, t: seq<Stand>, u: seq<Stand>)
    requires AllCarried(s, t) && AllCarried(t, u)
    ensures AllCarried(s, u)
  {
    hide Carried;
    forall i | 0 <= i < |s|
      ensures Carried(s[i], u[i])
    {
      CarriedTrans(s[i], t[i], u[i]);
    }
  }

  lemma AllCarriedOne(s: seq<Stand>, t: seq<Stand>, k: nat)
    requires |s| == |t| && k < |s| && Carried(s[k], t[k]) && forall i :: 0 <= i < |s| && i != k ==> t[i] == s[i]
    ensures AllCarried(s, t)
  {
    hide Carried;
    forall i | 0 <= i < |s|
      ensures Carried(s[i], t[i])
    {
      if i != k { CarriedSame(s[i]); }
    }
  }

  lemma StandsAre(devs: seq<Device>)
    ensures |Stands(devs)| == |devs| && forall i :: 0 <= i < |devs| ==> Stands(devs)[i] == devs[i].Standing()
  {
  }

  ghost predicate FleetOk(devs: seq<Device>)
    reads devs, ActsOf(devs)
  {
    && Distinct(devs) && (forall i :: 0 <= i < |devs| ==> devs[i].Core())
    && forall i, j :: 0 <= i < j < |devs| ==> Apart(devs[i].acts, devs[j].acts)
  }

  /** `dev_check_actions`: whether every device with targets implements the command. */
  method CheckActions(devs: seq<Device>, com: Com, hl: HostLists.HostList) returns (valid: bool)
    requires hl.Valid()
    modifies hl`hr
    ensures hl.Valid() && hl.Names() == old(hl.Names()) && HostLists.SameList(old(hl.hr), hl.hr)
    ensures valid <==> forall i :: 0 <= i < |devs| && Targeted(devs[i].plugs, old(hl.hr)) != [] ==> Implements(devs[i], com)
  {
    hide HostLists.ListNames, HostLists.AllValid, Targeted, Implements;
    ghost var was := hl.hr;
    valid := true;
    for i := 0 to |devs|
      invariant hl.Valid() && hl.Names() == old(hl.Names()) && HostLists.SameList(was, hl.hr)
      invariant valid && forall k :: 0 <= k < i && Targeted(devs[k].plugs, was) != [] ==> Implements(devs[k], com)
    {
      TargetedSame(devs[i].plugs, was, hl.hr);
      var needs := NeedsDevice(devs[i], hl);
      if needs {
        var ok := ImplementsIt(devs[i], com);
        if !ok {
          valid := false;
          return;
        }
      }
    }
  }

  method ImplementsIt(dev: Device, com: Com) returns (ok: bool)
    ensures ok == Implements(dev, com)
  {
    ok := com in dev.scripts || AllScript(dev, com) != None || RangedScript(dev, com) != None;
  }

  lemma {:induction false} TargetedSame(ps: seq<Plug>, was: seq<Range>, rs: seq<Range>)
    requires HostLists.AllValid(was) && HostLists.SameList(was, rs)
    ensures HostLists.AllValid(rs) && Targeted(ps, rs) == Targeted(ps, was)
  {
    HostLists.SameListNames(was, rs);
    if |ps| > 0 {
      HitSame(ps[0], was, rs);
      TargetedSame(ps[1..], was, rs);
    }
  }

  /** One device has been worked on, and its queue holds old actions and fresh ones. */
  lemma FleetUpdate(devs: seq<Device>, was: seq<seq<Action>>, i: nat, new_: set<Action>)
    requires i < |devs| == |was| && Distinct(devs) && forall j :: 0 <= j < |devs| ==> devs[j].Core()
    requires forall j, k :: 0 <= j < k < |was| ==> Apart(was[j], was[k])
    requires forall j :: 0 <= j < |devs| && j != i ==> devs[j].acts == was[j]
    requires forall k :: 0 <= k < |devs[i].acts| ==> devs[i].acts[k] in was[i] || devs[i].acts[k] in new_
    requires forall j :: 0 <= j < |was| ==> forall a :: a in was[j] ==> a !in new_
    ensures FleetOk(devs) && Queues(devs) == was[i := devs[i].acts]
  {
    hide Device.Core;
    forall j, k | 0 <= j < k < |devs|
      ensures Apart(devs[j].acts, devs[k].acts)
    {
      assert Apart(was[j], was[k]);
    }
  }

  lemma FleetRefined(devs: seq<Device>)
    requires FleetOk(devs)
    ensures forall i :: 0 <= i < |devs| ==> Refined(devs[i])
  {
    hide Device.Core, Refined;
    forall i | 0 <= i < |devs|
      ensures Refined(devs[i])
    {
      CoreRefined(devs[i]);
    }
  }

  lemma FleetAt(devs: seq<Device>, i: nat)
    requires FleetOk(devs) && i < |devs|
    ensures devs[i].Core()
    ensures forall j :: 0 <= j < |devs| && j != i ==>
      devs[j] != devs[i] && devs[j].Core() && Apart(devs[j].acts, devs[i].acts)
    ensures forall j, k :: 0 <= j < |devs| && j != i && 0 <= k < |devs[j].acts| ==> devs[j].acts[k] !in devs[i].acts
    ensures forall j, k :: 0 <= j < k < |devs| ==> Apart(Queues(devs)[j], Queues(devs)[k])
  {
    hide Device.Core;
    forall j | 0 <= j < |devs| && j != i
      ensures devs[j] != devs[i] && Apart(devs[j].acts, devs[i].acts)
    {
      if j > i { assert Apart(devs[i].acts, devs[j].acts); }
    }
  }

  /** No device has an action that could go on, but for logins after a reconnect. */
  ghost predicate AllIdle(devs: seq<Device>)
    reads devs, ActsOf(devs)
  {
    forall i :: 0 <= i < |devs| ==> devs[i].Idle()
  }

  /** What a pass over one device means to the others. */
  method PassOver(dev: Device, flags: Option<Flags>) returns (done: seq<Completion>)
    requires dev.Valid() && (flags.Some? ==> dev.connectState != NotConnected)
    modifies dev, dev.acts, Lists(dev.acts)
    ensures dev.Valid() && dev.Idle() && Carried(old(dev.Standing()), dev.Standing())
    ensures forall id :: Owed(dev.acts, id) + CallsTo(done, id) == Owed(old(dev.acts), id)
    ensures Lists(dev.acts) <= old(Lists(dev.acts))
    ensures forall l :: l in old(Lists(dev.acts)) ==> l.refcount - Refs(dev.acts, l) == old(l.refcount) - Refs(old(dev.acts), l)
    ensures forall k :: 0 <= k < |dev.acts| ==> dev.acts[k] in old(dev.acts) || fresh(dev.acts[k])
  {
    hide *;
    ghost var ended, failed, mid;
    done, ended, failed, mid := dev.PostPoll(flags);
  }

  /** The fleet stays in order. */
  method PassAt(devs: seq<Device>, i: nat, flags: Option<Flags>) returns (done: seq<Completion>)
    requires FleetOk(devs) && i < |devs| && AllHeld(devs[i].acts)
    requires flags.Some? ==> devs[i].connectState != NotConnected
    modifies devs[i], devs[i].acts, Lists(devs[i].acts)
    ensures FleetOk(devs) && Queues(devs) == old(Queues(devs))[i := devs[i].acts] && AllCarried(old(Stands(devs)), Stands(devs))
    ensures forall id :: Owed(devs[i].acts, id) + CallsTo(done, id) == Owed(old(devs[i].acts), id)
    ensures Lists(devs[i].acts) <= old(Lists(devs[i].acts))
    ensures forall l :: l in old(Lists(devs[i].acts)) ==>
      l.refcount - Refs(devs[i].acts, l) == old(l.refcount) - Refs(old(devs[i].acts), l)
    ensures forall k :: 0 <= k < |devs[i].acts| ==> devs[i].acts[k] in old(devs[i].acts) || fresh(devs[i].acts[k])
    ensures forall j :: 0 <= j < |devs| && j != i ==> devs[j].acts == old(devs[j].acts) && devs[j].connectState == old(devs[j].connectState)
    ensures devs[i].Idle() && forall j :: 0 <= j < |devs| && j != i ==> devs[j].Idle() == old(devs[j].Idle())
  {
    hide Refs, Owed, CallsTo, Device.Core, AllHeld, Queues, Device.Idle;
    hide Stands, Carried, AllCarried, Device.Standing, Apart;
    ghost var was, stands := Queues(devs), Stands(devs);
    StandsAre(devs);
    FleetAt(devs, i);
    QueuesAre(devs);
    done := PassOver(devs[i], flags);
    assert forall j :: 0 <= j < |devs| && j != i ==> devs[j].Core();
    FleetUpdate(devs, was, i, set a | a in devs[i].acts && a !in was[i]);
    StandsAre(devs);
    AllCarriedOne(stands, Stands(devs), i);
  }

  /** One device of the loop in `dev_post_poll`: every callback owed is still owed or has been
      made, and every result list stays accounted for. */
  method PollOne(devs: seq<Device>, i: nat, flags: Option<Flags>, ghost base: map<ArgList, nat>) returns (done: seq<Completion>)
    requires FleetOk(devs) && Accounted(Queues(devs), base) && i < |devs|
    requires flags.Some? ==> devs[i].connectState != NotConnected
    modifies devs[i], devs[i].acts, Lists(devs[i].acts)
    ensures FleetOk(devs) && Accounted(Queues(devs), base)
    ensures forall id :: OwedAll(Queues(devs), id) + CallsTo(done, id) == OwedAll(old(Queues(devs)), id)
    ensures forall k :: 0 <= k < |devs[i].acts| ==> devs[i].acts[k] in old(devs[i].acts) || fresh(devs[i].acts[k])
    ensures forall j :: 0 <= j < |devs| && j != i ==> devs[j].acts == old(devs[j].acts) && devs[j].connectState == old(devs[j].connectState)
    ensures AllCarried(old(Stands(devs)), Stands(devs))
    ensures devs[i].Idle() && forall j :: 0 <= j < |devs| && j != i ==> devs[j].Idle() == old(devs[j].Idle())
  {
    hide Refs, RefsAll, Owed, OwedAll, CallsTo, Device.Core, AllHeld, Queues, Device.Idle, FleetOk, Stands, AllCarried;
    ghost var was := Queues(devs);
    QueuesAre(devs);
    AccountedHeld(was, base, i);
    done := PassAt(devs, i, flags);
    AccountedPass(was, i, devs[i].acts, base);
    OwedPass(was, i, devs[i].acts, done);
  }

  lemma OwedPass(qs: seq<seq<Action>>, i: nat, q: seq<Action>, done: seq<Completion>)
    requires i < |qs| && forall id :: Owed(q, id) + CallsTo(done, id) == Owed(qs[i], id)
    ensures forall id :: OwedAll(qs[i := q], id) + CallsTo(done, id) == OwedAll(qs, id)
  {
    hide Owed, OwedAll, CallsTo;
    forall id
      ensures OwedAll(qs[i := q], id) + CallsTo(done, id) == OwedAll(qs, id)
    {
      OwedUpdate(qs, i, q, id);
    }
  }

  /** A pass over one queue, which lets go of lists of that queue only. */
  lemma AccountedPass(qs: seq<seq<Action>>, i: nat, q: seq<Action>, base: map<ArgList, nat>)
    requires i < |qs| && Lists(q) <= Lists(qs[i]) && forall k :: 0 <= k < |qs| ==> Lists(qs[k]) <= base.Keys
    requires forall l :: l in Lists(qs[i]) ==> l.refcount - Refs(q, l) == base[l] + RefsAll(qs, l) - Refs(qs[i], l)
    requires forall l :: l in base && l !in Lists(qs[i]) ==> l.refcount == base[l] + RefsAll(qs, l)
    ensures Accounted(qs[i := q], base)
  {
    hide Refs, RefsAll, Lists;
    RefsOutside(qs[i], base.Keys);
    RefsOutside(q, base.Keys);
    AccountedUpdate(qs, i, q, base);
  }

  lemma QueuesAre(devs: seq<Device>)
    ensures |Queues(devs)| == |devs| && forall i :: 0 <= i < |devs| ==> Queues(devs)[i] == devs[i].acts
  {
  }

  lemma RefsOutside(q: seq<Action>, ls: set<ArgList>)
    ensures forall l :: l in ls && l !in Lists(q) ==> Refs(q, l) == 0
  {
    forall l | l in ls && l !in Lists(q)
      ensures Refs(q, l) == 0
    {
      NoRefs(q, l);
    }
  }

  // ---- Commands

  /** What one device queues for a command whose targets are rs. */
  predicate QueuedFor(dev: Device, added: seq<Action>, com: Com, rs: seq<Range>, clientId: nat, arglist: ArgList)
    requires HostLists.AllValid(rs)
  {
    if Implements(dev, com) && Targeted(dev.plugs, rs) != []
    then ChosenFor(dev, added, com, Targeted(dev.plugs, rs), clientId, arglist)
    else added == []
  }

  lemma QueuedParts(dev: Device, added: seq<Action>, com: Com, rs: seq<Range>, clientId: nat, arglist: ArgList)
    requires HostLists.AllValid(rs) && QueuedFor(dev, added, com, rs, clientId, arglist) && com.Request()
    ensures forall id :: Owed(added, id) == if id == clientId then |added| else 0
    ensures forall l :: Refs(added, l) == if l == arglist then |added| else 0
    ensures Lists(added) <= {arglist}
  {
    hide Implements, Targeted, ChosenFor;
    if added != [] { ChosenParts(dev, added, com, Targeted(dev.plugs, rs), clientId, arglist); }
    OwnedCounts(added, clientId, arglist);
  }

  lemma {:induction false} OwnedCounts(acts: seq<Action>, clientId: nat, arglist: ArgList)
    requires forall i :: 0 <= i < |acts| ==> acts[i].arglist == arglist && acts[i].callback && acts[i].clientId == clientId
    ensures forall id :: Owed(acts, id) == if id == clientId then |acts| else 0
    ensures forall l :: Refs(acts, l) == if l == arglist then |acts| else 0
  {
    if |acts| > 0 { OwnedCounts(acts[1..], clientId, arglist); }
  }

  /** What is added to the queue leaves the actions in it alone. */
  method QueueTargets(dev: Device, com: Com, hl: HostLists.HostList, clientId: nat, arglist: ArgList)
    returns (count: nat, ghost added: seq<Action>)
    requires dev.Valid() && com.Request() && hl.Valid() && arglist.refcount > 0
    modifies dev`acts, hl`hr, arglist`refcount
    ensures dev.Core() && dev.acts == old(dev.acts) + added && count == |added|
    ensures ChosenFor(dev, added, com, Targeted(dev.plugs, old(hl.hr)), clientId, arglist)
    ensures AllNew(added) && forall i :: 0 <= i < |added| ==> fresh(added[i])
    ensures arglist.refcount == old(arglist.refcount) + count
    ensures hl.Valid() && hl.Names() == old(hl.Names()) && HostLists.SameList(old(hl.hr), hl.hr)
    ensures Carried(old(dev.Standing()), dev.Standing())
  {
    hide HostLists.ListNames, HostLists.AllValid, HostLists.SameList, Targeted, ChosenFor, Refs, QueueOk, AllHeld, AllNew, Faithful, Carried;
    hide Device.Core;
    ghost var before := dev.Standing();
    count, added := EnqueueTargetted(dev, com, hl, clientId, arglist);
    CarriedMore(before, dev.Standing());
  }

  /** One device of the loop in `dev_enqueue_actions`. */
  method EnqueueOne(dev: Device, com: Com, hl: HostLists.HostList, ghost rs: seq<Range>, clientId: nat, arglist: ArgList)
    returns (count: nat, ghost added: seq<Action>)
    requires dev.Valid() && com.Request() && arglist.refcount > 0
    requires hl.Valid() && HostLists.AllValid(rs) && HostLists.SameList(rs, hl.hr)
    modifies dev`acts, dev`retryCount, hl`hr, arglist`refcount
    ensures dev.Core() && dev.acts == old(dev.acts) + added && count == |added|
    ensures QueuedFor(dev, added, com, rs, clientId, arglist) && AllNew(added) && forall i :: 0 <= i < |added| ==> fresh(added[i])
    ensures arglist.refcount == old(arglist.refcount) + count
    ensures hl.Valid() && hl.Names() == old(hl.Names()) && HostLists.SameList(rs, hl.hr)
    ensures dev.retryCount == if count > 0 && dev.connectState != Connected then 0 else old(dev.retryCount)
    ensures Carried(old(dev.Standing()), dev.Standing())
  {
    hide HostLists.ListNames, HostLists.AllValid, HostLists.SameList, Targeted, Implements, ChosenFor;
    hide Refs, QueueOk, AllNew, Faithful, Carried, Device.Standing, AllHeld;
    assert forall l :: l in Lists(dev.acts) ==> allocated(l);
    count, added := 0, [];
    CarriedSame(dev.Standing());
    NoneNew();
    assert dev.acts + [] == dev.acts;
    var ok := ImplementsIt(dev, com);
    if !ok { return; }
    ghost var was := hl.hr;
    TargetedSame(dev.plugs, rs, was);
    var needs := NeedsDevice(dev, hl);
    ghost var now := hl.hr;
    SameListTrans(rs, was, now);
    if !needs { return; }
    TargetedSame(dev.plugs, rs, now);
    count, added := QueueTargets(dev, com, hl, clientId, arglist);
    SameListTrans(rs, now, hl.hr);
    if count > 0 && dev.connectState != Connected {
      dev.retryCount := 0;
    }
  }

  lemma SameListSelf(a: seq<Range>)
    ensures HostLists.SameList(a, a)
  {
  }

  lemma SameListTrans(a: seq<Range>, b: seq<Range>, c: seq<Range>)
    requires HostLists.SameList(a, b) && HostLists.SameList(b, c)
    ensures HostLists.SameList(a, c)
  {
  }

  lemma NoneNew()
    ensures AllNew([])
  {
  }

  /** Every device has queued, behind what it had, what the targets rs need there. */
  ghost predicate AllQueued(devs: seq<Device>, was: seq<seq<Action>>, now: seq<seq<Action>>, com: Com, rs: seq<Range>,
                            clientId: nat, arglist: ArgList)
  {
    && HostLists.AllValid(rs) && |was| == |now| == |devs|
    && forall i :: 0 <= i < |devs| ==>
      was[i] <= now[i] && QueuedFor(devs[i], now[i][|was[i]|..], com, rs, clientId, arglist)
  }

  /** What a client's command has queued: its targets are the hosts named, and every device
      that holds one of them carries it out. */
  ghost predicate Dispatched(devs: seq<Device>, was: seq<seq<Action>>, now: seq<seq<Action>>, com: Com, hosts: seq<string>,
                             rs: seq<Range>, clientId: nat, arglist: ArgList)
  {
    && AllQueued(devs, was, now, com, rs, clientId, arglist) && HostLists.ListNames(rs) == hosts
    && forall i :: 0 <= i < |devs| && Targeted(devs[i].plugs, rs) != [] ==> Implements(devs[i], com)
  }

  lemma DispatchedIs(devs: seq<Device>, was: seq<seq<Action>>, now: seq<seq<Action>>, com: Com, rs: seq<Range>,
                     clientId: nat, arglist: ArgList)
    requires AllQueued(devs, was, now, com, rs, clientId, arglist)
    requires HostLists.AllValid(rs) && forall i :: 0 <= i < |devs| && Targeted(devs[i].plugs, rs) != [] ==> Implements(devs[i], com)
    ensures Dispatched(devs, was, now, com, HostLists.ListNames(rs), rs, clientId, arglist)
  {
    hide AllQueued, Implements, HostLists.AllValid, Targeted;
  }

  /** The first devices have queued what was added for them, and the others nothing yet. */
  ghost predicate AddedTo(devs: seq<Device>, was: seq<seq<Action>>, now: seq<seq<Action>>, added: seq<seq<Action>>, com: Com,
                          rs: seq<Range>, clientId: nat, arglist: ArgList)
  {
    && HostLists.AllValid(rs) && |was| == |now| == |devs| >= |added|
    && (forall i :: |added| <= i < |devs| ==> now[i] == was[i])
    && forall i :: 0 <= i < |added| ==> Behind(devs[i], was[i], now[i], added[i], com, rs, clientId, arglist)
  }

  ghost predicate Behind(dev: Device, was: seq<Action>, now: seq<Action>, added: seq<Action>, com: Com, rs: seq<Range>,
                         clientId: nat, arglist: ArgList)
    requires HostLists.AllValid(rs)
  {
    now == was + added && QueuedFor(dev, added, com, rs, clientId, arglist)
  }

  lemma BehindIs(dev: Device, was: seq<Action>, added: seq<Action>, com: Com, rs: seq<Range>, clientId: nat, arglist: ArgList)
    requires HostLists.AllValid(rs) && QueuedFor(dev, added, com, rs, clientId, arglist)
    ensures Behind(dev, was, was + added, added, com, rs, clientId, arglist)
  {
    hide QueuedFor;
  }

  lemma NoneAddedTo(devs: seq<Device>, was: seq<seq<Action>>, com: Com, rs: seq<Range>, clientId: nat, arglist: ArgList)
    requires HostLists.AllValid(rs) && |was| == |devs|
    ensures AddedTo(devs, was, was, [], com, rs, clientId, arglist) && Total([]) == 0
  {
  }

  lemma BehindParts(dev: Device, was: seq<Action>, now: seq<Action>, added: seq<Action>, com: Com, rs: seq<Range>,
                    clientId: nat, arglist: ArgList)
    requires HostLists.AllValid(rs) && Behind(dev, was, now, added, com, rs, clientId, arglist)
    ensures was <= now && now == was + added && QueuedFor(dev, now[|was|..], com, rs, clientId, arglist)
  {
    hide QueuedFor;
    assert now[|was|..] == added;
  }

  lemma AddedMore(devs: seq<Device>, was: seq<seq<Action>>, now: seq<seq<Action>>, added: seq<seq<Action>>, more: seq<Action>,
                  com: Com, rs: seq<Range>, clientId: nat, arglist: ArgList)
    requires AddedTo(devs, was, now, added, com, rs, clientId, arglist) && |added| < |devs|
    requires QueuedFor(devs[|added|], more, com, rs, clientId, arglist)
    ensures AddedTo(devs, was, now[|added| := now[|added|] + more], added + [more], com, rs, clientId, arglist)
    ensures Total(added + [more]) == Total(added) + |more|
  {
    hide QueuedFor, HostLists.AllValid, Total, Behind;
    TotalSnoc(added, more);
    BehindIs(devs[|added|], was[|added|], more, com, rs, clientId, arglist);
  }

  lemma TotalSnoc(added: seq<seq<Action>>, more: seq<Action>)
    ensures Total(added + [more]) == Total(added) + |more|
  {
    assert (added + [more])[..|added|] == added;
  }

  lemma AllQueuedOf(devs: seq<Device>, was: seq<seq<Action>>, now: seq<seq<Action>>, added: seq<seq<Action>>, com: Com, rs: seq<Range>,
                    clientId: nat, arglist: ArgList)
    requires AddedTo(devs, was, now, added, com, rs, clientId, arglist) && |added| == |devs|
    ensures forall i :: 0 <= i < |devs| ==> now[i] == was[i] + added[i]
    ensures AllQueued(devs, was, now, com, rs, clientId, arglist) && (Total(added) == 0 ==> now == was)
  {
    hide QueuedFor, HostLists.AllValid, Total, Behind;
    forall i | 0 <= i < |devs|
      ensures was[i] <= now[i] && QueuedFor(devs[i], now[i][|was[i]|..], com, rs, clientId, arglist)
      ensures now[i] == was[i] + added[i]
    {
      BehindParts(devs[i], was[i], now[i], added[i], com, rs, clientId, arglist);
    }
    if Total(added) == 0 { NoneAdded(was, now, added); }
  }

  lemma NoneAdded(was: seq<seq<Action>>, now: seq<seq<Action>>, added: seq<seq<Action>>)
    requires |was| == |now| == |added| && Total(added) == 0 && forall i :: 0 <= i < |was| ==> now[i] == was[i] + added[i]
    ensures now == was
  {
    hide Total;
    TotalZero(added);
    assert forall i :: 0 <= i < |was| ==> now[i] == was[i];
  }

  lemma {:induction false} TotalZero(added: seq<seq<Action>>)
    requires Total(added) == 0
    ensures forall i :: 0 <= i < |added| ==> added[i] == []
  {
    if |added| > 0 { TotalZero(added[..|added| - 1]); }
  }

  /** The number of actions added before device i. */
  ghost function Total(added: seq<seq<Action>>): nat {
    if |added| == 0 then 0 else Total(added[..|added| - 1]) + |added[|added| - 1]|
  }

  /** `dev_enqueue_actions`: every device queues what its targets need, the callbacks owed to
      the client grow by the number returned, and so do the holders of the result list. */
  method EnqueueActions(devs: seq<Device>, com: Com, hl: HostLists.HostList, clientId: nat, arglist: ArgList, ghost base: map<ArgList, nat>)
    returns (total: nat, ghost added: seq<seq<Action>>)
    requires FleetOk(devs) && Accounted(Queues(devs), base) && arglist in base && base[arglist] > 0
    requires com.Request() && hl.Valid()
    modifies devs`acts, devs`retryCount, hl`hr, arglist`refcount
    ensures FleetOk(devs) && Accounted(Queues(devs), base)
    ensures forall a :: a in ActsOf(devs) ==> a in old(ActsOf(devs)) || fresh(a)
    ensures hl.Valid() && hl.Names() == old(hl.Names())
    ensures |added| == |devs| && total == Total(added)
    ensures forall i :: 0 <= i < |devs| ==> devs[i].acts == old(devs[i].acts) + added[i]
    ensures AllQueued(devs, old(Queues(devs)), Queues(devs), com, old(hl.hr), clientId, arglist)
    ensures total == 0 ==> Queues(devs) == old(Queues(devs))
    ensures forall id :: OwedAll(Queues(devs), id) == OwedAll(old(Queues(devs)), id) + (if id == clientId then total else 0)
    ensures AllCarried(old(Stands(devs)), Stands(devs))
  {
    hide HostLists.ListNames, HostLists.AllValid, QueuedFor, Accounted, Refs, RefsAll, Owed, OwedAll, Device.Core, AllHeld, FleetOk;
    hide Stands, AllCarried, AllNew, AllQueued, HostLists.SameList, Total, AddedTo, Queues;
    SameListSelf(hl.hr);
    ghost var rs, was, stands := hl.hr, Queues(devs), Stands(devs);
    AllCarriedSame(stands);
    total, added := 0, [];
    QueuesAre(devs);
    NoneAddedTo(devs, was, com, rs, clientId, arglist);
    for i := 0 to |devs|
      invariant FleetOk(devs) && Accounted(Queues(devs), base)
      invariant hl.Valid() && hl.Names() == old(hl.Names()) && HostLists.SameList(rs, hl.hr)
      invariant forall a :: a in ActsOf(devs) ==> a in old(ActsOf(devs)) || fresh(a)
      invariant |added| == i && total == Total(added) && AllCarried(stands, Stands(devs))
      invariant AddedTo(devs, was, Queues(devs), added, com, rs, clientId, arglist)
      invariant forall id :: OwedAll(Queues(devs), id) == OwedAll(was, id) + (if id == clientId then total else 0)
    {
      ghost var more, before, mid := [], Stands(devs), Queues(devs);
      var count;
      count, more := EnqueueAt(devs, i, com, hl, rs, clientId, arglist, base);
      AllCarriedTrans(stands, before, Stands(devs));
      AddedMore(devs, was, mid, added, more, com, rs, clientId, arglist);
      total := total + count;
      added := added + [more];
    }
    QueuesAre(devs);
    AllQueuedOf(devs, was, Queues(devs), added, com, rs, clientId, arglist);
  }

  method EnqueueAt(devs: seq<Device>, i: nat, com: Com, hl: HostLists.HostList, ghost rs: seq<Range>, clientId: nat, arglist: ArgList,
                   ghost base: map<ArgList, nat>) returns (count: nat, ghost added: seq<Action>)
    requires i < |devs| && FleetOk(devs) && Accounted(Queues(devs), base) && arglist in base && base[arglist] > 0
    requires com.Request() && hl.Valid() && HostLists.AllValid(rs) && HostLists.SameList(rs, hl.hr)
    modifies {devs[i]}`acts, {devs[i]}`retryCount, hl`hr, arglist`refcount
    ensures FleetOk(devs) && Accounted(Queues(devs), base) && count == |added|
    ensures devs[i].acts == old(devs[i].acts) + added && AllNew(added) && QueuedFor(devs[i], added, com, rs, clientId, arglist)
    ensures |Queues(devs)| == |devs| && Queues(devs) == old(Queues(devs))[i := old(Queues(devs))[i] + added]
    ensures forall a :: a in ActsOf(devs) ==> a in old(ActsOf(devs)) || fresh(a)
    ensures hl.Valid() && hl.Names() == old(hl.Names()) && HostLists.SameList(rs, hl.hr)
    ensures forall j :: 0 <= j < |devs| && j != i ==> devs[j] != devs[i]
    ensures forall id :: OwedAll(Queues(devs), id) == OwedAll(old(Queues(devs)), id) + (if id == clientId then count else 0)
    ensures AllCarried(old(Stands(devs)), Stands(devs))
  {
    hide HostLists.ListNames, HostLists.AllValid, QueuedFor, Refs, RefsAll, Owed, OwedAll, Device.Core, AllHeld, Queues;
    hide Stands, Carried, AllCarried, AllNew, Faithful, Device.Standing;
    ghost var was, stands := Queues(devs), Stands(devs);
    StandsAre(devs);
    FleetAt(devs, i);
    QueuesAre(devs);
    AccountedHeld(was, base, i);
    count, added := EnqueueOne(devs[i], com, hl, rs, clientId, arglist);
    FleetUpdate(devs, was, i, set a | a in added);
    StandsAre(devs);
    AllCarriedOne(stands, Stands(devs), i);
    QueuedParts(devs[i], added, com, rs, clientId, arglist);
    CountsConcat(was[i], added);
    ListsConcat(was[i], added);
    AccountedUpdate(was, i, devs[i].acts, base);
    forall id
      ensures OwedAll(Queues(devs), id) == OwedAll(was, id) + (if id == clientId then count else 0)
    {
      OwedUpdate(was, i, devs[i].acts, id);
    }
  }

  lemma ListsConcat(a: seq<Action>, b: seq<Action>)
    ensures Lists(a + b) <= Lists(a) + Lists(b)
  {
  }
}
