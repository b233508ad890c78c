/** Actions: requests queued on a device, each with its own stack of contexts. */
module Actions {
  import opened Scripts
  import opened ArgLists

  /** Indices into the script array (`PM_*`). */
  datatype Com =
    | LogIn | LogOut | Ping | Resolve
    | StatusPlugs | StatusPlugsAll | StatusTemp | StatusTempAll | StatusBeacon | StatusBeaconAll
    | PowerOn | PowerOnRanged | PowerOnAll | PowerOff | PowerOffRanged | PowerOffAll
    | PowerCycle | PowerCycleRanged | PowerCycleAll | Reset | ResetRanged | ResetAll
    | BeaconOn | BeaconOnRanged | BeaconOff | BeaconOffRanged
  {
    /** Queued by the daemon itself, with no client to call back. */
    predicate Internal() { LogIn? || LogOut? || Ping? }

    /** What a client can ask for. */
    predicate Request() {
      PowerOn? || PowerOff? || BeaconOn? || BeaconOff? || PowerCycle? || Reset? ||
      StatusPlugs? || StatusTemp? || StatusBeacon?
    }

    /** `_is_query_action` */
    predicate Query() {
      StatusPlugs? || StatusPlugsAll? || StatusTemp? || StatusTempAll? || StatusBeacon? || StatusBeaconAll?
    }
  }

  /** How far an action has come: where it started, what it has done since, and how often it
      has been rewound to let a login go first. */
  datatype Progress = Progress(start: Ctx, log: seq<Event>, rewinds: nat)

  /** An action that has not been rewound keeps its start and its log. */
  ghost predicate Onward(p: Progress, q: Progress) {
    q.rewinds == p.rewinds && q.start == p.start && p.log <= q.log
  }

  ghost predicate Rewound(p: Progress, q: Progress) {
    q.rewinds == p.rewinds + 1 && q.log == []
  }

  ghost predicate GoesOn(p: Progress, q: Progress) {
    p.rewinds < q.rewinds || Onward(p, q)
  }

  datatype ActError = Success | ExpFail | Abort | ConnectTimeout | LoginTimeout

  class Action {
    const com: Com
    const script: seq<Stmt>
    const plugs: seq<Plug>
    const callback: bool
    const clientId: nat
    const arglist: ArgList?
    /** The stack of contexts, the innermost first. */
    var exec: seq<Ctx>
    var errnum: ActError
    var timeStamp: nat
    var delayStart: nat
    /** What the action has done since it was started or rewound, from which context, and how
        often it was rewound. */
    ghost var log: seq<Event>
    ghost var start: Ctx
    ghost var rewinds: nat

    ghost function Now(): Progress
      reads `start, `log, `rewinds
    {
      Progress(start, log, rewinds)
    }

    ghost function End(): Ending
      reads `errnum, `start, `log, `rewinds
    {
      Ending(this, errnum, Now())
    }

    /** All but the refinement: the outer context stays at the bottom of the stack, it started
        with clear flags unless it was rewound, and no successful action has gone past a test
        of an unknown state. */
    ghost predicate Base()
      reads this
    {
      && StackOk(exec) && Proper(script)
      && start.block == script && start.plugs == plugs && start.pc == 0
      && (rewinds == 0 ==> start == NewCtx(script, plugs))
      && (|exec| > 0 ==> exec[|exec| - 1].block == script && exec[|exec| - 1].plugs == plugs)
      && (errnum == Success ==> Decided(log))
      && (com.Internal() ==> !callback && arglist == null)
    }

    /** Between statements. */
    ghost predicate Ok(all: seq<Plug>)
      reads this
    {
      Base() && Refines(all, exec, log, start)
    }

    /** The current statement is over and the next one not yet taken up. */
    ghost predicate Over(all: seq<Plug>)
      reads this
    {
      Base() && |exec| > 0 && Refines(all, Advance(exec), log, start)
    }

    /** A statement has been attempted on the stack `was` after the log `before`. */
    ghost predicate Attempted(all: seq<Plug>, was: seq<Ctx>, before: seq<Event>, finished: bool)
      requires |was| > 0
      reads this
    {
      Base() && Kept(all, was, before, start, exec, log, finished)
    }

    /** A statement has been attempted on a stack of that depth, with less than that fuel. */
    ghost predicate Attempt(all: seq<Plug>, depth: nat, finished: bool, fuel: nat)
      reads this
    {
      && Base() && |exec| > 0
      && if |exec| != depth then finished && Refines(all, exec, log, start) && FuelStack(all, exec) < fuel
         else if finished then Refines(all, Advance(exec), log, start) && FuelStack(all, Advance(exec)) < fuel
         else Refines(all, exec, log, start)
    }

    /** An action in a queue. */
    ghost predicate Queued(all: seq<Plug>)
      reads this
    {
      Ok(all) && |exec| > 0 && errnum == Success
    }

    /** An action that has completed: nothing is left and nothing went wrong. */
    ghost predicate Completed(all: seq<Plug>)
      reads this
    {
      Ok(all) && exec == [] && errnum == Success
    }

    ghost function Fuel(all: seq<Plug>): nat
      reads this
    {
      FuelStack(all, exec)
    }

    /** `_create_action` */
    constructor (com: Com, script: seq<Stmt>, plugs: seq<Plug>, callback: bool, clientId: nat, arglist: ArgList?)
      requires Proper(script) && (com.Internal() ==> !callback && arglist == null)
      requires arglist != null ==> arglist.refcount > 0
      modifies if arglist == null then {} else {arglist}`refcount
      ensures this.com == com && this.script == script && this.plugs == plugs
      ensures this.callback == callback && this.clientId == clientId && this.arglist == arglist
      ensures exec == [NewCtx(script, plugs)] && Now() == Progress(NewCtx(script, plugs), [], 0)
      ensures errnum == Success && timeStamp == 0
      ensures arglist != null ==> arglist.refcount == old(arglist.refcount) + 1
      ensures forall all: seq<Plug> :: Queued(all)
    {
      this.com, this.script, this.plugs := com, script, plugs;
      this.callback, this.clientId, this.arglist := callback, clientId, arglist;
      exec, errnum, timeStamp, delayStart := [NewCtx(script, plugs)], Success, 0, 0;
      start, log, rewinds := NewCtx(script, plugs), [], 0;
      new;
      if arglist != null {
        arglist.Link();
      }
      forall all: seq<Plug>
        ensures Queued(all)
      {
        RefinesStart(all, NewCtx(script, plugs));
      }
    }

    /** `_rewind_action`: back to the first statement of the outer context, whose flags stay
        as they are. */
    method Rewind(ghost all: seq<Plug>)
      requires Queued(all)
      modifies `exec, `log, `start, `rewinds
      ensures Queued(all)
      ensures exec == [old(exec[|exec| - 1]).(pc := 0)] && Now() == Progress(exec[0], [], old(rewinds) + 1)
      ensures start.block == script && start.plugs == plugs
    {
      while |exec| > 1
        invariant |exec| > 0 && exec[|exec| - 1] == old(exec[|exec| - 1])
        modifies `exec
        decreases |exec|
      {
        exec := exec[1..];
      }
      exec := [exec[0].(pc := 0)];
      log, start, rewinds := [], exec[0], rewinds + 1;
      RefinesStart(all, start);
    }
  }

  lemma AttemptEnd(all: seq<Plug>, a: Action, was: seq<Ctx>, before: seq<Event>, finished: bool)
    requires |was| > 0 && a.Attempted(all, was, before, finished)
    ensures a.Attempt(all, |was|, finished, FuelStack(all, was)) && before <= a.log
    ensures |a.exec| == |was| || |a.exec| == |was| + 1
  {
    hide Refines, Advance, FuelStack;
  }

  /** From this start the script runs in full: it was never rewound, or the flags that a
      rewind left behind are harmless. */
  ghost predicate Whole(all: seq<Plug>, a: Action, at: Progress) {
    at.rewinds == 0 || Harmless(all, a.script, at.start.processing, at.start.itr)
  }

  lemma {:induction false} ClearHarmless(all: seq<Plug>, block: seq<Stmt>)
    ensures Harmless(all, block, false, None)
  {
    hide Over, Size;
    if |block| > 0 { ClearHarmless(all, block[1..]); }
  }

  lemma WholeHarmless(all: seq<Plug>, a: Action)
    requires a.Base() && Whole(all, a, a.Now())
    ensures |a.script| > 0 && a.start == a.start.(pc := 0)
    ensures Harmless(all, a.script, a.start.processing, a.start.itr)
  {
    hide Harmless;
    assert Proper(a.script);
    if a.rewinds == 0 { ClearHarmless(all, a.script); }
  }

  /** A completed action that was never rewound with harmful flags has executed exactly the
      unrolling of its script, with no test of an unknown state. */
  lemma CompletedUnrolled(all: seq<Plug>, a: Action)
    requires a.Completed(all) && Whole(all, a, a.Now())
    ensures a.log == Unroll(all, a.script, a.plugs, 0, OracleOf(a.log)) && Decided(a.log)
  {
    hide Harmless, Unroll, RunCtx, Agrees, Proper, Whole;
    WholeHarmless(all, a);
    var ans := OracleOf(a.log);
    OracleAgrees(a.log);
    RewindExact(all, a.start);
    assert a.log + Resume(all, [], |a.log|, ans) == a.log;
  }

  /** And at any moment an action has executed a prefix of it. */
  lemma QueuedPrefix(all: seq<Plug>, a: Action, ans: Oracle)
    requires a.Queued(all) && Whole(all, a, a.Now()) && Agrees(ans, a.log)
    ensures a.log <= Unroll(all, a.script, a.plugs, 0, ans)
  {
    hide Harmless, Unroll, RunCtx, Agrees, Proper, Resume, Whole;
    WholeHarmless(all, a);
    RewindExact(all, a.start);
  }

  /** Actions at the start of their scripts, with clear flags. */
  ghost predicate AllNew(acts: seq<Action>)
    reads acts`start, acts`log, acts`rewinds
  {
    forall i :: 0 <= i < |acts| ==> acts[i].Now() == Progress(NewCtx(acts[i].script, acts[i].plugs), [], 0)
  }

  lemma AllNewAppend(acts: seq<Action>, more: seq<Action>)
    requires AllNew(acts) && AllNew(more)
    ensures AllNew(acts + more)
  {
  }

  // ---- What has become of actions

  /** How an action has ended. */
  datatype Ending = Ending(act: Action, err: ActError, at: Progress)

  /** Every action that has ended well has executed exactly the unrolling of its script, unless
      it was rewound with harmful flags, and no test found an unknown state. */
  ghost predicate Faithful(all: seq<Plug>, history: seq<Ending>) {
    forall k :: 0 <= k < |history| && history[k].err == Success && Whole(all, history[k].act, history[k].at) ==>
      var log := history[k].at.log;
      log == Unroll(all, history[k].act.script, history[k].act.plugs, 0, OracleOf(log)) && Decided(log)
  }

  ghost function Marks(acts: seq<Action>): (marks: seq<Progress>)
    reads acts
    ensures |marks| == |acts| && forall i :: 0 <= i < |acts| ==> marks[i] == acts[i].Now()
  {
    seq(|acts|, i requires 0 <= i < |acts| reads acts => acts[i].Now())
  }

  /** None of the actions has been rewound or has lost anything of its log. */
  ghost predicate AllOnward(marks: seq<Progress>, acts: seq<Action>)
    reads acts`start, acts`log, acts`rewinds
  {
    |marks| == |acts| && forall i :: 0 <= i < |acts| ==> Onward(marks[i], acts[i].Now())
  }

  lemma MarksOnward(acts: seq<Action>)
    ensures AllOnward(Marks(acts), acts)
  {
  }

  lemma MarksAre(acts: seq<Action>)
    ensures |Marks(acts)| == |acts| && forall i :: 0 <= i < |acts| ==> Marks(acts)[i] == acts[i].Now()
  {
  }

  lemma OnwardMarks(marks: seq<Progress>, acts: seq<Action>)
    requires AllOnward(marks, acts)
    ensures |marks| == |acts| && forall i :: 0 <= i < |acts| ==> Onward(marks[i], Marks(acts)[i])
  {
  }

  /** Only one of them has moved. */
  lemma OneOnward(marks: seq<Progress>, before: seq<Progress>, acts: seq<Action>, k: nat)
    requires |marks| == |before| == |acts| && forall i :: 0 <= i < |acts| ==> Onward(marks[i], before[i])
    requires k < |acts| && Onward(before[k], acts[k].Now())
    requires forall i :: 0 <= i < |acts| && i != k ==> acts[i].Now() == before[i]
    ensures AllOnward(marks, acts)
  {
  }

  /** Nothing has moved, but for one action that may have been rewound. */
  ghost predicate OneRewound(was: seq<Progress>, now: seq<Progress>, k: nat) {
    && |was| == |now| && (forall i :: 0 <= i < |was| && i != k ==> now[i] == was[i])
    && (k < |was| ==> now[k] == was[k] || Rewound(was[k], now[k]))
  }

  lemma MarksTail(acts: seq<Action>)
    ensures |acts| > 0 ==> Marks(acts[1..]) == Marks(acts)[1..]
  {
  }

  lemma NoneRewound(marks: seq<Progress>)
    ensures forall k :: OneRewound(marks, marks, k)
  {
  }

  lemma HeadRewound(was: seq<Progress>, now: seq<Progress>)
    requires |was| == |now| && (|was| > 0 ==> Rewound(was[0], now[0])) && forall i :: 1 <= i < |was| ==> was[i] == now[i]
    ensures OneRewound(was, now, 0)
  {
  }

  /** The first action has not moved. */
  lemma RewoundTail(was: seq<Progress>, now: seq<Progress>, rewound: bool)
    ensures |was| == |now| > 0 && was[0] == now[0] ==>
      if rewound then OneRewound(was[1..], now[1..], 0) ==> OneRewound(was, now, 1)
      else was[1..] == now[1..] ==> was == now
  {
    if |was| == |now| > 0 && was[0] == now[0] {
      assert was == [was[0]] + was[1..] && now == [now[0]] + now[1..];
      assert forall i :: 1 <= i < |was| ==> was[i] == was[1..][i - 1] && now[i] == now[1..][i - 1];
    }
  }

  /** No action has lost anything of its log, but for one that may have been rewound once. */
  ghost predicate OnwardBut(marks: seq<Progress>, acts: seq<Action>, k: nat)
    reads acts`start, acts`log, acts`rewinds
  {
    && |marks| == |acts| && (forall i :: 0 <= i < |acts| && i != k ==> Onward(marks[i], acts[i].Now()))
    && (k < |acts| ==> Onward(marks[k], acts[k].Now()) || acts[k].rewinds == marks[k].rewinds + 1)
  }

  /** The last entries are those of the actions ended. */
  ghost predicate Entered(ended: seq<Action>, history: seq<Ending>)
    reads ended`errnum, ended`start, ended`log, ended`rewinds
  {
    |ended| <= |history| && forall i :: 0 <= i < |ended| ==> history[|history| - |ended| + i] == ended[i].End()
  }

  lemma EnteredSnoc(ended: seq<Action>, history: seq<Ending>, act: Action)
    requires Entered(ended, history)
    ensures Entered(ended + [act], history + [act.End()])
  {
    var k := |history| - |ended|;
    var history' := history + [act.End()];
    forall i | 0 <= i < |ended| + 1
      ensures history'[k + i] == (ended + [act])[i].End()
    {
      if i < |ended| { assert history'[k + i] == history[k + i] && (ended + [act])[i] == ended[i]; }
    }
  }

  /** One more has ended well, or has failed. */
  lemma FaithfulSnoc(all: seq<Plug>, history: seq<Ending>, a: Action)
    requires Faithful(all, history) && (a.Completed(all) || a.errnum != Success)
    ensures Faithful(all, history + [a.End()])
  {
    hide Unroll, Action.Completed, Whole;
    if a.errnum == Success && Whole(all, a, a.Now()) { CompletedUnrolled(all, a); }
  }

  /** An action that had come that far has ended, and had gone on till then. */
  ghost predicate EndedFrom(history: seq<Ending>, a: Action, p: Progress) {
    exists k :: 0 <= k < |history| && history[k].act == a && GoesOn(p, history[k].at)
  }

  /** The actions waiting on a device, login actions apart, and the ones that have ended. */
  datatype Stand = Stand(waiting: map<Action, Progress>, history: seq<Ending>)

  /** Every action that was waiting still is or has ended, and has gone on from where it was;
      what has ended stays ended. */
  ghost predicate Carried(s: Stand, t: Stand) {
    && s.history <= t.history
    && forall a :: a in s.waiting ==>
      (a in t.waiting && GoesOn(s.waiting[a], t.waiting[a])) || EndedFrom(t.history, a, s.waiting[a])
  }

  lemma CarriedSame(s: Stand)
    ensures Carried(s, s)
  {
  }

  /** Actions have been added to the queue. */
  lemma CarriedMore(s: Stand, t: Stand)
    requires s.history == t.history && forall a :: a in s.waiting ==> a in t.waiting && t.waiting[a] == s.waiting[a]
    ensures Carried(s, t)
  {
  }

  lemma CarriedTrans(s: Stand, t: Stand, u: Stand)
    requires Carried(s, t) && Carried(t, u)
    ensures Carried(s, u)
  {
    forall a | a in s.waiting
      ensures (a in u.waiting && GoesOn(s.waiting[a], u.waiting[a])) || EndedFrom(u.history, a, s.waiting[a])
    {
      if EndedFrom(t.history, a, s.waiting[a]) {
        var k :| 0 <= k < |t.history| && t.history[k].act == a && GoesOn(s.waiting[a], t.history[k].at);
        assert u.history[k] == t.history[k];
      } else if EndedFrom(u.history, a, t.waiting[a]) {
        var k :| 0 <= k < |u.history| && u.history[k].act == a && GoesOn(t.waiting[a], u.history[k].at);
        assert GoesOn(s.waiting[a], u.history[k].at);
      }
    }
  }

  // ---- Queues

  ghost predicate Distinct<T>(s: seq<T>) {
    forall i, j :: 0 <= i < j < |s| ==> s[i] != s[j]
  }

  lemma OthersDiffer<T>(s: seq<T>, k: nat)
    requires Distinct(s) && k < |s|
    ensures forall i :: 0 <= i < |s| && i != k ==> s[i] != s[k]
  {
  }

  /** How many actions of a queue hold an argument list. */
  ghost function Refs(acts: seq<Action>, l: ArgList): nat {
    if |acts| == 0 then 0 else (if acts[0].arglist == l then 1 else 0) + Refs(acts[1..], l)
  }

  /** How many actions of a queue will call a client back. */
  ghost function Owed(acts: seq<Action>, id: nat): nat {
    if |acts| == 0 then 0 else (if acts[0].callback && acts[0].clientId == id then 1 else 0) + Owed(acts[1..], id)
  }

  lemma {:induction false} CountsConcat(a: seq<Action>, b: seq<Action>)
    ensures forall l :: Refs(a + b, l) == Refs(a, l) + Refs(b, l)
    ensures forall id :: Owed(a + b, id) == Owed(a, id) + Owed(b, id)
  {
    if |a| == 0 {
      assert a + b == b;
    } else {
      assert (a + b)[1..] == a[1..] + b;
      CountsConcat(a[1..], b);
    }
  }

  lemma CountsOne(a: Action)
    ensures forall l :: Refs([a], l) == if a.arglist == l then 1 else 0
    ensures forall id :: Owed([a], id) == if a.callback && a.clientId == id then 1 else 0
  {
    assert [a][1..] == [];
  }

  lemma {:induction false} RefsMember(acts: seq<Action>, i: nat)
    requires i < |acts| && acts[i].arglist != null
    ensures Refs(acts, acts[i].arglist) > 0
  {
    if i > 0 { RefsMember(acts[1..], i - 1); }
  }

  ghost function Lists(acts: seq<Action>): set<ArgList> {
    set i | 0 <= i < |acts| && acts[i].arglist != null :: acts[i].arglist
  }

  /** Actions waiting in a queue, or in the middle of their scripts. */
  ghost predicate QueueOk(all: seq<Plug>, acts: seq<Action>)
    reads acts
  {
    Distinct(acts) && forall i :: 0 <= i < |acts| ==> acts[i].Queued(all)
  }

  /** Every result list has a holder for each action that refers to it. */
  ghost predicate AllHeld(acts: seq<Action>)
    reads Lists(acts)
  {
    forall l :: l in Lists(acts) ==> l.refcount >= Refs(acts, l)
  }

  ghost function QueueFuel(all: seq<Plug>, acts: seq<Action>): nat
    reads acts
  {
    if |acts| == 0 then 0 else 1 + acts[0].Fuel(all) + QueueFuel(all, acts[1..])
  }

  /** The callbacks that ended actions have made. */
  ghost function Completions(ended: seq<Action>): seq<Completion>
    reads ended
  {
    if |ended| == 0 then []
    else
      var a := ended[|ended| - 1];
      Completions(ended[..|ended| - 1]) + (if a.callback then [Completion(a.clientId, a.errnum)] else [])
  }

  function CallsTo(done: seq<Completion>, id: nat): nat {
    if |done| == 0 then 0 else CallsTo(done[..|done| - 1], id) + (if done[|done| - 1].clientId == id then 1 else 0)
  }

  /** Each ended action that owed a callback has made one. */
  lemma {:induction false} CompletionsOwed(ended: seq<Action>, id: nat)
    ensures CallsTo(Completions(ended), id) == Owed(ended, id)
  {
    if |ended| > 0 {
      var a, before := ended[|ended| - 1], ended[..|ended| - 1];
      CompletionsOwed(before, id);
      assert ended == before + [a];
      CountsConcat(before, [a]);
      CountsOne(a);
      var c := Completions(before);
      if a.callback {
        assert (c + [Completion(a.clientId, a.errnum)])[..|c|] == c;
      } else {
        assert c + [] == c;
      }
    }
  }

  /** One call of a completion callback. */
  datatype Completion = Completion(clientId: nat, err: ActError)
}
