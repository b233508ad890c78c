/** Scripts: what a script means, and the explicit stack of contexts that executes it with
    stalls and resumptions. */
module Scripts {

  datatype Option<+T> = None | Some(value: T)

  /** The interpreted state of a node (`InterpState`). */
  datatype State = Unknown | Off | On

  datatype Plug = Plug(name: string, node: Option<string>)

  datatype Interp = Interp(re: string, state: State)

  datatype Stmt =
    | Send(fmt: string)
    | Expect(re: string)
    | SetPlugState(plugName: Option<string>, plugMp: int, statMp: int, interps: seq<Interp>)
    | Delay(tv: nat)
    | ForeachPlug(stmts: seq<Stmt>)
    | ForeachNode(stmts: seq<Stmt>)
    | IfOn(stmts: seq<Stmt>)
    | IfOff(stmts: seq<Stmt>)
  {
    predicate Foreach?() { ForeachPlug? || ForeachNode? }
    predicate If?() { IfOn? || IfOff? }
    predicate Prim?() { Send? || Expect? || SetPlugState? || Delay? }

    /** Whether the block of an ifon/ifoff runs. */
    predicate Holds(state: State)
    {
      (IfOn? && state == On) || (IfOff? && state == Off)
    }
  }

  /** Blocks are never empty: the grammar has no empty statement list. */
  ghost predicate Proper(block: seq<Stmt>) {
    |block| > 0 && forall i :: 0 <= i < |block| ==>
      (block[i].Foreach?() || block[i].If?()) ==> Proper(block[i].stmts)
  }

  /** What an action does: a primitive statement on its plugs, or a look at the recorded
      state that decides an ifon/ifoff. */
  datatype Event = Done(stmt: Stmt, plugs: seq<Plug>) | Tested(plugs: seq<Plug>, state: State)

  /** The recorded state that a test at some position of the log will find. */
  type Oracle = nat -> State

  // ---- The recursive meaning

  function Assigned(ps: seq<Plug>): seq<Plug> {
    if |ps| == 0 then []
    else (if ps[0].node.Some? then [ps[0]] else []) + Assigned(ps[1..])
  }

  /** The plugs a foreach runs over. */
  function Over(s: Stmt, ps: seq<Plug>): seq<Plug> {
    if s.ForeachNode? then Assigned(ps) else ps
  }

  /** The unrolling of a block whose first event is event n of the log. */
  ghost function Unroll(all: seq<Plug>, block: seq<Stmt>, plugs: seq<Plug>, n: nat, ans: Oracle): seq<Event>
    decreases block, 0
  {
    if |block| == 0 then []
    else
      var h := UnrollStmt(all, block[0], plugs, n, ans);
      h + Unroll(all, block[1..], plugs, n + |h|, ans)
  }

  ghost function UnrollStmt(all: seq<Plug>, s: Stmt, plugs: seq<Plug>, n: nat, ans: Oracle): seq<Event>
    decreases s, 0
  {
    if s.Prim?() then [Done(s, plugs)]
    else if s.Foreach?() then Loop(all, s.stmts, Over(s, all), n, ans)
    else [Tested(plugs, ans(n))] + (if s.Holds(ans(n)) then Unroll(all, s.stmts, plugs, n + 1, ans) else [])
  }

  /** A block once for each plug, in order. */
  ghost function Loop(all: seq<Plug>, block: seq<Stmt>, ps: seq<Plug>, n: nat, ans: Oracle): seq<Event>
    decreases block, |ps| + 1
  {
    if |ps| == 0 then []
    else
      var h := Unroll(all, block, [ps[0]], n, ans);
      h + Loop(all, block, ps[1..], n + |h|, ans)
  }

  // ---- The stack of contexts

  /** `ExecCtx`: `block[pc]` is the current statement, `itr` the position of the plug
      iterator of a foreach, `processing` the flag that send, delay and ifon/ifoff share. */
  datatype Ctx = Ctx(plugs: seq<Plug>, block: seq<Stmt>, pc: nat, itr: Option<nat>, processing: bool) {
    predicate Ok() {
      pc < |block|
    }
    function Cur(): Stmt
      requires Ok()
    {
      block[pc]
    }
  }

  function NewCtx(block: seq<Stmt>, plugs: seq<Plug>): Ctx {
    Ctx(plugs, block, 0, None, false)
  }

  ghost predicate StackOk(exec: seq<Ctx>) {
    forall i :: 0 <= i < |exec| ==> exec[i].Ok() && Proper(exec[i].block)
  }

  /** The plugs still ahead of a plug iterator. */
  function Ahead(all: seq<Plug>, itr: Option<nat>): seq<Plug> {
    if itr.None? then all else if itr.value <= |all| then all[itr.value..] else []
  }

  /** What a statement still does when it is met with these flags. */
  ghost function Rest(all: seq<Plug>, s: Stmt, plugs: seq<Plug>, proc: bool, itr: Option<nat>, n: nat, ans: Oracle): seq<Event> {
    if s.Foreach?() then Loop(all, s.stmts, Over(s, Ahead(all, itr)), n, ans)
    else if proc && (s.Send? || s.If?()) then []
    else UnrollStmt(all, s, plugs, n, ans)
  }

  /** The flags a statement leaves behind. */
  function ProcAfter(s: Stmt, proc: bool): bool {
    proc && !s.Send? && !s.Delay? && !s.If?()
  }

  function ItrAfter(s: Stmt, itr: Option<nat>): Option<nat> {
    if s.Foreach?() then None else itr
  }

  /** What is left of a block met with these flags. */
  ghost function Run(all: seq<Plug>, block: seq<Stmt>, plugs: seq<Plug>, proc: bool, itr: Option<nat>, n: nat, ans: Oracle): seq<Event> {
    if |block| == 0 then []
    else
      var h := Rest(all, block[0], plugs, proc, itr, n, ans);
      h + Run(all, block[1..], plugs, ProcAfter(block[0], proc), ItrAfter(block[0], itr), n + |h|, ans)
  }

  ghost function RunCtx(all: seq<Plug>, c: Ctx, n: nat, ans: Oracle): seq<Event> {
    if c.pc < |c.block| then Run(all, c.block[c.pc..], c.plugs, c.processing, c.itr, n, ans) else []
  }

  ghost function Resume(all: seq<Plug>, exec: seq<Ctx>, n: nat, ans: Oracle): seq<Event> {
    if |exec| == 0 then []
    else
      var h := RunCtx(all, exec[0], n, ans);
      h + Resume(all, exec[1..], n + |h|, ans)
  }

  /** The next statement of the top context, or the context below when there is none. */
  function Advance(exec: seq<Ctx>): seq<Ctx>
    requires |exec| > 0
  {
    var c := exec[0];
    if c.pc + 1 < |c.block| then [c.(pc := c.pc + 1)] + exec[1..] else exec[1..]
  }

  /** The top context with the flags that its current statement leaves behind. */
  function Settle(c: Ctx): Ctx
    requires c.Ok()
  {
    c.(processing := ProcAfter(c.Cur(), c.processing), itr := ItrAfter(c.Cur(), c.itr))
  }

  /** The oracle answers as the tests of the log were answered. */
  ghost predicate Agrees(ans: Oracle, log: seq<Event>) {
    forall i :: 0 <= i < |log| && log[i].Tested? ==> ans(i) == log[i].state
  }

  /** The oracle that the log itself gives. */
  function OracleOf(log: seq<Event>): Oracle {
    (i: nat) => if i < |log| && log[i].Tested? then log[i].state else Unknown
  }

  /** The log and what the stack has left make up the run of the context it started with. */
  ghost predicate Refines(all: seq<Plug>, exec: seq<Ctx>, log: seq<Event>, start: Ctx) {
    forall ans: Oracle :: Agrees(ans, log) ==>
      log + Resume(all, exec, |log|, ans) == RunCtx(all, start, 0, ans)
  }

  /** No test of the log found an unknown state. */
  ghost predicate Decided(log: seq<Event>) {
    forall i :: 0 <= i < |log| && log[i].Tested? ==> log[i].state != Unknown
  }

  // ---- The steps of the interpreter keep the refinement

  lemma ResumeCons(all: seq<Plug>, c: Ctx, exec: seq<Ctx>, n: nat, ans: Oracle)
    ensures var h := RunCtx(all, c, n, ans);
      Resume(all, [c] + exec, n, ans) == h + Resume(all, exec, n + |h|, ans)
  {
    hide RunCtx;
    assert ([c] + exec)[1..] == exec;
  }

  lemma RunCtxStep(all: seq<Plug>, c: Ctx, n: nat, ans: Oracle)
    requires c.Ok()
    ensures var h := Rest(all, c.Cur(), c.plugs, c.processing, c.itr, n, ans);
      RunCtx(all, c, n, ans) == h + RunCtx(all, Settle(c).(pc := c.pc + 1), n + |h|, ans)
  {
    hide Rest, ProcAfter, ItrAfter;
    var h := Rest(all, c.Cur(), c.plugs, c.processing, c.itr, n, ans);
    var c' := Settle(c).(pc := c.pc + 1);
    assert c.block[c.pc..][1..] == c.block[c.pc + 1..] && c.block[c.pc..][0] == c.Cur();
    assert RunCtx(all, c', n + |h|, ans) == Run(all, c.block[c.pc + 1..], c.plugs, c'.processing, c'.itr, n + |h|, ans);
  }

  lemma ResumeAdvance(all: seq<Plug>, c: Ctx, exec: seq<Ctx>, n: nat, ans: Oracle)
    ensures Resume(all, Advance([c] + exec), n, ans) ==
      var h := RunCtx(all, c.(pc := c.pc + 1), n, ans); h + Resume(all, exec, n + |h|, ans)
  {
    hide Run, Resume;
    assert ([c] + exec)[1..] == exec;
    if c.pc + 1 < |c.block| {
      ResumeCons(all, c.(pc := c.pc + 1), exec, n, ans);
    } else {
      assert RunCtx(all, c.(pc := c.pc + 1), n, ans) == [];
    }
  }

  lemma Associate(a: seq<Event>, b: seq<Event>, c: seq<Event>)
    ensures (a + b) + c == a + (b + c)
  {
  }

  /** What is left after the current statement, whose flags have been settled. */
  lemma RunAdvance(all: seq<Plug>, c: Ctx, exec: seq<Ctx>, n: nat, ans: Oracle)
    requires c.Ok()
    ensures var h := Rest(all, c.Cur(), c.plugs, c.processing, c.itr, n, ans);
      Resume(all, [c] + exec, n, ans) == h + Resume(all, Advance([Settle(c)] + exec), n + |h|, ans)
  {
    hide RunCtx, Rest, Resume, Advance;
    var h := Rest(all, c.Cur(), c.plugs, c.processing, c.itr, n, ans);
    var t := RunCtx(all, Settle(c).(pc := c.pc + 1), n + |h|, ans);
    RunCtxStep(all, c, n, ans);
    ResumeCons(all, c, exec, n, ans);
    ResumeAdvance(all, Settle(c), exec, n + |h|, ans);
    Associate(h, t, Resume(all, exec, n + |h + t|, ans));
  }

  lemma AgreesShorter(ans: Oracle, log: seq<Event>, more: seq<Event>)
    requires Agrees(ans, log + more)
    ensures Agrees(ans, log)
  {
    forall i | 0 <= i < |log| && log[i].Tested?
      ensures ans(i) == log[i].state
    {
      assert (log + more)[i] == log[i];
    }
  }

  /** The refinement goes on when, for every oracle that agrees with the longer log, what was
      left begins with the events added. */
  lemma RefinesMore(all: seq<Plug>, exec: seq<Ctx>, log: seq<Event>, start: Ctx, done: seq<Event>, exec': seq<Ctx>)
    requires Refines(all, exec, log, start)
    requires forall ans: Oracle :: Agrees(ans, log + done) ==>
      Resume(all, exec, |log|, ans) == done + Resume(all, exec', |log| + |done|, ans)
    ensures Refines(all, exec', log + done, start)
  {
    hide Resume, RunCtx, Agrees;
    forall ans: Oracle | Agrees(ans, log + done)
      ensures (log + done) + Resume(all, exec', |log + done|, ans) == RunCtx(all, start, 0, ans)
    {
      AgreesShorter(ans, log, done);
      Associate(log, done, Resume(all, exec', |log + done|, ans));
    }
  }

  /** The current statement has done all that was left of it, which was `done`. */
  lemma StepDone(all: seq<Plug>, c: Ctx, exec: seq<Ctx>, log: seq<Event>, start: Ctx, done: seq<Event>)
    requires c.Ok() && Refines(all, [c] + exec, log, start)
    requires forall ans: Oracle :: Agrees(ans, log + done) ==>
      Rest(all, c.Cur(), c.plugs, c.processing, c.itr, |log|, ans) == done
    ensures Refines(all, Advance([Settle(c)] + exec), log + done, start)
  {
    hide Resume, Rest, Agrees, Refines, Advance, Settle;
    forall ans: Oracle | Agrees(ans, log + done)
      ensures Resume(all, [c] + exec, |log|, ans) == done + Resume(all, Advance([Settle(c)] + exec), |log| + |done|, ans)
    {
      RunAdvance(all, c, exec, |log|, ans);
    }
    RefinesMore(all, [c] + exec, log, start, done, Advance([Settle(c)] + exec));
  }

  /** Expect and setplugstate are over at once, a delay when its time is up, a send that was
      flushed or an ifon/ifoff back from its block without a further event. */
  lemma StepPrim(all: seq<Plug>, c: Ctx, exec: seq<Ctx>, log: seq<Event>, start: Ctx)
    requires c.Ok() && Refines(all, [c] + exec, log, start)
    requires !c.Cur().Foreach?() && (c.processing || !c.Cur().If?())
    ensures var done := if c.processing && (c.Cur().Send? || c.Cur().If?()) then [] else [Done(c.Cur(), c.plugs)];
      Refines(all, Advance([Settle(c)] + exec), log + done, start)
  {
    hide Refines, Advance, Settle, Agrees;
    var done := if c.processing && (c.Cur().Send? || c.Cur().If?()) then [] else [Done(c.Cur(), c.plugs)];
    StepDone(all, c, exec, log, start, done);
  }

  /** A send has been written and is to be flushed. */
  lemma StepSent(all: seq<Plug>, c: Ctx, exec: seq<Ctx>, log: seq<Event>, start: Ctx)
    requires c.Ok() && c.Cur().Send? && !c.processing && Refines(all, [c] + exec, log, start)
    ensures Refines(all, [c.(processing := true)] + exec, log + [Done(c.Cur(), c.plugs)], start)
  {
    hide Refines, Advance, Agrees, Resume;
    var done := [Done(c.Cur(), c.plugs)];
    forall ans: Oracle | Agrees(ans, log + done)
      ensures Resume(all, [c] + exec, |log|, ans) == done + Resume(all, [c.(processing := true)] + exec, |log| + |done|, ans)
    {
      RunAdvance(all, c, exec, |log|, ans);
      RunAdvance(all, c.(processing := true), exec, |log| + 1, ans);
    }
    RefinesMore(all, [c] + exec, log, start, done, [c.(processing := true)] + exec);
  }

  /** A delay has started. */
  lemma StepWaiting(all: seq<Plug>, c: Ctx, exec: seq<Ctx>, log: seq<Event>, start: Ctx)
    requires c.Ok() && c.Cur().Delay? && Refines(all, [c] + exec, log, start)
    ensures Refines(all, [c.(processing := true)] + exec, log, start)
  {
    hide Refines, Advance, Agrees, Resume;
    var c' := c.(processing := true);
    assert log + [] == log;
    forall ans: Oracle | Agrees(ans, log)
      ensures Resume(all, [c] + exec, |log|, ans) == [] + Resume(all, [c'] + exec, |log|, ans)
    {
      RunAdvance(all, c, exec, |log|, ans);
      RunAdvance(all, c', exec, |log|, ans);
    }
    RefinesMore(all, [c] + exec, log, start, [], [c'] + exec);
  }

  /** With clear flags a block is its unrolling. */
  lemma {:induction false} CleanRun(all: seq<Plug>, block: seq<Stmt>, plugs: seq<Plug>, n: nat, ans: Oracle)
    ensures Run(all, block, plugs, false, None, n, ans) == Unroll(all, block, plugs, n, ans)
  {
    if |block| > 0 {
      var h := Rest(all, block[0], plugs, false, None, n, ans);
      assert h == UnrollStmt(all, block[0], plugs, n, ans);
      CleanRun(all, block[1..], plugs, n + |h|, ans);
    }
  }

  /** A new context pushed on a stack. */
  lemma ResumePushed(all: seq<Plug>, block: seq<Stmt>, plugs: seq<Plug>, exec: seq<Ctx>, n: nat, ans: Oracle)
    requires |block| > 0
    ensures var h := Unroll(all, block, plugs, n, ans);
      Resume(all, [NewCtx(block, plugs)] + exec, n, ans) == h + Resume(all, exec, n + |h|, ans)
  {
    hide Resume, Run, Unroll;
    ResumeCons(all, NewCtx(block, plugs), exec, n, ans);
    assert block[0..] == block;
    CleanRun(all, block, plugs, n, ans);
  }

  /** A foreach has taken its next plug, and pushed a context for it. */
  lemma StepForeach(all: seq<Plug>, c: Ctx, exec: seq<Ctx>, log: seq<Event>, start: Ctx, plug: Plug, itr: nat)
    requires c.Ok() && Refines(all, [c] + exec, log, start) && c.Cur().Foreach?() && |c.Cur().stmts| > 0
    requires Over(c.Cur(), Ahead(all, c.itr)) == [plug] + Over(c.Cur(), Ahead(all, Some(itr)))
    ensures Refines(all, [NewCtx(c.Cur().stmts, [plug])] + ([c.(itr := Some(itr))] + exec), log, start)
  {
    hide Refines, Advance, Agrees, Resume, Unroll, Over, Ahead;
    var s := c.Cur();
    var c' := c.(itr := Some(itr));
    var exec' := [NewCtx(s.stmts, [plug])] + ([c'] + exec);
    assert log + [] == log;
    forall ans: Oracle | Agrees(ans, log)
      ensures Resume(all, [c] + exec, |log|, ans) == [] + Resume(all, exec', |log|, ans)
    {
      var n := |log|;
      var h := Unroll(all, s.stmts, [plug], n, ans);
      ResumePushed(all, s.stmts, [plug], [c'] + exec, n, ans);
      RunAdvance(all, c, exec, n, ans);
      RunAdvance(all, c', exec, n + |h|, ans);
      LoopCons(all, s.stmts, plug, Over(s, Ahead(all, Some(itr))), n, ans);
      var l := Loop(all, s.stmts, Over(s, Ahead(all, Some(itr))), n + |h|, ans);
      Associate(h, l, Resume(all, Advance([Settle(c)] + exec), n + |h + l|, ans));
    }
    RefinesMore(all, [c] + exec, log, start, [], exec');
  }

  lemma LoopCons(all: seq<Plug>, block: seq<Stmt>, plug: Plug, ps: seq<Plug>, n: nat, ans: Oracle)
    ensures var h := Unroll(all, block, [plug], n, ans);
      Loop(all, block, [plug] + ps, n, ans) == h + Loop(all, block, ps, n + |h|, ans)
  {
    hide Unroll;
    assert ([plug] + ps)[1..] == ps;
  }

  /** A foreach that finds no further plug is over. */
  lemma StepExhausted(all: seq<Plug>, c: Ctx, exec: seq<Ctx>, log: seq<Event>, start: Ctx)
    requires c.Ok() && Refines(all, [c] + exec, log, start) && c.Cur().Foreach?()
    requires Over(c.Cur(), Ahead(all, c.itr)) == []
    ensures Refines(all, Advance([Settle(c)] + exec), log, start)
  {
    hide Refines, Advance, Settle, Agrees, Over, Ahead;
    assert log + [] == log;
    StepDone(all, c, exec, log, start, []);
  }

  /** An ifon/ifoff has found a state that does not match: it is over. */
  lemma StepFalse(all: seq<Plug>, c: Ctx, exec: seq<Ctx>, log: seq<Event>, start: Ctx, state: State)
    requires c.Ok() && Refines(all, [c] + exec, log, start) && c.Cur().If?() && !c.processing
    requires !c.Cur().Holds(state)
    ensures Refines(all, Advance([c] + exec), log + [Tested(c.plugs, state)], start)
  {
    hide Refines, Advance;
    var done := [Tested(c.plugs, state)];
    forall ans: Oracle | Agrees(ans, log + done)
      ensures Rest(all, c.Cur(), c.plugs, c.processing, c.itr, |log|, ans) == done
    {
      assert (log + done)[|log|].Tested?;
    }
    StepDone(all, c, exec, log, start, done);
    assert Settle(c) == c;
  }

  /** An ifon/ifoff has found a state that matches: its block is pushed. */
  lemma StepTrue(all: seq<Plug>, c: Ctx, exec: seq<Ctx>, log: seq<Event>, start: Ctx, state: State)
    requires c.Ok() && Refines(all, [c] + exec, log, start) && c.Cur().If?() && !c.processing
    requires c.Cur().Holds(state) && |c.Cur().stmts| > 0
    ensures Refines(all, [NewCtx(c.Cur().stmts, c.plugs)] + ([c.(processing := true)] + exec), log + [Tested(c.plugs, state)], start)
  {
    hide Refines, Advance, Resume, Unroll;
    var s := c.Cur();
    var done := [Tested(c.plugs, state)];
    var c' := c.(processing := true);
    var exec' := [NewCtx(s.stmts, c.plugs)] + ([c'] + exec);
    forall ans: Oracle | Agrees(ans, log + done)
      ensures Resume(all, [c] + exec, |log|, ans) == done + Resume(all, exec', |log| + |done|, ans)
    {
      assert (log + done)[|log|].Tested?;
      var n := |log|;
      var h := Unroll(all, s.stmts, c.plugs, n + 1, ans);
      ResumePushed(all, s.stmts, c.plugs, [c'] + exec, n + 1, ans);
      RunAdvance(all, c, exec, n, ans);
      RunAdvance(all, c', exec, n + 1 + |h|, ans);
      assert Settle(c) == Settle(c');
      Associate(done, h, Resume(all, Advance([Settle(c)] + exec), n + 1 + |h|, ans));
    }
    RefinesMore(all, [c] + exec, log, start, done, exec');
  }

  // ---- What the log of an action shows

  lemma OracleAgrees(log: seq<Event>)
    ensures Agrees(OracleOf(log), log)
  {
  }

  lemma RefinesStart(all: seq<Plug>, start: Ctx)
    ensures Refines(all, [start], [], start)
  {
    forall ans: Oracle | Agrees(ans, [])
      ensures [] + Resume(all, [start], 0, ans) == RunCtx(all, start, 0, ans)
    {
      ResumeCons(all, start, [], 0, ans);
    }
  }

  /** At any moment the log is a prefix of the unrolling of the script, for every way in which
      the tests still to come may turn out. */
  lemma LogIsPrefix(all: seq<Plug>, exec: seq<Ctx>, log: seq<Event>, block: seq<Stmt>, plugs: seq<Plug>, ans: Oracle)
    requires |block| > 0 && Refines(all, exec, log, NewCtx(block, plugs)) && Agrees(ans, log)
    ensures log <= Unroll(all, block, plugs, 0, ans)
  {
    hide Run, Agrees, Resume, Unroll;
    assert block[0..] == block;
    CleanRun(all, block, plugs, 0, ans);
  }

  /** When the stack is empty the log is the full unrolling. */
  lemma LogIsComplete(all: seq<Plug>, log: seq<Event>, block: seq<Stmt>, plugs: seq<Plug>)
    requires |block| > 0 && Refines(all, [], log, NewCtx(block, plugs))
    ensures log == Unroll(all, block, plugs, 0, OracleOf(log))
  {
    hide Run, Agrees, Unroll;
    var ans := OracleOf(log);
    OracleAgrees(log);
    assert block[0..] == block;
    CleanRun(all, block, plugs, 0, ans);
    assert log + Resume(all, [], |log|, ans) == log;
  }

  // ---- Termination: statements still to be attempted

  ghost function FuelLoop(each: nat, k: nat): nat {
    if k == 0 then 0 else 1 + each + FuelLoop(each, k - 1)
  }

  /** A bound on the attempts that a statement met with these flags still takes. */
  ghost function FuelStmt(all: seq<Plug>, s: Stmt, proc: bool, itr: Option<nat>): nat
    decreases s, 0
  {
    if s.Prim?() then 1
    else if s.Foreach?() then 1 + FuelLoop(Fuel(all, s.stmts, false, None), |Over(s, Ahead(all, itr))|)
    else if proc then 1 else 2 + Fuel(all, s.stmts, false, None)
  }

  ghost function Fuel(all: seq<Plug>, block: seq<Stmt>, proc: bool, itr: Option<nat>): nat
    decreases block, 0
  {
    if |block| == 0 then 0
    else
      FuelStmt(all, block[0], proc, itr) + Fuel(all, block[1..], ProcAfter(block[0], proc), ItrAfter(block[0], itr))
  }

  ghost function FuelCtx(all: seq<Plug>, c: Ctx): nat {
    if c.pc < |c.block| then Fuel(all, c.block[c.pc..], c.processing, c.itr) else 0
  }

  ghost function FuelStack(all: seq<Plug>, exec: seq<Ctx>): nat {
    if |exec| == 0 then 0 else FuelCtx(all, exec[0]) + FuelStack(all, exec[1..])
  }

  lemma FuelCons(all: seq<Plug>, c: Ctx, exec: seq<Ctx>)
    ensures FuelStack(all, [c] + exec) == FuelCtx(all, c) + FuelStack(all, exec)
  {
    hide FuelCtx;
    assert ([c] + exec)[1..] == exec;
  }

  lemma FuelCtxStep(all: seq<Plug>, c: Ctx)
    requires c.Ok()
    ensures FuelCtx(all, c) == FuelStmt(all, c.Cur(), c.processing, c.itr) + FuelCtx(all, Settle(c).(pc := c.pc + 1))
  {
    hide FuelStmt, ProcAfter, ItrAfter;
    var c' := Settle(c).(pc := c.pc + 1);
    assert c.block[c.pc..][1..] == c.block[c.pc + 1..] && c.block[c.pc..][0] == c.Cur();
    assert FuelCtx(all, c') == Fuel(all, c.block[c.pc + 1..], c'.processing, c'.itr);
  }

  lemma FuelPositive(all: seq<Plug>, s: Stmt, proc: bool, itr: Option<nat>)
    ensures FuelStmt(all, s, proc, itr) > 0
  {
  }

  /** Going on to the next statement takes fuel. */
  lemma FuelAdvance(all: seq<Plug>, c: Ctx, exec: seq<Ctx>)
    requires c.Ok()
    ensures FuelStack(all, Advance([Settle(c)] + exec)) < FuelStack(all, [c] + exec)
  {
    hide FuelStmt, ProcAfter, ItrAfter, Fuel;
    var c' := Settle(c).(pc := c.pc + 1);
    FuelCtxStep(all, c);
    FuelPositive(all, c.Cur(), c.processing, c.itr);
    FuelCons(all, c, exec);
    assert ([Settle(c)] + exec)[1..] == exec;
    if c.pc + 1 < |c.block| { FuelCons(all, c', exec); }
  }

  /** Pushing a context takes fuel: the statement below it has one iteration or its whole
      block less to do. */
  lemma FuelPush(all: seq<Plug>, c: Ctx, exec: seq<Ctx>, c': Ctx, plugs: seq<Plug>)
    requires c.Ok() && (c.Cur().Foreach?() || c.Cur().If?()) && |c.Cur().stmts| > 0
    requires c.Cur().Foreach?() ==> c' == c.(itr := c'.itr)
    requires c.Cur().Foreach?() ==> |Over(c.Cur(), Ahead(all, c.itr))| == |Over(c.Cur(), Ahead(all, c'.itr))| + 1
    requires c.Cur().If?() ==> !c.processing && c' == c.(processing := true)
    ensures FuelStack(all, [NewCtx(c.Cur().stmts, plugs)] + ([c'] + exec)) < FuelStack(all, [c] + exec)
  {
    hide Fuel, Over, Ahead;
    var s := c.Cur();
    FuelCtxStep(all, c);
    FuelCtxStep(all, c');
    FuelCons(all, c, exec);
    FuelCons(all, c', exec);
    FuelCons(all, NewCtx(s.stmts, plugs), [c'] + exec);
    assert s.stmts[0..] == s.stmts;
    assert FuelCtx(all, NewCtx(s.stmts, plugs)) == Fuel(all, s.stmts, false, None);
    assert Settle(c) == Settle(c');
  }

  // ---- What one attempt at a statement does to the stack and the log

  ghost predicate SameBottom(exec: seq<Ctx>, exec': seq<Ctx>)
    requires |exec| > 0
  {
    && |exec'| > 0 && exec'[|exec'| - 1].block == exec[|exec| - 1].block
    && exec'[|exec'| - 1].plugs == exec[|exec| - 1].plugs
  }

  /** A context has been pushed, or the statement is over, or it is to be attempted again; in
      each case the refinement goes on, and the first two take fuel. */
  ghost predicate Kept(all: seq<Plug>, exec: seq<Ctx>, log: seq<Event>, start: Ctx, exec': seq<Ctx>, log': seq<Event>, finished: bool)
    requires |exec| > 0
  {
    && log <= log' && StackOk(exec') && SameBottom(exec, exec')
    && if |exec'| == |exec| then
         if finished
         then Refines(all, Advance(exec'), log', start) && FuelStack(all, Advance(exec')) < FuelStack(all, exec)
         else Refines(all, exec', log', start)
       else
         finished && |exec'| == |exec| + 1 && Refines(all, exec', log', start) && FuelStack(all, exec') < FuelStack(all, exec)
  }

  /** The context on top of the rest of the stack, in the middle of its script. */
  ghost predicate Running(all: seq<Plug>, c: Ctx, rest: seq<Ctx>, log: seq<Event>, start: Ctx) {
    StackOk([c] + rest) && Refines(all, [c] + rest, log, start)
  }

  lemma RunningOk(all: seq<Plug>, c: Ctx, rest: seq<Ctx>, log: seq<Event>, start: Ctx)
    requires Running(all, c, rest, log, start)
    ensures c.Ok() && Proper(c.block) && (c.Cur().Foreach?() || c.Cur().If?() ==> Proper(c.Cur().stmts) && |c.Cur().stmts| > 0)
  {
    assert ([c] + rest)[0] == c;
  }

  lemma ChangedTop(c: Ctx, rest: seq<Ctx>, c': Ctx)
    requires StackOk([c] + rest) && c'.block == c.block && c'.pc == c.pc && c'.plugs == c.plugs
    ensures StackOk([c'] + rest) && SameBottom([c] + rest, [c'] + rest)
  {
    var exec, exec' := [c] + rest, [c'] + rest;
    assert forall i :: 1 <= i < |exec| ==> exec'[i] == exec[i];
    assert exec[0] == c;
  }

  lemma PushedTop(c: Ctx, rest: seq<Ctx>, c': Ctx, new_: Ctx)
    requires StackOk([c] + rest) && c'.block == c.block && c'.pc == c.pc && c'.plugs == c.plugs
    requires new_.Ok() && Proper(new_.block)
    ensures StackOk([new_] + ([c'] + rest)) && SameBottom([c] + rest, [new_] + ([c'] + rest))
  {
    ChangedTop(c, rest, c');
    var exec' := [c'] + rest;
    assert forall i :: 1 <= i < |exec'| + 1 ==> ([new_] + exec')[i] == exec'[i - 1];
  }

  /** The statement is over, with the events it still had to do. */
  lemma KeptDone(all: seq<Plug>, c: Ctx, rest: seq<Ctx>, log: seq<Event>, start: Ctx, log': seq<Event>)
    requires Running(all, c, rest, log, start) && c.Ok() && log <= log'
    requires Refines(all, Advance([Settle(c)] + rest), log', start)
    ensures Kept(all, [c] + rest, log, start, [Settle(c)] + rest, log', true)
  {
    hide Refines, Advance, FuelStack;
    ChangedTop(c, rest, Settle(c));
    FuelAdvance(all, c, rest);
  }

  lemma SendKept(all: seq<Plug>, c: Ctx, rest: seq<Ctx>, log: seq<Event>, start: Ctx, finished: bool)
    requires Running(all, c, rest, log, start) && c.Ok() && c.Cur().Send?
    ensures Kept(all, [c] + rest, log, start, [c.(processing := !finished)] + rest,
                 log + (if c.processing then [] else [Done(c.Cur(), c.plugs)]), finished)
  {
    hide Refines, Advance, FuelStack, StackOk;
    var log' := log + (if c.processing then [] else [Done(c.Cur(), c.plugs)]);
    var sent := c.(processing := true);
    if c.processing { assert log' == log && sent == c; } else { StepSent(all, c, rest, log, start); }
    if finished {
      StepPrim(all, sent, rest, log', start);
      assert log' + [] == log' && Settle(sent) == Settle(c) == c.(processing := false);
      KeptDone(all, c, rest, log, start, log');
    } else {
      ChangedTop(c, rest, sent);
    }
  }

  lemma PrimKept(all: seq<Plug>, c: Ctx, rest: seq<Ctx>, log: seq<Event>, start: Ctx)
    requires Running(all, c, rest, log, start) && c.Ok() && (c.Cur().Expect? || c.Cur().SetPlugState?)
    ensures Kept(all, [c] + rest, log, start, [c] + rest, log + [Done(c.Cur(), c.plugs)], true)
  {
    hide Refines, Advance, FuelStack, StackOk;
    StepPrim(all, c, rest, log, start);
    assert Settle(c) == c;
    KeptDone(all, c, rest, log, start, log + [Done(c.Cur(), c.plugs)]);
  }

  lemma StallKept(all: seq<Plug>, c: Ctx, rest: seq<Ctx>, log: seq<Event>, start: Ctx)
    requires Running(all, c, rest, log, start)
    ensures Kept(all, [c] + rest, log, start, [c] + rest, log + [], false)
  {
    hide Refines, Advance, FuelStack;
    assert log + [] == log;
  }

  lemma DelayKept(all: seq<Plug>, c: Ctx, rest: seq<Ctx>, log: seq<Event>, start: Ctx, finished: bool)
    requires Running(all, c, rest, log, start) && c.Ok() && c.Cur().Delay?
    ensures Kept(all, [c] + rest, log, start, [c.(processing := !finished)] + rest,
                 log + (if finished then [Done(c.Cur(), c.plugs)] else []), finished)
  {
    hide Refines, Advance, FuelStack, StackOk;
    if finished {
      StepPrim(all, c, rest, log, start);
      assert Settle(c) == c.(processing := false);
      KeptDone(all, c, rest, log, start, log + [Done(c.Cur(), c.plugs)]);
    } else {
      assert log + [] == log;
      StepWaiting(all, c, rest, log, start);
      ChangedTop(c, rest, c.(processing := true));
    }
  }

  lemma ForeachKept(all: seq<Plug>, c: Ctx, rest: seq<Ctx>, log: seq<Event>, start: Ctx, itr: nat)
    requires Running(all, c, rest, log, start) && c.Ok() && c.Cur().Foreach?()
    ensures var ps := Over(c.Cur(), Ahead(all, c.itr));
      if ps == [] then Kept(all, [c] + rest, log, start, [c.(itr := None)] + rest, log, true)
      else Over(c.Cur(), Ahead(all, Some(itr))) == ps[1..] ==>
        Kept(all, [c] + rest, log, start, [NewCtx(c.Cur().stmts, [ps[0]])] + ([c.(itr := Some(itr))] + rest), log, true)
  {
    hide Refines, Advance, FuelStack, StackOk, Over, Ahead;
    RunningOk(all, c, rest, log, start);
    var s := c.Cur();
    var ps := Over(s, Ahead(all, c.itr));
    if ps == [] {
      StepExhausted(all, c, rest, log, start);
      assert Settle(c) == c.(itr := None);
      KeptDone(all, c, rest, log, start, log);
    } else if Over(s, Ahead(all, Some(itr))) == ps[1..] {
      var c' := c.(itr := Some(itr));
      assert ps == [ps[0]] + ps[1..];
      StepForeach(all, c, rest, log, start, ps[0], itr);
      FuelPush(all, c, rest, c', [ps[0]]);
      PushedTop(c, rest, c', NewCtx(s.stmts, [ps[0]]));
    }
  }

  lemma IfKept(all: seq<Plug>, c: Ctx, rest: seq<Ctx>, log: seq<Event>, start: Ctx, state: State)
    requires Running(all, c, rest, log, start) && c.Ok() && c.Cur().If?()
    ensures if c.processing then Kept(all, [c] + rest, log, start, [c.(processing := false)] + rest, log, true)
      else Kept(all, [c] + rest, log, start,
                if c.Cur().Holds(state) then [NewCtx(c.Cur().stmts, c.plugs)] + ([c.(processing := true)] + rest) else [c] + rest,
                log + [Tested(c.plugs, state)], true)
  {
    hide Refines, Advance, FuelStack, StackOk;
    RunningOk(all, c, rest, log, start);
    if c.processing {
      StepPrim(all, c, rest, log, start);
      assert log + [] == log && Settle(c) == c.(processing := false);
      KeptDone(all, c, rest, log, start, log);
    } else if c.Cur().Holds(state) {
      var c' := c.(processing := true);
      StepTrue(all, c, rest, log, start, state);
      FuelPush(all, c, rest, c', c.plugs);
      PushedTop(c, rest, c', NewCtx(c.Cur().stmts, c.plugs));
    } else {
      StepFalse(all, c, rest, log, start, state);
      assert Settle(c) == c;
      KeptDone(all, c, rest, log, start, log + [Tested(c.plugs, state)]);
    }
  }

  // ---- A rewound action keeps its flags

  ghost function Repeat(each: nat, k: nat): nat {
    if k == 0 then 0 else each + Repeat(each, k - 1)
  }

  /** The number of events of a block when every test finds an unknown state. */
  ghost function Size(all: seq<Plug>, block: seq<Stmt>): nat {
    if |block| == 0 then 0
    else
      (if block[0].Foreach?() then Repeat(Size(all, block[0].stmts), |Over(block[0], all)|) else 1) + Size(all, block[1..])
  }

  /** Flags left over from an earlier attempt do no harm to a block: its first send or
      ifon/ifoff finds `processing` clear (or a delay has cleared it), and its first foreach
      leaves out no plug, or has nothing to do for a plug. */
  ghost predicate Harmless(all: seq<Plug>, block: seq<Stmt>, proc: bool, itr: Option<nat>) {
    if |block| == 0 then true
    else if block[0].Foreach?() then
      && (|Over(block[0], Ahead(all, itr))| == |Over(block[0], all)| || Size(all, block[0].stmts) == 0)
      && Harmless(all, block[1..], proc, None)
    else !(proc && (block[0].Send? || block[0].If?())) && Harmless(all, block[1..], ProcAfter(block[0], proc), itr)
  }

  function AllUnknown(): Oracle {
    (i: nat) => Unknown
  }

  lemma {:induction false} SizeOfUnroll(all: seq<Plug>, block: seq<Stmt>, plugs: seq<Plug>, n: nat)
    ensures |Unroll(all, block, plugs, n, AllUnknown())| == Size(all, block)
    decreases block, 0
  {
    hide Over;
    if |block| > 0 {
      var s := block[0];
      if s.Foreach?() { SizeOfLoop(all, s.stmts, Over(s, all), n); }
      SizeOfUnroll(all, block[1..], plugs, n + |UnrollStmt(all, s, plugs, n, AllUnknown())|);
    }
  }

  lemma {:induction false} SizeOfLoop(all: seq<Plug>, block: seq<Stmt>, ps: seq<Plug>, n: nat)
    ensures |Loop(all, block, ps, n, AllUnknown())| == Repeat(Size(all, block), |ps|)
    decreases block, |ps| + 1
  {
    hide Unroll, Size;
    if |ps| > 0 {
      SizeOfUnroll(all, block, [ps[0]], n);
      SizeOfLoop(all, block, ps[1..], n + |Unroll(all, block, [ps[0]], n, AllUnknown())|);
    }
  }

  lemma {:induction false} SilentBlock(all: seq<Plug>, block: seq<Stmt>, plugs: seq<Plug>, n: nat, ans: Oracle)
    requires Size(all, block) == 0
    ensures Unroll(all, block, plugs, n, ans) == []
    decreases block, 0
  {
    hide Over, Loop, Repeat;
    if |block| > 0 {
      var s := block[0];
      var ps := Over(s, all);
      if |ps| > 0 {
        RepeatZero(Size(all, s.stmts), |ps|);
        SilentLoop(all, s.stmts, ps, n, ans);
      } else {
        LoopNone(all, s.stmts, n, ans);
      }
      assert UnrollStmt(all, s, plugs, n, ans) == [];
      SilentBlock(all, block[1..], plugs, n, ans);
    }
  }

  lemma LoopNone(all: seq<Plug>, block: seq<Stmt>, n: nat, ans: Oracle)
    ensures Loop(all, block, [], n, ans) == []
  {
  }

  lemma {:induction false} SilentLoop(all: seq<Plug>, block: seq<Stmt>, ps: seq<Plug>, n: nat, ans: Oracle)
    requires Size(all, block) == 0
    ensures Loop(all, block, ps, n, ans) == []
    decreases block, |ps| + 1
  {
    hide Unroll, Size;
    if |ps| > 0 {
      SilentBlock(all, block, [ps[0]], n, ans);
      SilentLoop(all, block, ps[1..], n, ans);
    }
  }

  lemma RepeatZero(each: nat, k: nat)
    requires k > 0
    ensures Repeat(each, k) >= each
  {
  }

  lemma {:induction false} RepeatLess(each: nat, j: nat, k: nat)
    requires j <= k
    ensures Repeat(each, j) <= Repeat(each, k)
    ensures j < k && each > 0 ==> Repeat(each, j) < Repeat(each, k)
    decreases k
  {
    if j < k { RepeatLess(each, j, k - 1); }
  }

  /** Plugs left out are the first ones. */
  lemma {:induction false} AssignedConcat(a: seq<Plug>, b: seq<Plug>)
    ensures Assigned(a + b) == Assigned(a) + Assigned(b)
  {
    if |a| == 0 {
      assert a + b == b;
    } else {
      assert (a + b)[1..] == a[1..] + b;
      AssignedConcat(a[1..], b);
    }
  }

  lemma OverAhead(all: seq<Plug>, s: Stmt, itr: Option<nat>)
    ensures |Over(s, Ahead(all, itr))| <= |Over(s, all)|
    ensures |Over(s, Ahead(all, itr))| == |Over(s, all)| ==> Over(s, Ahead(all, itr)) == Over(s, all)
  {
    if itr.Some? && itr.value <= |all| {
      assert all == all[..itr.value] + all[itr.value..];
      AssignedConcat(all[..itr.value], all[itr.value..]);
    }
  }

  lemma {:induction false} HarmlessRun(all: seq<Plug>, block: seq<Stmt>, plugs: seq<Plug>, proc: bool, itr: Option<nat>, n: nat, ans: Oracle)
    requires Harmless(all, block, proc, itr)
    ensures Run(all, block, plugs, proc, itr, n, ans) == Unroll(all, block, plugs, n, ans)
  {
    hide Over, Ahead, Loop, Size;
    if |block| > 0 {
      var s := block[0];
      var h := Rest(all, s, plugs, proc, itr, n, ans);
      if s.Foreach?() {
        OverAhead(all, s, itr);
        if Size(all, s.stmts) == 0 {
          SilentLoop(all, s.stmts, Over(s, all), n, ans);
          SilentLoop(all, s.stmts, Over(s, Ahead(all, itr)), n, ans);
        }
      }
      assert h == UnrollStmt(all, s, plugs, n, ans);
      HarmlessRun(all, block[1..], plugs, ProcAfter(s, proc), ItrAfter(s, itr), n + |h|, ans);
    }
  }

  /** Leftover flags never add an event, and take some away when they do harm. */
  lemma {:induction false} HarmfulRun(all: seq<Plug>, block: seq<Stmt>, plugs: seq<Plug>, proc: bool, itr: Option<nat>, n: nat)
    ensures |Run(all, block, plugs, proc, itr, n, AllUnknown())| <= Size(all, block)
    ensures !Harmless(all, block, proc, itr) ==> |Run(all, block, plugs, proc, itr, n, AllUnknown())| < Size(all, block)
  {
    hide Over, Ahead, Loop, Repeat;
    if |block| > 0 {
      var s := block[0];
      var h := Rest(all, s, plugs, proc, itr, n, AllUnknown());
      if s.Foreach?() {
        OverAhead(all, s, itr);
        SizeOfLoop(all, s.stmts, Over(s, Ahead(all, itr)), n);
        RepeatLess(Size(all, s.stmts), |Over(s, Ahead(all, itr))|, |Over(s, all)|);
      }
      HarmfulRun(all, block[1..], plugs, ProcAfter(s, proc), ItrAfter(s, itr), n + |h|);
    }
  }

  /** A rewound action runs its whole script again, whatever its tests find, if and only if
      the flags it kept are harmless. */
  lemma RewindExact(all: seq<Plug>, c: Ctx)
    requires |c.block| > 0
    ensures (forall ans: Oracle :: RunCtx(all, c.(pc := 0), 0, ans) == Unroll(all, c.block, c.plugs, 0, ans))
      <==> Harmless(all, c.block, c.processing, c.itr)
  {
    hide Run, Unroll, Harmless, Size;
    assert c.block[0..] == c.block;
    if Harmless(all, c.block, c.processing, c.itr) {
      forall ans: Oracle
        ensures RunCtx(all, c.(pc := 0), 0, ans) == Unroll(all, c.block, c.plugs, 0, ans)
      {
        HarmlessRun(all, c.block, c.plugs, c.processing, c.itr, 0, ans);
      }
    } else {
      HarmfulRun(all, c.block, c.plugs, c.processing, c.itr, 0);
      SizeOfUnroll(all, c.block, c.plugs, 0);
      assert RunCtx(all, c.(pc := 0), 0, AllUnknown()) != Unroll(all, c.block, c.plugs, 0, AllUnknown());
    }
  }

  /** An action rewound while it waits in its delay never sends its command. */
  lemma RewindLosesSend(all: seq<Plug>, fmt: string, tv: nat, plugs: seq<Plug>, ans: Oracle)
    ensures var c := Ctx(plugs, [Send(fmt), Delay(tv)], 1, None, true);
      RunCtx(all, c.(pc := 0), 0, ans) == [Done(Delay(tv), plugs)]
    ensures Unroll(all, [Send(fmt), Delay(tv)], plugs, 0, ans) == [Done(Send(fmt), plugs), Done(Delay(tv), plugs)]
  {
    var block := [Send(fmt), Delay(tv)];
    assert block[0..] == block && block[1..] == [Delay(tv)] && [Delay(tv)][1..] == [];
    assert Run(all, [Delay(tv)], plugs, false, None, 0, ans) == [Done(Delay(tv), plugs)];
    assert Unroll(all, [Delay(tv)], plugs, 1, ans) == [Done(Delay(tv), plugs)];
  }
}
