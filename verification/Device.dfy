/** A power control device: its queue of actions, its connection, and the interpreter that
    runs the script of the action at the head. */
module Devices {
  import opened Scripts
  import opened ArgLists
  import opened Actions

  /** A match of the regular expression engine: bytes up to the end of the match, and the
      subexpressions that took part. */
  datatype Match = Match(len: nat, subs: seq<Option<string>>)

  datatype ConnectState = NotConnected | Connecting | Connected

  /** The events that poll reports for a descriptor. */
  datatype Flags = Flags(error: bool, writable: bool, readable: bool)

  /** Seconds to wait before the next of several attempts to connect. */
  function Backoff(attempts: nat): (s: nat)
    ensures 1 <= s <= 60
  {
    match attempts
    case 0 => 1
    case 1 => 1
    case 2 => 2
    case 3 => 4
    case 4 => 8
    case 5 => 15
    case 6 => 30
    case _ => 60
  }

  // ---- Texts

  function PrintfArg(arg: Option<string>): string {
    if arg.Some? then arg.value else "(null)"
  }

  /** `hsprintf` with one string argument. */
  function Printf(fmt: string, arg: Option<string>): string {
    if |fmt| == 0 then ""
    else if |fmt| >= 2 && fmt[0] == '%' && fmt[1] == 's' then PrintfArg(arg) + Printf(fmt[2..], arg)
    else if |fmt| >= 2 && fmt[0] == '%' && fmt[1] == '%' then "%" + Printf(fmt[2..], arg)
    else [fmt[0]] + Printf(fmt[1..], arg)
  }

  function PlugNames(ps: seq<Plug>): seq<string> {
    seq(|ps|, i requires 0 <= i < |ps| => ps[i].name)
  }

  /** What a send writes for its plugs; `ranged` compresses several names into one string. */
  function SendText(fmt: string, ps: seq<Plug>, ranged: seq<string> -> string): string {
    Printf(fmt, if |ps| > 1 then Some(ranged(PlugNames(ps))) else if |ps| == 1 then Some(ps[0].name) else None)
  }

  /** The texts of all the sends among some events. */
  ghost function Written(log: seq<Event>, ranged: seq<string> -> string): string {
    if |log| == 0 then ""
    else
      (if log[0].Done? && log[0].stmt.Send? then SendText(log[0].stmt.fmt, log[0].plugs, ranged) else "")
      + Written(log[1..], ranged)
  }

  const MAX_DEV_BUF: nat := 1024 * 64

  /** What a device's buffer keeps of some bytes: the newest ones. */
  function Newest(s: string): (t: string)
    ensures |t| == if |s| <= MAX_DEV_BUF then |s| else MAX_DEV_BUF
  {
    if |s| <= MAX_DEV_BUF then s else s[|s| - MAX_DEV_BUF..]
  }

  /** The bytes on their way to the device after some events. */
  ghost function Buffered(to: string, log: seq<Event>, ranged: seq<string> -> string): string
    decreases |log|
  {
    if |log| == 0 then to
    else
      Buffered(if log[0].Done? && log[0].stmt.Send? then Newest(to + SendText(log[0].stmt.fmt, log[0].plugs, ranged)) else to,
               log[1..], ranged)
  }

  lemma {:induction false} BufferedConcat(to: string, a: seq<Event>, b: seq<Event>, ranged: seq<string> -> string)
    ensures Buffered(to, a + b, ranged) == Buffered(Buffered(to, a, ranged), b, ranged)
    decreases |a|
  {
    if |a| == 0 {
      assert a + b == b;
    } else {
      assert (a + b)[1..] == a[1..] + b;
      BufferedConcat(if a[0].Done? && a[0].stmt.Send? then Newest(to + SendText(a[0].stmt.fmt, a[0].plugs, ranged)) else to,
                     a[1..], b, ranged);
    }
  }

  lemma NewestTwice(a: string, b: string)
    ensures Newest(Newest(a) + b) == Newest(a + b)
  {
    var t := Newest(a);
    assert a + b == a[..|a| - |t|] + (t + b);
  }

  lemma NewestText(to: string, text: string, rest: string)
    requires |to| <= MAX_DEV_BUF
    ensures text == "" ==> Newest(to + text) == to
    ensures Newest(Newest(to + text) + rest) == Newest(to + (text + rest))
  {
    assert to + "" == to;
    assert (to + text) + rest == to + (text + rest);
    NewestTwice(to + text, rest);
  }

  /** They are the newest bytes of everything written: a buffer that overflows loses its oldest
      bytes and no others. */
  lemma {:induction false} BufferedWritten(to: string, log: seq<Event>, ranged: seq<string> -> string)
    requires |to| <= MAX_DEV_BUF
    ensures Buffered(to, log, ranged) == Newest(to + Written(log, ranged))
    decreases |log|
  {
    hide SendText, Newest;
    if |log| == 0 {
      NewestText(to, "", "");
    } else {
      var text := if log[0].Done? && log[0].stmt.Send? then SendText(log[0].stmt.fmt, log[0].plugs, ranged) else "";
      NewestText(to, text, Written(log[1..], ranged));
      BufferedWritten(Newest(to + text), log[1..], ranged);
    }
  }

  /** The device has taken the first bytes that were on their way to it, or they were thrown
      away. */
  predicate Unsent(to: string, was: string) {
    |to| <= |was| && to == was[|was| - |to|..]
  }

  /** The queue between the two parts of a poll, how far its actions had come, what was on its
      way to the device, and its connection. */
  datatype Pass = Pass(q: seq<Action>, marks: seq<Progress>, to: string, conn: ConnectState)

  /** All actions but logins are still there, and only the one that a new login preempts has
      moved. */
  ghost predicate MidPass(acts: seq<Action>, marks: seq<Progress>, mid: Pass) {
    && |marks| == |acts| && |mid.marks| == |mid.q|
    && (forall i :: 0 <= i < |acts| && !acts[i].com.LogIn? ==> acts[i] in mid.q)
    && forall i, j :: 0 <= i < |acts| && 0 <= j < |mid.q| && acts[i] == mid.q[j] ==>
         mid.marks[j] == marks[i] || (i == Foremost(acts) && Rewound(marks[i], mid.marks[j]))
  }

  lemma MidMarks(acts: seq<Action>, marks: seq<Progress>, now: seq<Progress>, mid: Pass)
    requires |now| == |acts| && |mid.marks| == |mid.q| && OneRewound(marks, now, Foremost(acts))
    requires forall i :: 0 <= i < |acts| && !acts[i].com.LogIn? ==> acts[i] in mid.q
    requires forall i, j :: 0 <= i < |acts| && 0 <= j < |mid.q| && acts[i] == mid.q[j] ==> now[i] == mid.marks[j]
    ensures MidPass(acts, marks, mid)
  {
  }

  /** What some actions have done since the marks, one after the other. */
  ghost function Deltas(marks: seq<Progress>, now: seq<Progress>): seq<Event> {
    if |marks| != |now| || |now| == 0 then []
    else
      var k := |now| - 1;
      Deltas(marks[..k], now[..k]) + Delta(marks[k], now[k])
  }

  ghost function Delta(p: Progress, q: Progress): seq<Event> {
    if p.log <= q.log then q.log[|p.log|..] else []
  }

  lemma DeltaMore(p: Progress, q: Progress, r: Progress)
    requires p.log <= q.log <= r.log
    ensures Delta(p, r) == Delta(p, q) + r.log[|q.log|..]
  {
  }

  /** After the marks only the actions up to number k have moved, and what they have sent is on
      its way to the device. */
  ghost predicate Conveyed(marks: seq<Progress>, now: seq<Progress>, k: nat, was: string, to: string, ranged: seq<string> -> string) {
    && |marks| == |now| && (forall i :: k < i < |now| ==> now[i] == marks[i])
    && to == Buffered(was, Deltas(marks, now), ranged)
  }

  lemma DeltaNone(p: Progress)
    ensures Delta(p, p) == []
  {
  }

  lemma {:induction false} NoDeltas(marks: seq<Progress>)
    ensures Deltas(marks, marks) == []
  {
    if |marks| > 0 {
      var k := |marks| - 1;
      NoDeltas(marks[..k]);
      DeltaNone(marks[k]);
    }
  }

  lemma ConveyedNone(marks: seq<Progress>, to: string, ranged: seq<string> -> string)
    ensures Conveyed(marks, marks, 0, to, to, ranged)
  {
    NoDeltas(marks);
  }

  lemma DeltasLast(marks: seq<Progress>, now: seq<Progress>)
    requires |marks| == |now| > 0
    ensures var l := |now| - 1; Deltas(marks, now) == Deltas(marks[..l], now[..l]) + Delta(marks[l], now[l])
  {
  }

  lemma Regrouped(a: seq<Event>, b: seq<Event>, c: seq<Event>)
    ensures a + (b + c) == (a + b) + c
    ensures b == [] ==> (a + b) + c == (a + c) + b
  {
  }

  /** The actions before number k are done, and that one goes on. */
  lemma {:induction false} DeltasMore(marks: seq<Progress>, before: seq<Progress>, now: seq<Progress>, k: nat)
    requires |marks| == |before| == |now| && k < |now|
    requires forall i :: 0 <= i < |now| && i != k ==> now[i] == before[i]
    requires forall i :: k < i < |now| ==> before[i] == marks[i]
    requires marks[k].log <= before[k].log <= now[k].log
    ensures Deltas(marks, now) == Deltas(marks, before) + now[k].log[|before[k].log|..]
  {
    hide Delta, Deltas;
    var l := |now| - 1;
    var more := now[k].log[|before[k].log|..];
    var front := Deltas(marks[..l], before[..l]);
    DeltasLast(marks, now);
    DeltasLast(marks, before);
    if k == l {
      assert now[..l] == before[..l];
      DeltaMore(marks[k], before[k], now[k]);
      Regrouped(front, Delta(marks[k], before[k]), more);
    } else {
      DeltasMore(marks[..l], before[..l], now[..l], k);
      DeltaNone(before[l]);
      Regrouped(front, [], more);
    }
  }

  lemma ConveyedMore(marks: seq<Progress>, before: seq<Progress>, now: seq<Progress>, k: nat,
                 was: string, mid: string, to: string, ranged: seq<string> -> string)
    requires Conveyed(marks, before, k, was, mid, ranged) && k < |now| == |before|
    requires forall i :: 0 <= i < |now| && i != k ==> now[i] == before[i]
    requires marks[k].log <= before[k].log <= now[k].log && to == Buffered(mid, now[k].log[|before[k].log|..], ranged)
    ensures Conveyed(marks, now, k, was, to, ranged) && Conveyed(marks, now, k + 1, was, to, ranged)
  {
    hide Buffered;
    DeltasMore(marks, before, now, k);
    BufferedConcat(was, Deltas(marks, before), now[k].log[|before[k].log|..], ranged);
  }

  /** One action of the queue has gone on. */
  lemma Moved(marks: seq<Progress>, before: seq<Progress>, acts: seq<Action>, k: nat,
              was: string, mid: string, to: string, ranged: seq<string> -> string)
    requires |marks| == |before| == |acts| && (forall i :: 0 <= i < |acts| ==> Onward(marks[i], before[i])) && k < |acts|
    requires Onward(before[k], acts[k].Now()) && forall i :: 0 <= i < |acts| && i != k ==> acts[i].Now() == before[i]
    requires Conveyed(marks, before, k, was, mid, ranged)
    requires to == Buffered(mid, acts[k].log[|before[k].log|..], ranged)
    ensures AllOnward(marks, acts)
    ensures Conveyed(marks, Marks(acts), k, was, to, ranged) && Conveyed(marks, Marks(acts), k + 1, was, to, ranged)
  {
    hide Buffered, Conveyed;
    OneOnward(marks, before, acts, k);
    MarksAre(acts);
    ConveyedMore(marks, before, Marks(acts), k, was, mid, to, ranged);
  }

  /** `_memtrans` */
  function Translated(s: string, a: char, b: char): string {
    seq(|s|, i requires 0 <= i < |s| => if s[i] == a then b else s[i])
  }

  method Memtrans(m: array<char>, a: char, b: char)
    modifies m
    ensures m[..] == Translated(old(m[..]), a, b)
  {
    for i := 0 to m.Length
      invariant forall k :: 0 <= k < i ==> m[k] == if old(m[k]) == a then b else old(m[k])
      invariant forall k :: i <= k < m.Length ==> m[k] == old(m[k])
    {
      if m[i] == a { m[i] := b; }
    }
  }

  /** `pluglist_find`: the first plug of that name, if a node is assigned to it. */
  function PlugFind(ps: seq<Plug>, name: string): (r: Option<Plug>)
    ensures r.Some? ==> r.value in ps && r.value.name == name && r.value.node.Some?
  {
    if |ps| == 0 then None
    else if ps[0].name == name then (if ps[0].node.Some? then Some(ps[0]) else None)
    else PlugFind(ps[1..], name)
  }

  lemma {:induction false} PlugFindAt(ps: seq<Plug>, name: string, i: nat)
    requires i < |ps| && ps[i].name == name && forall j :: 0 <= j < i ==> ps[j].name != name
    ensures PlugFind(ps, name) == if ps[i].node.Some? then Some(ps[i]) else None
  {
    if i > 0 {
      assert forall j :: 0 <= j < i ==> ps[1..][j] == ps[j + 1];
      PlugFindAt(ps[1..], name, i - 1);
    }
  }

  lemma {:induction false} PlugFindNone(ps: seq<Plug>, name: string)
    requires forall i :: 0 <= i < |ps| ==> ps[i].name != name
    ensures PlugFind(ps, name) == None
  {
    if |ps| > 0 { PlugFindNone(ps[1..], name); }
  }

  /** The first plug of that name decides, and without one nothing is found. */
  lemma PlugFindFirst(ps: seq<Plug>, name: string)
    ensures forall i :: 0 <= i < |ps| && ps[i].name == name && (forall j :: 0 <= j < i ==> ps[j].name != name) ==>
      PlugFind(ps, name) == if ps[i].node.Some? then Some(ps[i]) else None
    ensures (forall i :: 0 <= i < |ps| ==> ps[i].name != name) ==> PlugFind(ps, name) == None
  {
    hide PlugFind;
    forall i | 0 <= i < |ps| && ps[i].name == name && forall j :: 0 <= j < i ==> ps[j].name != name
      ensures PlugFind(ps, name) == if ps[i].node.Some? then Some(ps[i]) else None
    {
      PlugFindAt(ps, name, i);
    }
    if forall i :: 0 <= i < |ps| ==> ps[i].name != name { PlugFindNone(ps, name); }
  }

  /** The state of the first interpretation that matches. */
  function Interpret(interps: seq<Interp>, s: string, engine: (string, string) -> Option<Match>): State {
    if |interps| == 0 then Unknown
    else if engine(interps[0].re, s).Some? then interps[0].state
    else Interpret(interps[1..], s, engine)
  }

  method FindInterp(interps: seq<Interp>, s: string, engine: (string, string) -> Option<Match>) returns (state: State)
    ensures state == Interpret(interps, s, engine)
  {
    state := Unknown;
    assert interps[0..] == interps;
    for i := 0 to |interps|
      invariant state == Unknown && Interpret(interps, s, engine) == Interpret(interps[i..], s, engine)
    {
      assert interps[i..][0] == interps[i] && interps[i..][1..] == interps[i + 1..];
      if engine(interps[i].re, s).Some? {
        state := interps[i].state;
        return;
      }
    }
  }

  /** `xregex_match_sub_strdup` */
  function SubMatch(xmatch: Option<Match>, i: int): Option<string> {
    if xmatch.Some? && 0 <= i < |xmatch.value.subs| then xmatch.value.subs[i] else None
  }

  /** The plug that a setplugstate speaks of: literal, matched, or the target of the action. */
  function StatePlug(s: Stmt, ps: seq<Plug>, xmatch: Option<Match>): Option<string>
    requires s.SetPlugState?
  {
    if s.plugName.Some? then s.plugName
    else if SubMatch(xmatch, s.plugMp).Some? then SubMatch(xmatch, s.plugMp)
    else if |ps| > 0 then Some(ps[0].name)
    else None
  }

  /** The result that a setplugstate records, and for which node. */
  function StateSet(s: Stmt, ps: seq<Plug>, xmatch: Option<Match>, all: seq<Plug>,
                    engine: (string, string) -> Option<Match>): Option<(string, Arg)>
    requires s.SetPlugState?
  {
    var name, str := StatePlug(s, ps, xmatch), SubMatch(xmatch, s.statMp);
    if name.None? || str.None? || PlugFind(all, name.value).None? then None
    else Some((PlugFind(all, name.value).value.node.value, Arg(str, Interpret(s.interps, str.value, engine))))
  }

  /** The result list after a setplugstate. */
  function ArgsSet(args: map<string, Arg>, set_: Option<(string, Arg)>): map<string, Arg> {
    if set_.Some? && set_.value.0 in args then args[set_.value.0 := set_.value.1] else args
  }

  /** The state recorded for the first of some plugs. */
  function StateOf(args: map<string, Arg>, ps: seq<Plug>): State {
    if |ps| > 0 && ps[0].node.Some? && ps[0].node.value in args then args[ps[0].node.value].state else Unknown
  }

  /** Every test among some events has found the state recorded. */
  ghost predicate Found(log: seq<Event>, args: map<string, Arg>) {
    forall i :: 0 <= i < |log| && log[i].Tested? ==> log[i].state == StateOf(args, log[i].plugs)
  }

  /** `gettimeofday`: any time. */
  method GetTimeOfDay() returns (now: nat)
    ensures now > 0
  {
    var t: int := *;
    now := if t > 0 then t else 1;
  }

  /** The error of the actions behind one that failed. */
  function AbortOf(res: ActError): ActError {
    if res == ExpFail then Abort else res
  }

  class Device {
    const plugs: seq<Plug>
    const scripts: map<Com, seq<Stmt>>
    const timeout: nat
    const pingPeriod: nat
    const shortCircuit: bool
    /** The regular expression engine, and the compression of several plug names. */
    const engine: (string, string) -> Option<Match>
    const ranged: seq<string> -> string

    var connectState: ConnectState
    var loggedIn: bool
    var acts: seq<Action>
    var xmatch: Option<Match>
    /** Bytes on their way to the device, and bytes it has sent. */
    var to: string
    var from: string
    var lastRetry: nat
    var retryCount: nat
    var lastPing: nat
    /** The actions that have ended, in order. */
    ghost var history: seq<Ending>

    /** `dev_create`, with the configuration that the parser fills in. */
    constructor (plugs: seq<Plug>, scripts: map<Com, seq<Stmt>>, timeout: nat, pingPeriod: nat, shortCircuit: bool,
                 engine: (string, string) -> Option<Match>, ranged: seq<string> -> string)
      requires LogIn in scripts && forall c :: c in scripts ==> Proper(scripts[c])
      ensures this.plugs == plugs && this.scripts == scripts && this.engine == engine && this.ranged == ranged
      ensures Valid() && acts == [] && connectState == NotConnected && !loggedIn && retryCount == 0 && history == []
    {
      this.plugs, this.scripts, this.timeout, this.pingPeriod := plugs, scripts, timeout, pingPeriod;
      this.shortCircuit, this.engine, this.ranged := shortCircuit, engine, ranged;
      connectState, loggedIn, acts, xmatch, to, from := NotConnected, false, [], None, "", "";
      lastRetry, retryCount, lastPing, history := 0, 0, 0, [];
    }

    // ---- Statements

    /** `_process_send`: written once, and over when the device has taken everything. */
    method ProcessSend(act: Action) returns (finished: bool)
      requires act.Queued(plugs) && act.exec[0].Cur().Send?
      modifies this`to, act`exec, act`log
      ensures var c := old(act.exec[0]);
        && to == (if c.processing then old(to) else Newest(old(to) + SendText(c.Cur().fmt, c.plugs, ranged)))
        && act.log == old(act.log) + (if c.processing then [] else [Done(c.Cur(), c.plugs)])
        && finished == (to == "")
        && act.exec == [c.(processing := !finished)] + old(act.exec)[1..]
      ensures act.Attempted(plugs, old(act.exec), old(act.log), finished)
      ensures to == Buffered(old(to), act.log[|old(act.log)|..], ranged)
      ensures Found(act.log[|old(act.log)|..], old(Results(act))) && (!finished ==> Blocked(act))
    {
      hide Refines, Advance, FuelStack, StackOk, Proper, Over, Ahead, Buffered, Newest, SendText, Found, Kept, Running;
      ghost var rest, log := act.exec[1..], act.log;
      Starting(plugs, act);
      var e := act.exec[0];
      finished := false;
      if !e.processing {
        to := Newest(to + SendText(e.Cur().fmt, e.plugs, ranged));
        act.log := act.log + [Done(e.Cur(), e.plugs)];
        act.exec := [e.(processing := true)] + act.exec[1..];
        assert act.exec[1..] == rest;
      }
      if to == "" {
        act.exec := [e.(processing := false)] + act.exec[1..];
        finished := true;
      }
      assert act.exec == [e.(processing := !finished)] + rest;
      assert act.log == log + (if e.processing then [] else [Done(e.Cur(), e.plugs)]);
      SendKept(plugs, e, rest, log, act.start, finished);
      FoundStep(log, act.log, old(Results(act)));
      BufferedStep(old(to), log, act.log, ranged);
      KeptBase(plugs, [e] + rest, log, act.start, act.exec, act.log, finished);
    }

    /** What the engine finds in the input. */
    ghost function MatchOf(re: string): Option<Match>
      reads this
    {
      if from == "" then None else engine(re, Translated(from, '\0', 255 as char))
    }

    /** `_process_expect` with `_getregex_buf`: consumes the input up to the end of the match. */
    method ProcessExpect(act: Action) returns (finished: bool)
      requires act.Queued(plugs) && act.exec[0].Cur().Expect?
      modifies this`from, this`xmatch, act`log
      ensures var c := act.exec[0];
        && xmatch == old(MatchOf(c.Cur().re))
        && finished == xmatch.Some?
        && from == (if finished then old(from)[if xmatch.value.len < |old(from)| then xmatch.value.len else |old(from)|..] else old(from))
        && act.log == old(act.log) + (if finished then [Done(c.Cur(), c.plugs)] else [])
      ensures act.Attempted(plugs, old(act.exec), old(act.log), finished)
      ensures to == Buffered(old(to), act.log[|old(act.log)|..], ranged)
      ensures Found(act.log[|old(act.log)|..], old(Results(act))) && (!finished ==> Blocked(act))
    {
      hide Refines, Advance, FuelStack, StackOk, Proper, Over, Ahead, Buffered, Newest, SendText, Found, Kept, Running;
      ghost var rest, log := act.exec[1..], act.log;
      Starting(plugs, act);
      var e := act.exec[0];
      finished := false;
      xmatch := None;
      if |from| > 0 {
        var str := new char[|from|](i requires 0 <= i < |from| reads this => from[i]);
        assert str[..] == from;
        Memtrans(str, '\0', 255 as char);
        xmatch := engine(e.Cur().re, str[..]);
        if xmatch.Some? {
          from := from[if xmatch.value.len < |from| then xmatch.value.len else |from|..];
          finished := true;
          act.log := act.log + [Done(e.Cur(), e.plugs)];
        }
      }
      if finished { PrimKept(plugs, e, rest, log, act.start); } else { StallKept(plugs, e, rest, log, act.start); }
      FoundStep(log, act.log, old(Results(act)));
      BufferedStep(old(to), log, act.log, ranged);
      KeptBase(plugs, [e] + rest, log, act.start, act.exec, act.log, finished);
    }

    /** Records the interpreted status of a plug's node, if the last match names a plug in use
        and one of the nodes asked for. */
    method RecordState(s: Stmt, ps: seq<Plug>, arglist: ArgList?)
      requires s.SetPlugState? && (arglist != null ==> arglist.refcount > 0)
      modifies (if arglist == null then {} else {arglist})`args
      ensures arglist != null ==> arglist.args == ArgsSet(old(arglist.args), StateSet(s, ps, xmatch, plugs, engine))
    {
      var plugName := s.plugName;
      if plugName.None? {
        plugName := SubMatch(xmatch, s.plugMp);
      }
      if plugName.None? && |ps| > 0 {
        plugName := Some(ps[0].name);
      }
      if plugName.Some? {
        var str := SubMatch(xmatch, s.statMp);
        var plug := PlugFind(plugs, plugName.value);
        if str.Some? && plug.Some? {
          var state := FindInterp(s.interps, str.value, engine);
          if arglist != null {
            var arg := arglist.Find(plug.value.node);
            if arg.Some? {
              arglist.Set(plug.value.node.value, Arg(str, state));
            }
          }
        }
      }
    }

    /** `_process_setplugstate` */
    method ProcessSetPlugState(act: Action) returns (finished: bool)
      requires act.Queued(plugs) && act.exec[0].Cur().SetPlugState?
      requires act.arglist != null ==> act.arglist.refcount > 0
      modifies act`log, (if act.arglist == null then {} else {act.arglist})`args
      ensures finished
      ensures var c := act.exec[0]; act.log == old(act.log) + [Done(c.Cur(), c.plugs)]
      ensures var c := act.exec[0];
        Results(act) == ArgsSet(old(Results(act)), StateSet(c.Cur(), c.plugs, xmatch, plugs, engine))
      ensures act.Attempted(plugs, old(act.exec), old(act.log), finished)
      ensures to == Buffered(old(to), act.log[|old(act.log)|..], ranged)
      ensures Found(act.log[|old(act.log)|..], old(Results(act)))
    {
      hide Refines, Advance, FuelStack, StackOk, Proper, Over, Ahead, Buffered, Newest, SendText, Kept, Running, Found, ArgsSet, StateSet;
      ghost var rest, log := act.exec[1..], act.log;
      Starting(plugs, act);
      finished := true;
      var e := act.exec[0];
      RecordState(e.Cur(), e.plugs, act.arglist);
      NothingSet(StateSet(e.Cur(), e.plugs, xmatch, plugs, engine));
      act.log := act.log + [Done(e.Cur(), e.plugs)];
      PrimKept(plugs, e, rest, log, act.start);
      FoundStep(log, act.log, old(Results(act)));
      BufferedStep(old(to), log, act.log, ranged);
      KeptBase(plugs, [e] + rest, log, act.start, act.exec, act.log, finished);
    }

    /** `_process_delay` */
    method ProcessDelay(act: Action) returns (finished: bool, ghost now: nat)
      requires act.Queued(plugs) && act.exec[0].Cur().Delay?
      modifies act`exec, act`log, act`delayStart
      ensures var c := old(act.exec[0]);
        && (c.processing ==> act.delayStart == old(act.delayStart))
        && finished == (shortCircuit || now >= act.delayStart + c.Cur().tv)
        && act.exec == [c.(processing := !finished)] + old(act.exec)[1..]
        && act.log == old(act.log) + (if finished then [Done(c.Cur(), c.plugs)] else [])
      ensures act.Attempted(plugs, old(act.exec), old(act.log), finished)
      ensures to == Buffered(old(to), act.log[|old(act.log)|..], ranged)
      ensures Found(act.log[|old(act.log)|..], old(Results(act))) && (!finished ==> Blocked(act))
    {
      hide Refines, Advance, FuelStack, StackOk, Proper, Over, Ahead, Buffered, Newest, SendText, Found, Kept, Running;
      ghost var rest, log := act.exec[1..], act.log;
      Starting(plugs, act);
      var e := act.exec[0];
      finished := false;
      if !e.processing {
        act.exec := [e.(processing := true)] + act.exec[1..];
        act.delayStart := GetTimeOfDay();
      }
      assert act.exec[1..] == old(act.exec)[1..];
      var t := GetTimeOfDay();
      now := t;
      if shortCircuit || t >= act.delayStart + e.Cur().tv {
        act.exec := [e.(processing := false)] + act.exec[1..];
        act.log := act.log + [Done(e.Cur(), e.plugs)];
        finished := true;
      }
      assert act.exec == [e.(processing := !finished)] + rest;
      assert act.log == log + (if finished then [Done(e.Cur(), e.plugs)] else []);
      DelayKept(plugs, e, rest, log, act.start, finished);
      FoundStep(log, act.log, old(Results(act)));
      BufferedStep(old(to), log, act.log, ranged);
      KeptBase(plugs, [e] + rest, log, act.start, act.exec, act.log, finished);
    }

    /** The plug iterator moved to the next plug that a foreach runs over, and past it. */
    method NextPlug(s: Stmt, itr: nat) returns (plug: Option<Plug>, next: nat)
      requires s.Foreach?()
      ensures var ps := Over(s, Ahead(plugs, Some(itr)));
        if ps == [] then plug == None
        else plug == Some(ps[0]) && Over(s, Ahead(plugs, Some(next))) == ps[1..]
    {
      hide Over, Ahead;
      ghost var ps := Over(s, Ahead(plugs, Some(itr)));
      plug, next := None, itr;
      while next < |plugs|
        invariant ps == Over(s, Ahead(plugs, Some(next)))
        decreases |plugs| - next
      {
        AheadStep(plugs, s, next);
        plug, next := Some(plugs[next]), next + 1;
        if s.ForeachPlug? || plug.value.node.Some? { return; }
      }
      AheadEnd(plugs, s, next);
      plug := None;
    }

    /** `_process_foreach`: pushes the block for the next plug, until there is none. */
    method ProcessForeach(act: Action) returns (finished: bool, ghost itr: nat)
      requires act.Queued(plugs) && act.exec[0].Cur().Foreach?()
      modifies act`exec
      ensures finished
      ensures var c := old(act.exec[0]);
        var ps := Over(c.Cur(), Ahead(plugs, c.itr));
        if ps == [] then act.exec == [c.(itr := None)] + old(act.exec)[1..]
        else
          && Over(c.Cur(), Ahead(plugs, Some(itr))) == ps[1..]
          && act.exec == [NewCtx(c.Cur().stmts, [ps[0]])] + ([c.(itr := Some(itr))] + old(act.exec)[1..])
      ensures act.Attempted(plugs, old(act.exec), old(act.log), finished)
      ensures to == Buffered(old(to), act.log[|old(act.log)|..], ranged)
      ensures Found(act.log[|old(act.log)|..], old(Results(act)))
    {
      hide Refines, Advance, FuelStack, StackOk, Proper, Over, Ahead, Buffered, Newest, SendText, Found, Kept, Running;
      ghost var rest, log := act.exec[1..], act.log;
      Starting(plugs, act);
      finished := true;
      var e := act.exec[0];
      AheadStart(plugs);
      var plug, next := NextPlug(e.Cur(), if e.itr.None? then 0 else e.itr.value);
      itr := next;
      if plug.Some? {
        act.exec := [NewCtx(e.Cur().stmts, [plug.value])] + ([e.(itr := Some(next))] + act.exec[1..]);
      } else {
        act.exec := [e.(itr := None)] + act.exec[1..];
      }
      ForeachKept(plugs, e, rest, log, act.start, itr);
      FoundStep(log, act.log, old(Results(act)));
      BufferedStep(old(to), log, act.log, ranged);
      KeptBase(plugs, [e] + rest, log, act.start, act.exec, act.log, finished);
    }

    /** The results that an action can see. */
    ghost function Results(act: Action): map<string, Arg>
      reads act.arglist
    {
      if act.arglist == null then map[] else act.arglist.args
    }

    /** `_process_ifonoff`: pushes the block if the recorded state matches, and fails the action
        if it is unknown. */
    method ProcessIfOnOff(act: Action) returns (finished: bool)
      requires act.Queued(plugs) && act.exec[0].Cur().If?()
      requires act.arglist != null ==> act.arglist.refcount > 0
      modifies act`exec, act`log, act`errnum
      ensures finished
      ensures var c := old(act.exec[0]);
        var state := StateOf(Results(act), c.plugs);
        if c.processing then
          && act.exec == [c.(processing := false)] + old(act.exec)[1..]
          && act.log == old(act.log) && act.errnum == old(act.errnum)
        else
          && act.log == old(act.log) + [Tested(c.plugs, state)]
          && act.errnum == (if state == Unknown then ExpFail else old(act.errnum))
          && act.exec == if c.Cur().Holds(state)
                         then [NewCtx(c.Cur().stmts, c.plugs)] + ([c.(processing := true)] + old(act.exec)[1..])
                         else old(act.exec)
      ensures act.Attempted(plugs, old(act.exec), old(act.log), finished)
      ensures to == Buffered(old(to), act.log[|old(act.log)|..], ranged)
      ensures Found(act.log[|old(act.log)|..], old(Results(act)))
    {
      hide Refines, Advance, FuelStack, StackOk, Proper, Over, Ahead, Buffered, Newest, SendText, Found, Kept, Running;
      ghost var rest, log := act.exec[1..], act.log;
      Starting(plugs, act);
      ghost var state0 := StateOf(Results(act), act.exec[0].plugs);
      finished := true;
      var e := act.exec[0];
      if e.processing {
        act.exec := [e.(processing := false)] + act.exec[1..];
      } else {
        var state, condition := Unknown, false;
        if |e.plugs| > 0 && act.arglist != null {
          var arg := act.arglist.Find(e.plugs[0].node);
          if arg.Some? {
            state := arg.value.state;
          }
        }
        if e.Cur().IfOn? && state == On {
          condition := true;
        } else if e.Cur().IfOff? && state == Off {
          condition := true;
        } else if state == Unknown {
          act.errnum := ExpFail;
        }
        act.log := act.log + [Tested(e.plugs, state)];
        if condition {
          act.exec := [NewCtx(e.Cur().stmts, e.plugs)] + ([e.(processing := true)] + act.exec[1..]);
        }
      }
      IfKept(plugs, e, rest, log, act.start, state0);
      FoundStep(log, act.log, old(Results(act)));
      BufferedStep(old(to), log, act.log, ranged);
      KeptBase(plugs, [e] + rest, log, act.start, act.exec, act.log, finished);
    }

    // ---- One action

    /** An action cannot go on: the device is not connected, has not taken the last text, has
        not sent what is expected, or a delay is running. */
    ghost predicate Blocked(act: Action)
      reads this, act
    {
      connectState == Connected ==>
        && |act.exec| > 0 && act.exec[0].Ok()
        && var s := act.exec[0].Cur();
          (s.Send? && to != "") || (s.Expect? && MatchOf(s.re).None?) || s.Delay?
    }

    /** The device has done what it could: the first action in its queue cannot go on, but for
        a login after a reconnect. */
    ghost predicate Idle()
      reads this, acts
    {
      |acts| > 0 ==> acts[0].com.LogIn? || Blocked(acts[0])
    }

    /** The result list of an action is alive. */
    ghost predicate Held(act: Action)
      reads act.arglist
    {
      act.arglist != null ==> act.arglist.refcount > 0
    }

    /** Statements are attempted on a connected device only, and before the login script has
        run only those of that script. */
    ghost predicate Allowed(act: Action)
      reads this
    {
      connectState == Connected && (loggedIn || act.com.LogIn?)
    }

    /** `_process_stmt`: the refinement goes on, what the sends write is what the log shows, a
        test finds the state recorded, and only a setplugstate records one. */
    method ProcessStmt(act: Action) returns (finished: bool)
      requires act.Queued(plugs) && Held(act) && Allowed(act)
      modifies this`to, this`from, this`xmatch, act`exec, act`log, act`errnum, act`delayStart
      modifies (if act.arglist == null then {} else {act.arglist})`args
      ensures act.Attempted(plugs, old(act.exec), old(act.log), finished)
      ensures act.errnum == Success || (act.errnum == ExpFail && finished && |act.exec| == |old(act.exec)|)
      ensures !finished ==> Blocked(act)
      ensures to == Buffered(old(to), act.log[|old(act.log)|..], ranged)
      ensures Found(act.log[|old(act.log)|..], old(Results(act)))
      ensures var c := old(act.exec[0]);
        if c.Cur().SetPlugState?
        then |act.exec| == |old(act.exec)| &&
             Results(act) == ArgsSet(old(Results(act)), StateSet(c.Cur(), c.plugs, old(xmatch), plugs, engine))
        else Results(act) == old(Results(act))
    {
      hide Buffered, Kept, ArgsSet, StateSet, StateOf, Found, Refines, Running, Proper, Decided, SendText, Newest, Over, Ahead;
      hide Action.Queued, Action.Attempted, Action.Base, StackOk, Blocked, MatchOf, Translated;
      Ready(plugs, act);
      var e := act.exec[0];
      finished := false;
      if e.Cur().Expect? {
        finished := ProcessExpect(act);
      } else if e.Cur().Send? {
        finished := ProcessSend(act);
      } else if e.Cur().SetPlugState? {
        finished := ProcessSetPlugState(act);
      } else if e.Cur().Delay? {
        ghost var now;
        finished, now := ProcessDelay(act);
      } else if e.Cur().Foreach?() {
        ghost var itr;
        finished, itr := ProcessForeach(act);
      } else {
        finished := ProcessIfOnOff(act);
      }
    }

    /** The inner loop of `_process_action`: attempts statements as long as they push contexts. */
    method RunStmts(act: Action) returns (finished: bool)
      requires act.Queued(plugs) && Held(act) && Allowed(act)
      modifies this`to, this`from, this`xmatch, act`exec, act`log, act`errnum, act`delayStart
      modifies (if act.arglist == null then {} else {act.arglist})`args
      ensures if finished then act.Over(plugs) && FuelStack(plugs, Advance(act.exec)) < old(act.Fuel(plugs)) else act.Queued(plugs)
      ensures act.errnum == Success || (act.errnum == ExpFail && finished)
      ensures !finished ==> Blocked(act)
      ensures old(act.log) <= act.log && to == Buffered(old(to), act.log[|old(act.log)|..], ranged)
      ensures Found(act.log[|old(act.log)|..], old(Results(act)))
    {
      hide Refines, Advance, FuelStack, StackOk, Proper, Buffered, Kept, Decided, ArgsSet, StateSet, Found;
      ghost var was, wasLog, wasTo, args := act.exec, act.log, to, Results(act);
      var depth: nat := |act.exec|;
      finished := ProcessStmt(act);
      AttemptEnd(plugs, act, was, wasLog, finished);
      while |act.exec| != depth
        invariant act.Attempt(plugs, depth, finished, FuelStack(plugs, was))
        invariant act.errnum == Success || (act.errnum == ExpFail && finished && |act.exec| == depth)
        invariant !finished ==> Blocked(act)
        invariant wasLog <= act.log && to == Buffered(wasTo, act.log[|wasLog|..], ranged)
        invariant Found(act.log[|wasLog|..], args) && (|act.exec| != depth ==> Results(act) == args)
        decreases if |act.exec| != depth then FuelStack(plugs, act.exec) + 1 else 0
      {
        ghost var exec, log := act.exec, act.log;
        depth := |act.exec|;
        finished := ProcessStmt(act);
        AttemptEnd(plugs, act, exec, log, finished);
        BufferedMore(wasTo, wasLog, log, act.log, ranged);
        FoundMore(wasLog, log, act.log, args);
      }
    }

    // ---- The queue

    /** The login script runs first: a login action waits at the head of the queue exactly while
        the device is connected and not logged in, and nowhere else. */
    ghost predicate LoginFirst()
      reads this`acts, this`connectState, this`loggedIn
    {
      && (|acts| > 0 && acts[0].com.LogIn? <==> connectState == Connected && !loggedIn)
      && (forall i :: 1 <= i < |acts| ==> !acts[i].com.LogIn?)
      && (loggedIn ==> connectState == Connected)
    }

    ghost predicate ScriptsOk() {
      LogIn in scripts && forall c :: c in scripts ==> Proper(scripts[c])
    }

    /** The device and its queue, without the result lists that other devices share. */
    ghost predicate Core()
      reads this, acts
    {
      ScriptsOk() && QueueOk(plugs, acts) && LoginFirst() && Faithful(plugs, history)
    }

    ghost predicate Valid()
      reads this, acts, Lists(acts)
    {
      Core() && AllHeld(acts)
    }

    /** What a disconnect needs: after an error the queue may lack its login action. */
    ghost predicate Waiting()
      reads this, acts, Lists(acts)
    {
      && ScriptsOk() && QueueOk(plugs, acts) && AllHeld(acts) && Faithful(plugs, history)
      && forall i :: 1 <= i < |acts| ==> !acts[i].com.LogIn?
    }

    /** The actions that wait on the device, and the ones that have ended. */
    ghost function Standing(): Stand
      reads this`acts, this`history, acts
    {
      Stand(map a | a in acts && !a.com.LogIn? :: a.Now(), history)
    }

    /** `_enqueue_login`: the login action goes ahead of the action it preempts, which is
        rewound. */
    method EnqueueLogin() returns (act: Action)
      requires ScriptsOk() && QueueOk(plugs, acts) && connectState == Connected && !loggedIn
      requires forall i :: 0 <= i < |acts| ==> !acts[i].com.LogIn?
      modifies this`acts
      modifies (if |acts| > 0 then {acts[0]} else {})`exec, (if |acts| > 0 then {acts[0]} else {})`log, (if |acts| > 0 then {acts[0]} else {})`start, (if |acts| > 0 then {acts[0]} else {})`rewinds
      ensures fresh(act) && acts == [act] + old(acts) && act.com == LogIn && act.arglist == null && QueueOk(plugs, acts) && LoginFirst()
      ensures |old(acts)| > 0 ==> var a := old(acts)[0];
        a.exec == [old(a.exec[|a.exec| - 1]).(pc := 0)] && a.Now() == Progress(a.exec[0], [], old(a.rewinds) + 1)
      ensures OneRewound(old(Marks(acts)), Marks(old(acts)), 0)
    {
      hide Refines, StackOk, Proper, Decided, Marks, OneRewound;
      ghost var q, was := acts, Marks(acts);
      MarksAre(q);
      if |acts| > 0 {
        acts[0].Rewind(plugs);
      }
      MarksAre(q);
      HeadRewound(was, Marks(q));
      act := new Action(LogIn, scripts[LogIn], [], false, 0, null);
      acts := [act] + acts;
    }

    /** `_disconnect` */
    method Disconnect()
      requires Waiting() && connectState != NotConnected
      modifies this`connectState, this`loggedIn, this`acts, this`to, this`from
      ensures Valid() && connectState == NotConnected && to == "" && from == ""
      ensures acts == if |old(acts)| > 0 && old(acts)[0].com.LogIn? then old(acts)[1..] else old(acts)
    {
      from, to := "", "";
      connectState, loggedIn := NotConnected, false;
      if |acts| > 0 && acts[0].com.LogIn? {
        HeldTail(acts);
        acts := acts[1..];
      }
    }

    /** `_connect`: the attempt succeeds, fails or is in progress. */
    method Connect() returns (connected: bool)
      requires Valid() && connectState == NotConnected
      modifies this`connectState, this`acts, this`lastRetry, this`retryCount
      modifies (if |acts| > 0 then {acts[0]} else {})`exec, (if |acts| > 0 then {acts[0]} else {})`log, (if |acts| > 0 then {acts[0]} else {})`start, (if |acts| > 0 then {acts[0]} else {})`rewinds
      ensures Valid() && connected == (connectState == Connected)
      ensures connected ==> |acts| > 0 && fresh(acts[0]) && acts[0].com.LogIn? && acts[1..] == old(acts)
      ensures !connected ==> acts == old(acts)
      ensures if connected then OneRewound(old(Marks(acts)), Marks(old(acts)), 0) else Marks(old(acts)) == old(Marks(acts))
      ensures retryCount == old(retryCount) + 1
    {
      hide QueueOk, Refs, AllHeld, Faithful, OneRewound, Marks;
      assert forall l :: l in Lists(acts) ==> allocated(l);
      ghost var q := acts;
      lastRetry := GetTimeOfDay();
      retryCount := retryCount + 1;
      var outcome: ConnectState := *;
      connectState := outcome;
      connected := connectState == Connected;
      if connected {
        LoginConnected(q);
      }
    }

    /** The login goes ahead of the queue, whose result lists stay alive. */
    method LoginConnected(ghost q: seq<Action>)
      requires ScriptsOk() && QueueOk(plugs, acts) && connectState == Connected && !loggedIn && q == acts && AllHeld(q)
      requires Faithful(plugs, history) && forall i :: 0 <= i < |acts| ==> !acts[i].com.LogIn?
      modifies this`acts
      modifies (if |acts| > 0 then {acts[0]} else {})`exec, (if |acts| > 0 then {acts[0]} else {})`log, (if |acts| > 0 then {acts[0]} else {})`start, (if |acts| > 0 then {acts[0]} else {})`rewinds
      ensures Valid() && |acts| > 0 && fresh(acts[0]) && acts[0].com.LogIn? && acts[1..] == q
      ensures OneRewound(old(Marks(acts)), Marks(q), 0)
    {
      hide QueueOk, Refs, AllHeld, Faithful, OneRewound, Marks;
      assert forall l :: l in Lists(acts) ==> allocated(l);
      var act := EnqueueLogin();
      HeldCons(act, q);
      assert acts[1..] == q;
    }

    /** `_time_to_reconnect`: retries back off from one second to a minute. */
    method TimeToReconnect() returns (reconnect: bool, now: nat)
      ensures reconnect == (retryCount == 0 || now >= lastRetry + 1000000 * Backoff(retryCount))
    {
      now := 0;
      reconnect := true;
      var rtab := [1, 2, 4, 8, 15, 30, 60];
      if retryCount > 0 {
        var rix := retryCount - 1;
        now := GetTimeOfDay();
        reconnect := now >= lastRetry + 1000000 * rtab[if rix > |rtab| - 1 then |rtab| - 1 else rix];
      }
    }

    /** `_reconnect` */
    method Reconnect() returns (connected: bool)
      requires Waiting() && (connectState == NotConnected ==> LoginFirst())
      modifies this`connectState, this`loggedIn, this`acts, this`to, this`from, this`lastRetry, this`retryCount
      modifies acts`exec, acts`log, acts`start, acts`rewinds
      ensures Valid() && connected == (connectState == Connected)
      ensures Reconnected(old(acts), acts) && (connected ==> |acts| > 0 && fresh(acts[0]))
      ensures OneRewound(old(Marks(acts)), Marks(old(acts)), Foremost(old(acts)))
      ensures !connected ==> Marks(old(acts)) == old(Marks(acts))
      ensures !loggedIn && (old(retryCount) == 0 ==> retryCount == 1)
      ensures to == if old(connectState) == NotConnected then old(to) else ""
    {
      hide QueueOk, Refs, Faithful, OneRewound, Marks, Unsent, Action.Queued;
      ghost var q, was := acts, Marks(acts);
      if connectState != NotConnected {
        Disconnect();
      }
      MarksTail(q);
      NoneRewound(was);
      connected := false;
      var ok, _ := TimeToReconnect();
      if ok {
        connected := Connect();
        MarksTail(q);
        RewoundTail(was, Marks(q), connected);
      }
    }

    // ---- The interpreter loop

    /** Starts the clock of a new action, and settles the error of one whose time is up. */
    method TimedOut(act: Action) returns (expired: bool, ghost now: nat)
      requires act.errnum == Success
      modifies act`timeStamp, act`errnum
      ensures act.timeStamp > 0 && (old(act.timeStamp) > 0 ==> act.timeStamp == old(act.timeStamp))
      ensures expired == (now >= act.timeStamp + timeout)
      ensures act.errnum ==
        if !expired then Success
        else if connectState != Connected then ConnectTimeout
        else if !loggedIn then LoginTimeout
        else ExpFail
    {
      if act.timeStamp == 0 {
        act.timeStamp := GetTimeOfDay();
      }
      var t := GetTimeOfDay();
      now := t;
      expired := t >= act.timeStamp + timeout;
      if expired {
        if connectState != Connected {
          act.errnum := ConnectTimeout;
        } else if !loggedIn {
          act.errnum := LoginTimeout;
        } else {
          act.errnum := ExpFail;
        }
      }
    }

    /** The next statement of the block, or the block below when there is none. */
    method NextStmt(act: Action)
      requires act.Over(plugs) && act.errnum == Success
      modifies act`exec
      ensures act.Ok(plugs) && act.exec == Advance(old(act.exec))
    {
      hide Refines, StackOk, Proper, Decided;
      var e := act.exec[0];
      AdvanceOk(act.exec);
      if e.pc + 1 < |e.block| {
        act.exec := [e.(pc := e.pc + 1)] + act.exec[1..];
      } else {
        act.exec := act.exec[1..];
      }
    }

    /** `_act_completion` and `_destroy_action` for the action at the head. */
    method Retire(ghost was: seq<Action>, done: seq<Completion>, ghost ended: seq<Action>, ghost counts: map<ArgList, int>)
      returns (done': seq<Completion>)
      requires |acts| > 0 && was == ended + acts && done == Completions(ended) && Counted(was, ended, counts)
      requires Entered(ended, history)
      modifies this`acts, this`history, (if acts[0].arglist == null then {} else {acts[0].arglist})`refcount
      ensures acts == old(acts)[1..] && was == (ended + [old(acts)[0]]) + acts
      ensures done' == Completions(ended + [old(acts)[0]]) && Counted(was, ended + [old(acts)[0]], counts)
      ensures Entered(ended + [old(acts)[0]], history) && history == old(history) + [old(acts)[0].End()]
    {
      hide Refs, Completions, Entered;
      var act := acts[0];
      CountedHead(was, ended, counts);
      CompletionsSnoc(ended, act);
      done' := done;
      if act.callback {
        done' := done + [Completion(act.clientId, act.errnum)];
      }
      acts := acts[1..];
      if act.arglist != null {
        act.arglist.Unlink();
      }
      CountsConcat(ended, [act]);
      CountsOne(act);
      EnteredSnoc(ended, history, act);
      history := history + [act.End()];
    }

    /** One action has failed: it and all behind it are aborted. */
    method FailAll(ghost was: seq<Action>, done: seq<Completion>, ghost ended: seq<Action>, ghost counts: map<ArgList, int>)
      returns (done': seq<Completion>)
      requires |acts| > 0 && was == ended + acts && Distinct(was) && done == Completions(ended) && Counted(was, ended, counts)
      requires Entered(ended, history) && Faithful(plugs, history) && acts[0].errnum != Success
      modifies this`acts, this`history, acts`errnum, Lists(acts)`refcount
      ensures acts == [] && done' == Completions(was) && Counted(was, was, counts)
      ensures was[|ended|].errnum == old(was[|ended|].errnum)
      ensures forall i :: |ended| < i < |was| ==> was[i].errnum == AbortOf(old(was[|ended|].errnum))
      ensures Entered(was, history) && Faithful(plugs, history)
      ensures old(history) <= history && |history| == |old(history)| + |old(acts)|
    {
      hide Completions, Counted, Entered, Faithful, Refs, Distinct, Action.Completed;
      var res := acts[0].errnum;
      ListsHead(acts);
      FaithfulSnoc(plugs, history, acts[0]);
      done' := Retire(was, done, ended, counts);
      ghost var k := |ended| + 1;
      assert was[..k] == ended + [was[|ended|]];
      while |acts| > 0
        invariant |ended| < k <= |was| && acts == was[k..]
        invariant done' == Completions(was[..k]) && Counted(was, was[..k], counts)
        invariant was[|ended|].errnum == res && forall i :: |ended| < i < k ==> was[i].errnum == AbortOf(res)
        invariant Entered(was[..k], history) && Faithful(plugs, history)
        invariant old(history) <= history && |history| == |old(history)| + k - |ended|
        decreases |acts|
      {
        NotBefore(was, k);
        assert was[..k + 1] == was[..k] + [was[k]];
        acts[0].errnum := AbortOf(res);
        FaithfulSnoc(plugs, history, acts[0]);
        done' := Retire(was, done', was[..k], counts);
        k := k + 1;
      }
      assert was[..k] == was;
    }

    /** One round of `_process_action` for the action at the head: its clock, its statements
        while the device is connected, and the next statement if that went well. All its tests
        come before anything it records. */
    method StepHead(act: Action) returns (stalled: bool)
      requires act.Queued(plugs) && Held(act) && (connectState == Connected ==> Allowed(act))
      modifies this`to, this`from, this`xmatch, act`exec, act`log, act`errnum, act`delayStart, act`timeStamp
      modifies (if act.arglist == null then {} else {act.arglist})`args
      ensures stalled ==> act.Queued(plugs) && Blocked(act)
      ensures !stalled && act.errnum == Success ==>
        act.Ok(plugs) && act.Fuel(plugs) < old(act.Fuel(plugs)) && connectState == Connected
      ensures act.errnum != Success ==> !stalled && act.errnum != Abort && (act.errnum == ConnectTimeout <==> connectState != Connected)
      ensures connectState != Connected ==> act.exec == old(act.exec) && act.log == old(act.log)
      ensures act.start == old(act.start) && act.rewinds == old(act.rewinds)
      ensures old(act.log) <= act.log && to == Buffered(old(to), act.log[|old(act.log)|..], ranged)
      ensures Found(act.log[|old(act.log)|..], old(Results(act)))
    {
      hide Refines, Advance, FuelStack, StackOk, Proper, Decided;
      stalled := false;
      var expired;
      ghost var now;
      expired, now := TimedOut(act);
      if !expired {
        if connectState != Connected {
          stalled := true;
        } else {
          var finished := RunStmts(act);
          stalled := !finished;
          if finished && act.errnum == Success {
            NextStmt(act);
          }
        }
      }
    }

    /** What a pass over the queue `was` keeps: the actions ended have completed and made their
        callbacks, the rest waits, and the holders of every result list are accounted for. */
    ghost predicate Passing(was: seq<Action>, ended: seq<Action>, done: seq<Completion>, counts: map<ArgList, int>)
      reads this`acts, this`connectState, this`loggedIn, this`history, acts, ended, Lists(was)`refcount
    {
      && was == ended + acts && Distinct(was) && LoginFirst() && QueueOk(plugs, acts)
      && AllCompleted(plugs, ended) && done == Completions(ended) && Counted(was, ended, counts)
      && Entered(ended, history) && Faithful(plugs, history)
    }

    /** The action at the head has completed; a login script leaves the device logged in. */
    method RetireCompleted(ghost was: seq<Action>, done: seq<Completion>, ghost ended: seq<Action>, ghost counts: map<ArgList, int>)
      returns (done': seq<Completion>)
      requires |acts| > 0 && acts[0].Completed(plugs) && QueueOk(plugs, acts[1..]) && connectState == Connected && LoginFirst()
      requires was == ended + acts && Distinct(was)
      requires AllCompleted(plugs, ended) && done == Completions(ended) && Counted(was, ended, counts)
      requires Entered(ended, history) && Faithful(plugs, history)
      modifies this`acts, this`loggedIn, this`history, (if acts[0].arglist == null then {} else {acts[0].arglist})`refcount
      ensures acts == old(acts)[1..] && Passing(was, ended + [old(acts)[0]], done', counts)
      ensures history == old(history) + [old(acts)[0].End()]
    {
      hide QueueOk, AllCompleted, Completions, Counted, Entered, Faithful, Action.Completed;
      CompletedSnoc(plugs, ended, acts[0]);
      FaithfulSnoc(plugs, history, acts[0]);
      if acts[0].com.LogIn? {
        loggedIn := true;
      }
      done' := Retire(was, done, ended, counts);
    }

    /** A round at the head leaves the rest of the pass alone. */
    method StepApart(act: Action, ghost tail: seq<Action>, ghost was: seq<Action>, ghost ended: seq<Action>,
                     ghost counts: map<ArgList, int>) returns (stalled: bool)
      requires act.Queued(plugs) && Held(act) && (connectState == Connected ==> Allowed(act))
      requires act !in tail && act !in ended
      requires QueueOk(plugs, tail) && AllCompleted(plugs, ended) && Counted(was, ended, counts) && Entered(ended, history)
      modifies this`to, this`from, this`xmatch, act
      modifies (if act.arglist == null then {} else {act.arglist})`args
      ensures QueueOk(plugs, tail) && AllCompleted(plugs, ended) && Counted(was, ended, counts) && Entered(ended, history)
      ensures Onward(old(act.Now()), act.Now()) && to == Buffered(old(to), act.log[|old(act.log)|..], ranged)
      ensures Completions(ended) == old(Completions(ended)) && QueueFuel(plugs, tail) == old(QueueFuel(plugs, tail))
      ensures stalled ==> act.Queued(plugs) && Blocked(act)
      ensures !stalled && act.errnum == Success ==>
        act.Fuel(plugs) < old(act.Fuel(plugs)) && connectState == Connected &&
        if act.exec == [] then act.Completed(plugs) else act.Queued(plugs)
      ensures act.errnum != Success ==> !stalled && act.errnum != Abort && (act.errnum == ConnectTimeout <==> connectState != Connected)
    {
      hide QueueOk, AllCompleted, Completions, Entered, Refs, Lists, QueueFuel, Buffered, Found;
      hide Action.Queued, Action.Ok, Action.Fuel, Action.Base, Action.Completed;
      stalled := StepHead(act);
      if !stalled && act.errnum == Success { Settled(plugs, act); }
    }

    /** One round of `_process_action`, up to the retirement of a completed action. */
    method Round(ghost was: seq<Action>, done: seq<Completion>, ghost ended: seq<Action>, ghost counts: map<ArgList, int>,
                 ghost marks: seq<Progress>, ghost start: string)
      returns (stalled: bool, failing: bool, done': seq<Completion>, ghost ended': seq<Action>)
      requires Passing(was, ended, done, counts) && |acts| > 0 && AllOnward(marks, was)
      requires Conveyed(marks, Marks(was), |ended|, start, to, ranged)
      modifies this`acts, this`loggedIn, this`to, this`from, this`xmatch, this`history, acts[0]
      modifies (if acts[0].arglist == null then {} else {acts[0].arglist})
      ensures failing ==> Failing(was, ended, done, counts) && done' == done && ended' == ended
      ensures !failing ==> Passing(was, ended', done', counts)
      ensures !failing && stalled ==> |acts| > 0 && Blocked(acts[0])
      ensures !failing && !stalled ==> QueueFuel(plugs, acts) < old(QueueFuel(plugs, acts))
      ensures AllOnward(marks, was) && Conveyed(marks, Marks(was), |ended'|, start, to, ranged)
      ensures old(history) <= history && |history| + |ended| == |old(history)| + |ended'|
    {
      hide QueueOk, AllCompleted, Completions, Counted, Entered, Faithful, Refs, Lists, QueueFuel, AllOnward, Onward, Distinct, Marks;
      hide Conveyed, Buffered, Blocked;
      hide Action.Queued, Action.Ok, Action.Fuel, Action.Base, Action.Completed;
      var act := acts[0];
      ghost var tail := acts[1..];
      done', ended' := done, ended;
      SplitQueue(acts);
      QueueTail(plugs, acts);
      HeadApart(was, ended, acts);
      CountedHead(was, ended, counts);
      QueueFuelHead(plugs, acts);
      ghost var before, mid := Marks(was), to;
      OnwardMarks(marks, was);
      OthersDiffer(was, |ended|);
      assert was[|ended|] == act;
      stalled := StepApart(act, tail, was, ended, counts);
      Moved(marks, before, was, |ended|, start, mid, to, ranged);
      failing := !stalled && act.errnum != Success;
      QueueFuelHead(plugs, acts);
      if !failing {
        if !stalled && act.exec == [] {
          done' := RetireCompleted(was, done, ended, counts);
          ended' := ended + [act];
        } else {
          QueueCons(plugs, act, tail);
        }
      }
    }

    /** The action at the head has failed, the ones before it have completed. */
    ghost predicate Failing(was: seq<Action>, ended: seq<Action>, done: seq<Completion>, counts: map<ArgList, int>)
      reads this`acts, this`connectState, this`loggedIn, this`history, acts, ended, Lists(was)`refcount
    {
      && |acts| > 0 && was == ended + acts && Distinct(was) && done == Completions(ended)
      && AllCompleted(plugs, ended) && Counted(was, ended, counts) && Entered(ended, history) && Faithful(plugs, history)
      && (loggedIn ==> connectState == Connected)
      && acts[0].errnum != Success && acts[0].errnum != Abort && (acts[0].errnum == ConnectTimeout <==> connectState != Connected)
    }

    /** What `_process_action` does once the action at the head has failed. */
    method GiveUp(ghost was: seq<Action>, done: seq<Completion>, ghost ended: seq<Action>, ghost counts: map<ArgList, int>,
                  ghost marks: seq<Progress>)
      returns (done': seq<Completion>)
      requires ScriptsOk() && Failing(was, ended, done, counts) && AllOnward(marks, was)
      modifies this`connectState, this`loggedIn, this`acts, this`to, this`from, this`lastRetry, this`retryCount, this`history
      modifies acts`errnum, Lists(acts)`refcount
      ensures Valid() && done' == Completions(was) && Counted(was, was, counts) && PassResult(plugs, was, |ended|)
      ensures Reconnected([], acts) && (acts != [] ==> fresh(acts[0]))
      ensures was[|ended|].errnum == ConnectTimeout <==> old(connectState) != Connected
      ensures to == (if old(connectState) == Connected then "" else old(to)) && Marks(was) == old(Marks(was))
      ensures Entered(was, history) && old(history) <= history && |history| + |ended| == |old(history)| + |was|
      ensures AllOnward(marks, was)
    {
      hide AllCompleted, Completions, Failing, Refs, PassResult, Entered, Faithful, AllOnward, Marks, Valid, Reconnected, Distinct;
      assert forall l :: l in Lists(was) ==> allocated(l);
      done' := FailQueue(was, done, ended, counts, marks);
      StartAfresh();
    }

    /** The connection, once the queue is empty. */
    method StartAfresh()
      requires acts == [] && ScriptsOk() && Faithful(plugs, history) && (loggedIn ==> connectState == Connected)
      modifies this`connectState, this`loggedIn, this`acts, this`to, this`from, this`lastRetry, this`retryCount
      ensures Valid() && Reconnected([], acts) && (acts != [] ==> fresh(acts[0]))
      ensures to == if old(connectState) == Connected then "" else old(to)
    {
      hide Refs, Faithful, Marks;
      HeldNone();
      if connectState == Connected {
        var _ := Reconnect();
      }
    }

    /** The queue ends, before anything is done about the connection. */
    method FailQueue(ghost was: seq<Action>, done: seq<Completion>, ghost ended: seq<Action>, ghost counts: map<ArgList, int>,
                     ghost marks: seq<Progress>)
      returns (done': seq<Completion>)
      requires ScriptsOk() && Failing(was, ended, done, counts) && AllOnward(marks, was)
      modifies this`acts, this`history, acts`errnum, Lists(acts)`refcount
      ensures acts == [] && (loggedIn ==> connectState == Connected) && Faithful(plugs, history)
      ensures |ended| < |was| && (was[|ended|].errnum == ConnectTimeout <==> connectState != Connected)
      ensures done' == Completions(was) && Counted(was, was, counts) && PassResult(plugs, was, |ended|)
      ensures Entered(was, history) && old(history) <= history && |history| + |ended| == |old(history)| + |was|
      ensures Marks(was) == old(Marks(was)) && AllOnward(marks, was)
    {
      hide AllCompleted, Completions, Lists, Refs, PassResult, Entered, Faithful, AllOnward, Marks;
      EndedApart(was, ended, acts);
      MarksAre(was);
      done' := FailAll(was, done, ended, counts);
      MarksAre(was);
      Failed(plugs, was, ended);
    }

    /** The loop of `_process_action`, until the action at the head cannot go on or has failed. */
    method Rounds(ghost was: seq<Action>, ghost counts: map<ArgList, int>, ghost marks: seq<Progress>)
      returns (failing: bool, done: seq<Completion>, ghost ended: seq<Action>)
      requires Passing(was, [], [], counts) && AllOnward(marks, was) && marks == Marks(was)
      modifies this`acts, this`loggedIn, this`to, this`from, this`xmatch, this`history, acts, Lists(acts)
      ensures if failing then Failing(was, ended, done, counts) else Passing(was, ended, done, counts)
      ensures !failing && acts != [] ==> Blocked(acts[0])
      ensures AllOnward(marks, was) && old(history) <= history && |history| == |old(history)| + |ended|
      ensures Conveyed(marks, Marks(was), |ended|, old(to), to, ranged)
    {
      hide QueueOk, Completions, Counted, Refs, QueueFuel, Passing, Failing, Entered, Faithful, AllOnward, AllCompleted, Conveyed, Marks;
      ConveyedNone(marks, to, ranged);
      PassingParts(this, was, [], [], counts);
      assert [] + acts == acts;
      done, ended, failing := [], [], false;
      var stalled := false;
      while |acts| > 0 && !stalled
        invariant Passing(was, ended, done, counts) && AllOnward(marks, was) && !failing
        invariant old(history) <= history && |history| == |old(history)| + |ended|
        invariant Conveyed(marks, Marks(was), |ended|, old(to), to, ranged)
        invariant stalled ==> |acts| > 0 && Blocked(acts[0])
        decreases if stalled then 0 else 1 + QueueFuel(plugs, acts)
      {
        PassingParts(this, was, ended, done, counts);
        stalled, failing, done, ended := Round(was, done, ended, counts, marks, old(to));
        if failing { return; }
      }
    }

    /** `_process_action`: every call ends, for any queue and any scripts. The actions that end
        are the first ones of the queue, in order, and each makes its callback. Either all of
        them have completed and the next one cannot go on, or number `failed` has failed, all
        behind it are aborted with it, and a connected device is reconnected. No action is
        rewound or loses anything of its log, and the device is sent what they have sent, one
        after the other, unless the reconnect throws it away. */
    method ProcessAction() returns (done: seq<Completion>, ghost ended: seq<Action>, ghost failed: nat)
      requires Valid()
      modifies this, acts, Lists(acts)
      ensures Valid() && done == Completions(ended)
      ensures PassResult(plugs, ended, failed) && failed <= |ended|
      ensures failed == |ended| ==> old(acts) == ended + acts && connectState == old(connectState)
      ensures failed == |ended| && acts != [] ==> Blocked(acts[0])
      ensures failed < |ended| ==> ended == old(acts) && Reconnected([], acts) && (acts != [] ==> fresh(acts[0]))
      ensures failed < |ended| ==> (ended[failed].errnum == ConnectTimeout <==> old(connectState) != Connected)
      ensures forall l :: l in old(Lists(acts)) ==> l.refcount == old(l.refcount) - Refs(ended, l)
      ensures AllOnward(old(Marks(acts)), old(acts))
      ensures Entered(ended, history) && old(history) <= history && |history| == |old(history)| + |ended|
      ensures to ==
        if failed < |ended| && old(connectState) == Connected then ""
        else Buffered(old(to), Deltas(old(Marks(acts)), Marks(old(acts))), ranged)
    {
      hide QueueOk, Completions, Counted, Refs, QueueFuel, AllHeld, Passing, Failing, PassResult, Lists, Entered, Faithful, AllOnward, Marks;
      hide Buffered, Deltas, Valid, Reconnected, Blocked, Distinct;
      ScriptsAre(this);
      ghost var was := acts;
      ghost var counts := map l | l in Lists(acts) :: l.refcount;
      PassingStart(this, counts);
      MarksOnward(acts);
      ghost var marks := Marks(acts);
      var failing;
      failing, done, ended := Rounds(was, counts, marks);
      failed := |ended|;
      if failing {
        FailingParts(this, was, ended, done, counts);
        done := GiveUp(was, done, ended, counts, marks);
        ended := was;
        CountedEach(was, was, counts);
        return;
      }
      PassingEnd(this, was, ended, done, counts);
    }

    // ---- A poll pass

    /** `_enqueue_ping` */
    method EnqueuePing() returns (ghost now: nat)
      requires Valid() && connectState == Connected
      modifies this`acts, this`lastPing
      ensures Valid()
      ensures old(acts) <= acts && |acts| <= |old(acts)| + 1
      ensures |acts| > |old(acts)| <==> Ping in scripts && pingPeriod > 0 && now >= old(lastPing) + pingPeriod
      ensures |acts| > |old(acts)| ==> var a := acts[|old(acts)|]; fresh(a) && a.com == Ping && !a.callback && a.arglist == null
    {
      hide QueueOk, Refs, Faithful;
      now := 0;
      if Ping in scripts && pingPeriod > 0 {
        var t := GetTimeOfDay();
        now := t;
        if t >= lastPing + pingPeriod {
          AppendPing();
          lastPing := GetTimeOfDay();
        }
      }
    }

    method AppendPing()
      requires Valid() && Ping in scripts
      modifies this`acts
      ensures Valid() && |acts| == |old(acts)| + 1 && old(acts) <= acts
      ensures var a := acts[|old(acts)|]; fresh(a) && a.com == Ping && !a.callback && a.arglist == null
    {
      hide QueueOk, Refs, AllHeld, Action.Queued, Action.Base, Faithful;
      assert forall l :: l in Lists(acts) ==> allocated(l);
      ghost var was := acts;
      var act := new Action(Ping, scripts[Ping], [], false, 0, null);
      QueueOne(plugs, act);
      acts := acts + [act];
      QueueAppend(plugs, was, [act]);
      HeldAppend(was, [act]);
    }

    /** `_handle_read`: some bytes arrive, or the connection has failed. */
    method HandleRead() returns (ioerr: bool, ghost bytes: string)
      modifies this`from
      ensures ioerr == (bytes == "") && (!ioerr ==> from == Newest(old(from) + bytes)) && (ioerr ==> from == old(from))
    {
      var some: string := *;
      bytes := some;
      ioerr := some == "";
      if !ioerr {
        from := Newest(from + some);
      }
    }

    /** `_handle_write`: the device takes some bytes, or the connection has failed. */
    method HandleWrite() returns (ioerr: bool)
      modifies this`to
      ensures Unsent(to, old(to))
    {
      var n: int := *;
      if 0 <= n <= |to| {
        to := to[n..];
      }
      ioerr := n <= 0;
    }

    /** `_handle_ready_device`: what poll reports for the device. */
    method HandleReady(flags: Flags) returns (ioerr: bool)
      requires Valid() && connectState != NotConnected
      modifies this`connectState, this`acts, this`to, this`from
      modifies (if |acts| > 0 then {acts[0]} else {})`exec, (if |acts| > 0 then {acts[0]} else {})`log, (if |acts| > 0 then {acts[0]} else {})`start, (if |acts| > 0 then {acts[0]} else {})`rewinds
      ensures Valid() && (connectState == NotConnected ==> ioerr)
      ensures acts == old(acts) || (|acts| > 0 && fresh(acts[0]) && acts[0].com.LogIn? && acts[1..] == old(acts))
      ensures flags.error ==> ioerr && acts == old(acts) && connectState == old(connectState)
      ensures acts != old(acts) ==> !ioerr && connectState == Connected && Foremost(old(acts)) == 0
      ensures if acts == old(acts) then Marks(old(acts)) == old(Marks(acts))
        else |acts| > 0 && OneRewound(old(Marks(acts)), Marks(old(acts)), 0)
      ensures Unsent(to, old(to))
    {
      hide QueueOk, Refs, Newest, Faithful, OneRewound, Marks;
      if flags.error {
        return true;
      }
      ioerr := false;
      if flags.writable {
        if connectState == Connecting {
          var outcome: ConnectState := *;
          connectState := outcome;
          if connectState == NotConnected {
            return true;
          }
          if connectState == Connected {
            LoginConnected(acts);
          }
          return false;
        }
        ioerr := HandleWrite();
        if ioerr { return; }
      }
      if flags.readable {
        ghost var bytes;
        ioerr, bytes := HandleRead();
      }
    }

    /** What has become of the connection, and another attempt if there is none. */
    method Contact(flags: Option<Flags>)
      requires Valid() && (flags.Some? ==> connectState != NotConnected)
      modifies this`connectState, this`loggedIn, this`acts, this`to, this`from, this`lastRetry, this`retryCount
      modifies acts`exec, acts`log, acts`start, acts`rewinds
      ensures Valid() && Debts(old(acts), acts)
      ensures flags.Some? && flags.value.error ==> !loggedIn
      ensures old(connectState) == NotConnected && old(retryCount) == 0 ==> retryCount == 1
      ensures forall i :: 0 <= i < |acts| ==> acts[i] in old(acts) || fresh(acts[i])
      ensures OneRewound(old(Marks(acts)), Marks(old(acts)), Foremost(old(acts)))
      ensures flags.None? && old(connectState) == Connected ==>
        Marks(old(acts)) == old(Marks(acts)) && connectState == Connected && to == old(to)
      ensures forall i :: 0 <= i < |old(acts)| && !old(acts)[i].com.LogIn? ==> old(acts)[i] in acts
      ensures Unsent(to, old(to))
    {
      hide Refs, Owed, QueueOk, AllHeld, Debts, AllQuiet, Marks, OneRewound, Foremost, Faithful, Reconnected;
      ghost var q0 := acts;
      NoneRewound(Marks(q0));
      QueueQuiet(plugs, acts);
      var ioerr := false;
      if flags.Some? {
        ioerr := HandleReady(flags.value);
      }
      ghost var q1 := acts;
      QueueQuiet(plugs, acts);
      DebtsLogin(q0, q1);
      if ioerr || connectState == NotConnected {
        var _ := Reconnect();
      }
      QueueQuiet(plugs, acts);
      DebtsReconnected(q1, acts);
      DebtsTrans(q0, q1, acts);
      StillQueued(q0, q1, acts);
    }

    /** The connection's part of `dev_post_poll`: it leaves alone what the queue owes, and moves
        no action but the one that a new login preempts. */
    method PollConnection(flags: Option<Flags>)
      requires Valid() && (flags.Some? ==> connectState != NotConnected)
      modifies this`connectState, this`loggedIn, this`acts, this`to, this`from, this`lastRetry, this`retryCount, this`lastPing
      modifies acts`exec, acts`log, acts`start, acts`rewinds
      ensures Valid() && Debts(old(acts), acts)
      ensures flags.Some? && flags.value.error ==> !loggedIn
      ensures old(connectState) == NotConnected && old(retryCount) == 0 ==> retryCount == 1
      ensures forall l :: l in Lists(old(acts)) ==> l.refcount == old(l.refcount)
      ensures forall i :: 0 <= i < |acts| ==> acts[i] in old(acts) || fresh(acts[i])
      ensures OneRewound(old(Marks(acts)), Marks(old(acts)), Foremost(old(acts)))
      ensures flags.None? && old(connectState) == Connected ==>
        Marks(old(acts)) == old(Marks(acts)) && connectState == Connected && to == old(to)
      ensures forall i :: 0 <= i < |old(acts)| && !old(acts)[i].com.LogIn? ==> old(acts)[i] in acts
      ensures Unsent(to, old(to))
    {
      hide Refs, Owed, QueueOk, AllHeld, Debts, AllQuiet, Marks, OneRewound, Foremost, Faithful, Unsent;
      assert forall l :: l in Lists(acts) ==> allocated(l);
      ghost var q0 := acts;
      Contact(flags);
      ghost var q2 := acts;
      QueueQuiet(plugs, acts);
      DebtsSame(q2);
      if connectState == Connected {
        ghost var now := EnqueuePing();
        QueueQuiet(plugs, acts);
        DebtsPing(q2, acts);
      }
      Extended(q2, acts);
      DebtsTrans(q0, q2, acts);
    }

    /** What a pass over the queue `q` comes to: all actions that could complete have ended and
        the first one left cannot go on, or all of them have ended because one failed. The
        device is sent what they have sent, one after the other, unless a reconnect throws it
        away. */
    ghost predicate Passed(q: seq<Action>, marks: seq<Progress>, to0: string, conn: ConnectState, ended: seq<Action>, failed: nat)
      reads this, acts, q
    {
      && (if failed < |ended| then ended == q && (acts != [] ==> acts[0].com.LogIn?)
          else q == ended + acts && connectState == conn && (acts != [] ==> Blocked(acts[0])))
      && to == if failed < |ended| && conn == Connected then "" else Buffered(to0, Deltas(marks, Marks(q)), ranged)
    }

    /** The pass over the queue, and what it pays of what the queue owes. */
    method Work() returns (done: seq<Completion>, ghost ended: seq<Action>, ghost failed: nat)
      requires Valid()
      modifies this, acts, Lists(acts)
      ensures Valid() && done == Completions(ended) && PassResult(plugs, ended, failed)
      ensures forall id :: Owed(acts, id) + CallsTo(done, id) == Owed(old(acts), id)
      ensures Lists(acts) <= old(Lists(acts))
      ensures forall l :: l in old(Lists(acts)) ==> l.refcount - Refs(acts, l) == old(l.refcount) - Refs(old(acts), l)
      ensures forall i :: 0 <= i < |acts| ==> acts[i] in old(acts) || fresh(acts[i])
      ensures AllOnward(old(Marks(acts)), old(acts)) && (old(acts) == ended + acts || old(acts) == ended)
      ensures Entered(ended, history) && old(history) <= history && |history| == |old(history)| + |ended|
      ensures Passed(old(acts), old(Marks(acts)), old(to), old(connectState), ended, failed) && Idle()
    {
      hide Completions, Refs, Owed, CallsTo, QueueOk, AllHeld, PassResult, AllQuiet, LoginFirst, Reconnected;
      hide Marks, AllOnward, Entered, Faithful, Buffered, Deltas, Blocked;
      ghost var q := acts;
      done, ended, failed := ProcessAction();
      QueueQuiet(plugs, acts);
      DebtsPaid(q, ended, acts, done);
      StillThere(q, ended, acts);
    }

    /** One device in `dev_post_poll`: every action that a client waits for is still queued or
        has called back, exactly once, and every result list has lost the holders that ended.
        Every action but a login has gone on from where it was, and is still queued or has
        ended; only the one that a new login preempts can have been rewound. The pass has gone
        over the queue that the connection's part left behind. */
    method PostPoll(flags: Option<Flags>)
      returns (done: seq<Completion>, ghost ended: seq<Action>, ghost failed: nat, ghost mid: Pass)
      requires Valid() && (flags.Some? ==> connectState != NotConnected)
      modifies this, acts, Lists(acts)
      ensures Valid() && done == Completions(ended) && PassResult(plugs, ended, failed)
      ensures forall id :: Owed(acts, id) + CallsTo(done, id) == Owed(old(acts), id)
      ensures Lists(acts) <= old(Lists(acts))
      ensures forall l :: l in old(Lists(acts)) ==> l.refcount - Refs(acts, l) == old(l.refcount) - Refs(old(acts), l)
      ensures forall i :: 0 <= i < |acts| ==> acts[i] in old(acts) || fresh(acts[i])
      ensures OnwardBut(old(Marks(acts)), old(acts), Foremost(old(acts)))
      ensures flags.None? && old(connectState) == Connected ==> AllOnward(old(Marks(acts)), old(acts))
      ensures Carried(old(Standing()), Standing())
      ensures Entered(ended, history) && |history| == |old(history)| + |ended|
      ensures Passed(mid.q, mid.marks, mid.to, mid.conn, ended, failed)
      ensures MidPass(old(acts), old(Marks(acts)), mid) && Unsent(mid.to, old(to)) && Idle()
      ensures flags.None? && old(connectState) == Connected ==> mid.conn == Connected && mid.to == old(to)
    {
      hide Completions, Refs, Owed, CallsTo, QueueOk, AllHeld, PassResult, AllQuiet, LoginFirst, Reconnected, Foremost;
      hide OneRewound, Marks, AllOnward, OnwardBut, Carried, Entered, Faithful, Onward, Passed, MidPass, Unsent, Idle;
      ghost var acts0, marks := acts, Marks(acts);
      PollConnection(flags);
      ghost var q, now := acts, Marks(acts0);
      mid := Pass(q, Marks(q), to, connectState);
      MarksAre(acts0);
      MarksAre(q);
      MidMarks(acts0, marks, now, mid);
      done, ended, failed := Work();
      assert forall i :: 0 <= i < |acts0| && acts0[i] !in q ==> acts0[i].Now() == now[i];
      StillOnward(marks, now, acts0, q, mid.marks, Foremost(acts0));
      CarriedPass(this, old(Standing()), acts0, marks, q, ended);
    }
  }

  /** The actions of a device do what their scripts say: one that waits has executed a prefix
      of its unrolling, whatever the tests to come find, and one that has ended well has
      executed all of it; but for those that a rewind has left harmful flags. */
  ghost predicate Refined(d: Device)
    reads d, d.acts
  {
    && (forall i, ans :: 0 <= i < |d.acts| && Whole(d.plugs, d.acts[i], d.acts[i].Now()) && Agrees(ans, d.acts[i].log) ==>
          d.acts[i].log <= Unroll(d.plugs, d.acts[i].script, d.acts[i].plugs, 0, ans))
    && Faithful(d.plugs, d.history)
  }

  lemma CoreRefined(d: Device)
    requires d.Core()
    ensures Refined(d)
  {
    hide Whole, Agrees, Unroll, Faithful, Action.Queued;
    forall i, ans | 0 <= i < |d.acts| && Whole(d.plugs, d.acts[i], d.acts[i].Now()) && Agrees(ans, d.acts[i].log)
      ensures d.acts[i].log <= Unroll(d.plugs, d.acts[i].script, d.acts[i].plugs, 0, ans)
    {
      QueuedPrefix(d.plugs, d.acts[i], ans);
    }
  }

  lemma AheadStep(all: seq<Plug>, s: Stmt, i: nat)
    requires i < |all|
    ensures var ps := Over(s, Ahead(all, Some(i)));
      if s.ForeachNode? && all[i].node.None? then ps == Over(s, Ahead(all, Some(i + 1)))
      else ps == [all[i]] + Over(s, Ahead(all, Some(i + 1)))
  {
    assert all[i..][1..] == all[i + 1..];
  }

  lemma AheadStart(all: seq<Plug>)
    ensures Ahead(all, None) == Ahead(all, Some(0))
  {
  }

  lemma AheadEnd(all: seq<Plug>, s: Stmt, i: nat)
    requires i >= |all|
    ensures Over(s, Ahead(all, Some(i))) == []
  {
  }

  /** The buffer after at most one further event. */
  lemma BufferedStep(to: string, log: seq<Event>, log': seq<Event>, ranged: seq<string> -> string)
    requires log <= log' && |log'| <= |log| + 1
    ensures Buffered(to, log'[|log|..], ranged) ==
      if log' != log && log'[|log|].Done? && log'[|log|].stmt.Send?
      then Newest(to + SendText(log'[|log|].stmt.fmt, log'[|log|].plugs, ranged)) else to
  {
  }

  lemma KeptBase(all: seq<Plug>, exec: seq<Ctx>, log: seq<Event>, start: Ctx, exec': seq<Ctx>, log': seq<Event>, finished: bool)
    requires |exec| > 0 && Kept(all, exec, log, start, exec', log', finished)
    ensures log <= log' && StackOk(exec') && SameBottom(exec, exec')
    ensures |exec'| == |exec| || |exec'| == |exec| + 1
  {
  }

  lemma Ready(all: seq<Plug>, act: Action)
    requires act.Queued(all)
    ensures |act.exec| > 0 && act.exec[0].Ok() && act.errnum == Success
  {
    hide Refines;
  }

  /** The attempt starts in the middle of a script. */
  lemma Starting(all: seq<Plug>, act: Action)
    requires act.Queued(all)
    ensures act.exec[0].Ok() && Running(all, act.exec[0], act.exec[1..], act.log, act.start)
    ensures act.exec == [act.exec[0]] + act.exec[1..]
  {
    hide Refines;
    assert act.exec == [act.exec[0]] + act.exec[1..];
  }

  lemma BufferedMore(to: string, a: seq<Event>, b: seq<Event>, c: seq<Event>, ranged: seq<string> -> string)
    requires a <= b <= c
    ensures Buffered(to, c[|a|..], ranged) == Buffered(Buffered(to, b[|a|..], ranged), c[|b|..], ranged)
  {
    assert c[|a|..] == b[|a|..] + c[|b|..];
    BufferedConcat(to, b[|a|..], c[|b|..], ranged);
  }

  lemma NothingSet(set_: Option<(string, Arg)>)
    ensures ArgsSet(map[], set_) == map[]
  {
  }

  lemma FoundStep(log: seq<Event>, log': seq<Event>, args: map<string, Arg>)
    requires log <= log' && |log'| <= |log| + 1
    requires |log'| > |log| && log'[|log|].Tested? ==> log'[|log|].state == StateOf(args, log'[|log|].plugs)
    ensures Found(log'[|log|..], args)
  {
  }

  lemma FoundMore(a: seq<Event>, b: seq<Event>, c: seq<Event>, args: map<string, Arg>)
    requires a <= b <= c && Found(b[|a|..], args) && Found(c[|b|..], args)
    ensures Found(c[|a|..], args)
  {
    assert c[|a|..] == b[|a|..] + c[|b|..];
  }

  /** The queue after a reconnect: the old login action has gone, and there is a new one if the
      device is connected again. */
  ghost predicate Reconnected(was: seq<Action>, acts: seq<Action>) {
    var kept := if |was| > 0 && was[0].com.LogIn? then was[1..] else was;
    acts == kept || (|acts| > 0 && acts[0].com.LogIn? && acts[1..] == kept)
  }

  /** The first action that is no login: a new login preempts it. */
  function Foremost(acts: seq<Action>): nat {
    if |acts| > 0 && acts[0].com.LogIn? then 1 else 0
  }

  lemma HeldTail(acts: seq<Action>)
    requires |acts| > 0 && AllHeld(acts)
    ensures AllHeld(acts[1..])
  {
    forall l | l in Lists(acts[1..])
      ensures l in Lists(acts) && l.refcount >= Refs(acts[1..], l)
    {
      var i :| 0 <= i < |acts[1..]| && acts[1..][i].arglist == l;
      assert acts[i + 1].arglist == l;
    }
  }

  lemma HeldCons(a: Action, acts: seq<Action>)
    requires a.arglist == null && AllHeld(acts)
    ensures AllHeld([a] + acts)
  {
    var acts' := [a] + acts;
    assert acts'[1..] == acts;
    forall l | l in Lists(acts')
      ensures l.refcount >= Refs(acts', l)
    {
      var i :| 0 <= i < |acts'| && acts'[i].arglist == l;
      assert acts[i - 1].arglist == l;
      assert l in Lists(acts);
    }
  }

  lemma AdvanceOk(exec: seq<Ctx>)
    requires StackOk(exec) && |exec| > 0
    ensures StackOk(Advance(exec)) && (|Advance(exec)| > 0 ==> SameBottom(exec, Advance(exec)))
  {
    hide Proper;
  }

  lemma RefsLeft(was: seq<Action>, k: nat)
    requires k < |was|
    ensures var l := was[k].arglist; l != null ==> l in Lists(was) && Refs(was, l) > Refs(was[..k], l)
  {
    if was[k].arglist != null {
      assert was == was[..k] + was[k..];
      CountsConcat(was[..k], was[k..]);
      RefsMember(was[k..], 0);
    }
  }

  lemma NoneEnded()
    ensures Completions([]) == [] && forall l :: Refs([], l) == 0
  {
  }

  lemma QueueFuelHead(all: seq<Plug>, acts: seq<Action>)
    requires |acts| > 0
    ensures QueueFuel(all, acts) == 1 + acts[0].Fuel(all) + QueueFuel(all, acts[1..])
  {
  }

  lemma SplitQueue(acts: seq<Action>)
    requires |acts| > 0
    ensures acts == [acts[0]] + acts[1..]
  {
  }

  lemma Settled(all: seq<Plug>, act: Action)
    requires act.Ok(all) && act.errnum == Success
    ensures if act.exec == [] then act.Completed(all) else act.Queued(all)
  {
    hide Refines;
  }

  ghost predicate AllCompleted(all: seq<Plug>, ended: seq<Action>)
    reads ended
  {
    forall i :: 0 <= i < |ended| ==> ended[i].Completed(all)
  }

  /** The actions before number `failed` have completed; that one, if there is one, has failed,
      and all behind it are aborted with it. */
  ghost predicate PassResult(all: seq<Plug>, ended: seq<Action>, failed: nat)
    reads ended
  {
    && failed <= |ended| && (forall i :: 0 <= i < failed ==> ended[i].Completed(all))
    && (failed < |ended| ==> ended[failed].errnum != Success && ended[failed].errnum != Abort)
    && forall i :: failed < i < |ended| ==> ended[i].errnum == AbortOf(ended[failed].errnum)
  }

  lemma Failed(all: seq<Plug>, was: seq<Action>, ended: seq<Action>)
    requires |ended| < |was| && ended == was[..|ended|] && AllCompleted(all, ended)
    requires was[|ended|].errnum != Success && was[|ended|].errnum != Abort
    requires forall i :: |ended| < i < |was| ==> was[i].errnum == AbortOf(was[|ended|].errnum)
    ensures PassResult(all, was, |ended|)
  {
    hide Action.Completed;
    assert forall i :: 0 <= i < |ended| ==> was[i] == ended[i];
  }

  /** Every result list of a queue has lost one holder for each action ended. */
  ghost predicate Counted(was: seq<Action>, ended: seq<Action>, counts: map<ArgList, int>)
    reads Lists(was)`refcount
  {
    forall l :: l in Lists(was) ==> l in counts && l.refcount == counts[l] - Refs(ended, l) && counts[l] >= Refs(was, l)
  }

  lemma QueueTail(all: seq<Plug>, acts: seq<Action>)
    requires |acts| > 0 && QueueOk(all, acts)
    ensures acts[0].Queued(all) && QueueOk(all, acts[1..])
  {
    hide Action.Queued;
  }

  lemma QueueCons(all: seq<Plug>, act: Action, tail: seq<Action>)
    requires act.Queued(all) && QueueOk(all, tail) && act !in tail
    ensures QueueOk(all, [act] + tail)
  {
    hide Action.Queued;
  }

  lemma HeadApart(was: seq<Action>, ended: seq<Action>, acts: seq<Action>)
    requires Distinct(was) && was == ended + acts && |acts| > 0
    ensures acts[0] !in ended && acts[0] !in acts[1..] && ended + acts == (ended + [acts[0]]) + acts[1..]
  {
    assert acts[0] == was[|ended|];
    assert forall i :: 0 <= i < |ended| ==> ended[i] == was[i];
    assert forall i :: 1 <= i < |acts| ==> acts[i] == was[|ended| + i];
  }

  lemma CountedHead(was: seq<Action>, ended: seq<Action>, counts: map<ArgList, int>)
    requires Counted(was, ended, counts) && |ended| < |was| && ended == was[..|ended|]
    ensures var l := was[|ended|].arglist; l != null ==> l.refcount > 0
  {
    RefsLeft(was, |ended|);
  }

  lemma CompletedSnoc(all: seq<Plug>, ended: seq<Action>, act: Action)
    requires AllCompleted(all, ended) && act.Completed(all)
    ensures AllCompleted(all, ended + [act])
  {
    hide Action.Completed;
  }

  lemma NotBefore(was: seq<Action>, k: nat)
    requires Distinct(was) && k < |was|
    ensures was[k] !in was[..k] && was[k..][0] == was[k] && was == was[..k] + was[k..]
  {
  }

  lemma ListsHead(acts: seq<Action>)
    requires |acts| > 0
    ensures acts[0].arglist != null ==> acts[0].arglist in Lists(acts)
  {
  }

  lemma ScriptsAre(d: Device)
    requires d.Valid()
    ensures d.ScriptsOk()
  {
  }

  lemma PassingStart(d: Device, counts: map<ArgList, int>)
    requires d.Valid() && counts == map l | l in Lists(d.acts) :: l.refcount
    ensures d.Passing(d.acts, [], [], counts)
  {
    NoneEnded();
    assert [] + d.acts == d.acts;
  }

  lemma PassingParts(d: Device, was: seq<Action>, ended: seq<Action>, done: seq<Completion>, counts: map<ArgList, int>)
    requires d.Passing(was, ended, done, counts) || d.Failing(was, ended, done, counts)
    ensures was == ended + d.acts && Lists(d.acts) <= Lists(was) && |ended| <= |was| && Distinct(was)
    ensures |d.acts| > 0 ==> |ended| < |was| && d.acts[0] == was[|ended|]
    ensures d.Failing(was, ended, done, counts) ==> |ended| < |was|
    ensures forall i :: 0 <= i < |d.acts| ==> d.acts[i] in was
    ensures |d.acts| > 0 && d.acts[0].arglist != null ==> d.acts[0].arglist in Lists(was)
  {
    assert forall i :: 0 <= i < |d.acts| ==> d.acts[i] == was[|ended| + i];
  }

  lemma FailingParts(d: Device, was: seq<Action>, ended: seq<Action>, done: seq<Completion>, counts: map<ArgList, int>)
    requires d.Failing(was, ended, done, counts)
    ensures |ended| < |was| && Lists(d.acts) <= Lists(was) && forall i :: 0 <= i < |d.acts| ==> d.acts[i] in was
  {
    hide Distinct;
    PassingParts(d, was, ended, done, counts);
  }

  lemma PassingEnd(d: Device, was: seq<Action>, ended: seq<Action>, done: seq<Completion>, counts: map<ArgList, int>)
    requires d.Passing(was, ended, done, counts) && d.ScriptsOk()
    ensures d.Valid() && was == ended + d.acts && done == Completions(ended)
    ensures PassResult(d.plugs, ended, |ended|) && Entered(ended, d.history)
    ensures forall l :: l in Lists(was) ==> l in counts && l.refcount == counts[l] - Refs(ended, l)
  {
    CountsConcat(ended, d.acts);
    forall l | l in Lists(d.acts)
      ensures l.refcount >= Refs(d.acts, l)
    {
      var i :| 0 <= i < |d.acts| && d.acts[i].arglist == l;
      assert was[|ended| + i].arglist == l;
      assert l in Lists(was);
    }
  }

  lemma CountedEach(was: seq<Action>, ended: seq<Action>, counts: map<ArgList, int>)
    requires Counted(was, ended, counts)
    ensures forall l :: l in Lists(was) ==> l in counts && l.refcount == counts[l] - Refs(ended, l)
  {
  }

  lemma EndedApart(was: seq<Action>, ended: seq<Action>, acts: seq<Action>)
    requires Distinct(was) && was == ended + acts
    ensures forall a :: a in ended ==> a !in acts
  {
    assert forall i :: 0 <= i < |ended| ==> ended[i] == was[i];
    assert forall i :: 0 <= i < |acts| ==> acts[i] == was[|ended| + i];
  }

  lemma HeldNone()
    ensures AllHeld([])
  {
  }

  lemma CompletionsSnoc(ended: seq<Action>, act: Action)
    ensures Completions(ended + [act]) ==
      Completions(ended) + (if act.callback then [Completion(act.clientId, act.errnum)] else [])
  {
    assert (ended + [act])[..|ended|] == ended;
  }

  lemma QueueAppend(all: seq<Plug>, acts: seq<Action>, more: seq<Action>)
    requires QueueOk(all, acts) && QueueOk(all, more) && forall i :: 0 <= i < |more| ==> more[i] !in acts
    ensures QueueOk(all, acts + more)
  {
    hide Action.Queued;
  }

  lemma HeldAppend(acts: seq<Action>, more: seq<Action>)
    requires AllHeld(acts) && forall i :: 0 <= i < |more| ==> more[i].arglist == null
    ensures AllHeld(acts + more)
  {
    hide Refs;
    forall l | l in Lists(acts + more)
      ensures l.refcount >= Refs(acts + more, l)
    {
      var i :| 0 <= i < |acts + more| && (acts + more)[i].arglist == l;
      assert acts[i].arglist == l;
      CountsConcat(acts, more);
      NoRefs(more, l);
    }
  }

  lemma {:induction false} NoRefs(acts: seq<Action>, l: ArgList)
    requires forall i :: 0 <= i < |acts| ==> acts[i].arglist != l
    ensures Refs(acts, l) == 0
  {
    if |acts| > 0 {
      assert forall i :: 0 <= i < |acts[1..]| ==> acts[1..][i] == acts[i + 1];
      NoRefs(acts[1..], l);
    }
  }

  lemma QueueOne(all: seq<Plug>, act: Action)
    requires act.Queued(all)
    ensures QueueOk(all, [act])
  {
    hide Action.Queued;
  }

  // ---- What a queue owes: callbacks to clients, and references to result lists

  ghost predicate AllQuiet(acts: seq<Action>) {
    forall i :: 0 <= i < |acts| && acts[i].com.Internal() ==> !acts[i].callback && acts[i].arglist == null
  }

  lemma QueueQuiet(all: seq<Plug>, acts: seq<Action>)
    requires QueueOk(all, acts)
    ensures AllQuiet(acts)
  {
    hide Refines, StackOk, Proper, Decided;
    assert forall i :: 0 <= i < |acts| ==> acts[i].Base();
  }

  /** Two queues owe the same. */
  ghost predicate Debts(a: seq<Action>, b: seq<Action>) {
    && (forall id :: Owed(a, id) == Owed(b, id))
    && Lists(b) == Lists(a) && forall l :: l in Lists(a) ==> Refs(a, l) == Refs(b, l)
  }

  lemma DebtsQuiet(a: seq<Action>, x: Action, b: seq<Action>)
    requires !x.callback && x.arglist == null
    ensures Debts(a + [x] + b, a + b) && Debts(a + b, a + [x] + b)
  {
    hide Owed, Refs;
    var s, t := a + [x] + b, a + b;
    CountsConcat(a + [x], b);
    CountsConcat(a, [x]);
    CountsConcat(a, b);
    CountsOne(x);
    assert forall i :: 0 <= i < |t| ==> t[i] == if i < |a| then s[i] else s[i + 1];
    assert forall i :: 0 <= i < |s| && i != |a| ==> s[i] == if i < |a| then t[i] else t[i - 1];
    ListsIncluded(t, s);
    ListsIncluded(s, t);
  }

  lemma ListsIncluded(a: seq<Action>, b: seq<Action>)
    requires forall i :: 0 <= i < |a| && a[i].arglist != null ==> a[i] in b
    ensures Lists(a) <= Lists(b)
  {
  }

  lemma DebtsSame(a: seq<Action>)
    ensures Debts(a, a)
  {
  }

  lemma DebtsTrans(a: seq<Action>, b: seq<Action>, c: seq<Action>)
    requires Debts(a, b) && Debts(b, c)
    ensures Debts(a, c)
  {
    hide Owed, Refs, Lists;
  }

  lemma DebtsLogin(q: seq<Action>, q': seq<Action>)
    requires AllQuiet(q') && (q' == q || (|q'| > 0 && q'[0].com.LogIn? && q'[1..] == q))
    ensures Debts(q, q')
  {
    hide Owed, Refs, Lists;
    if q' == q {
      DebtsSame(q);
    } else {
      DebtsQuiet([], q'[0], q);
      assert [] + q == q && [] + [q'[0]] + q == q';
    }
  }

  lemma DebtsReconnected(q: seq<Action>, q': seq<Action>)
    requires AllQuiet(q) && AllQuiet(q') && (q' == q || Reconnected(q, q'))
    ensures Debts(q, q')
  {
    hide Owed, Refs, Lists, Debts;
    if q' == q {
      DebtsSame(q);
    } else {
      var kept := if |q| > 0 && q[0].com.LogIn? then q[1..] else q;
      DebtsSame(q);
      if kept != q {
        DebtsQuiet([], q[0], kept);
        assert [] + kept == kept && [] + [q[0]] + kept == q;
      }
      DebtsLogin(kept, q');
      DebtsTrans(q, kept, q');
    }
  }

  lemma Extended(q: seq<Action>, q': seq<Action>)
    requires q <= q'
    ensures forall a :: a in q ==> a in q'
    ensures forall i :: 0 <= i < |q'| ==> q'[i] in q || (i >= |q| && q'[i] == q'[|q|..][i - |q|])
  {
    assert q' == q + q'[|q|..];
  }

  lemma DebtsPing(q: seq<Action>, q': seq<Action>)
    requires AllQuiet(q') && q <= q' && |q'| <= |q| + 1 && (|q'| > |q| ==> q'[|q|].com == Ping)
    ensures Debts(q, q')
  {
    hide Owed, Refs, Lists, Debts;
    if |q'| == |q| {
      assert q' == q;
      DebtsSame(q);
    } else {
      DebtsQuiet(q, q'[|q|], []);
      assert q + [] == q && q + [q'[|q|]] + [] == q';
    }
  }

  /** After a pass over the queue q. */
  lemma DebtsPaid(q: seq<Action>, ended: seq<Action>, acts: seq<Action>, done: seq<Completion>)
    requires done == Completions(ended) && AllQuiet(acts)
    requires q == ended + acts || (ended == q && Reconnected([], acts))
    ensures forall id :: Owed(acts, id) + CallsTo(done, id) == Owed(q, id)
    ensures forall l :: l in Lists(q) ==> Refs(q, l) == Refs(ended, l) + Refs(acts, l)
    ensures Lists(acts) <= Lists(q)
  {
    hide Owed, Refs, CallsTo, Completions;
    forall id
      ensures CallsTo(done, id) == Owed(ended, id)
    {
      CompletionsOwed(ended, id);
    }
    if q == ended + acts {
      CountsConcat(ended, acts);
      assert forall i :: 0 <= i < |acts| ==> acts[i] == q[|ended| + i];
      ListsIncluded(acts, q);
    } else {
      NoDebts(acts);
    }
  }

  lemma NoDebts(acts: seq<Action>)
    requires AllQuiet(acts) && Reconnected([], acts)
    ensures (forall id :: Owed(acts, id) == 0) && (forall l :: Refs(acts, l) == 0) && Lists(acts) == {}
  {
    if acts != [] {
      assert acts == [acts[0]];
      CountsOne(acts[0]);
    }
  }

  /** Logins come and go, and all other actions stay. */
  lemma StillQueued(q0: seq<Action>, q1: seq<Action>, q2: seq<Action>)
    requires q1 == q0 || (|q1| > 0 && q1[1..] == q0)
    requires q2 == q1 || Reconnected(q1, q2)
    ensures forall i :: 0 <= i < |q0| && !q0[i].com.LogIn? ==> q0[i] in q2
    ensures forall i :: 1 <= i < |q2| ==> q2[i] in q1
    ensures forall i :: 1 <= i < |q1| ==> q1[i] in q0
    ensures |q2| > 0 && !q2[0].com.LogIn? ==> q2[0] in q1
  {
    assert forall i :: 1 <= i < |q1| ==> q1[i] == q1[1..][i - 1];
    assert forall i :: 1 <= i < |q2| ==> q2[i] == q2[1..][i - 1];
    forall i | 0 <= i < |q0| && !q0[i].com.LogIn?
      ensures q0[i] in q2
    {
      var j := if q1 == q0 then i else i + 1;
      assert q1[j] == q0[i];
      if q2 != q1 {
        var kept := if |q1| > 0 && q1[0].com.LogIn? then q1[1..] else q1;
        var k := if kept == q1 then j else j - 1;
        assert kept[k] == q1[j];
        assert q2 == kept || q2[k + 1] == q2[1..][k];
      }
    }
  }

  /** A pass over the queue q, while the other actions have not moved. */
  lemma StillOnward(marks: seq<Progress>, mid: seq<Progress>, acts0: seq<Action>, q: seq<Action>, marksQ: seq<Progress>, k: nat)
    requires OneRewound(marks, mid, k) && AllOnward(marksQ, q) && |mid| == |acts0|
    requires forall i, j :: 0 <= i < |acts0| && 0 <= j < |q| && acts0[i] == q[j] ==> mid[i] == marksQ[j]
    requires forall i :: 0 <= i < |acts0| && acts0[i] !in q ==> acts0[i].Now() == mid[i]
    ensures OnwardBut(marks, acts0, k) && (mid == marks ==> AllOnward(marks, acts0))
  {
    forall i | 0 <= i < |acts0|
      ensures Onward(mid[i], acts0[i].Now())
    {
      if acts0[i] in q {
        var j :| 0 <= j < |q| && q[j] == acts0[i];
        assert Onward(marksQ[j], q[j].Now());
      }
    }
  }

  lemma CarriedPass(d: Device, s: Stand, acts0: seq<Action>, marks: seq<Progress>, q: seq<Action>, ended: seq<Action>)
    requires OnwardBut(marks, acts0, Foremost(acts0)) && s.history <= d.history && Entered(ended, d.history)
    requires forall a :: a in s.waiting ==> !a.com.LogIn? && exists i :: 0 <= i < |acts0| && acts0[i] == a && s.waiting[a] == marks[i]
    requires forall i :: 0 <= i < |acts0| && !acts0[i].com.LogIn? ==> acts0[i] in q
    requires q == ended + d.acts || q == ended
    ensures Carried(s, d.Standing())
  {
    forall a | a in s.waiting
      ensures (a in d.Standing().waiting && GoesOn(s.waiting[a], d.Standing().waiting[a])) || EndedFrom(d.history, a, s.waiting[a])
    {
      var i :| 0 <= i < |acts0| && acts0[i] == a && s.waiting[a] == marks[i];
      assert GoesOn(marks[i], a.Now());
      assert a in ended || a in d.acts;
      if a in ended {
        var j :| 0 <= j < |ended| && ended[j] == a;
        assert d.history[|d.history| - |ended| + j] == a.End();
      }
    }
  }

  lemma StillThere(q: seq<Action>, ended: seq<Action>, acts: seq<Action>)
    ensures q == ended + acts ==> forall i :: 0 <= i < |acts| ==> acts[i] == q[|ended| + i]
    ensures Reconnected([], acts) ==> |acts| <= 1 && (acts != [] ==> acts[0].com.LogIn?)
  {
    if Reconnected([], acts) && acts != [] { assert acts == [acts[0]]; }
  }
}
