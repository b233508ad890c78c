/** A client of the daemon: what it is waiting for, and the replies it has been sent. */
module Clients {
  import opened Scripts
  import opened ArgLists
  import opened Actions

  // ---- The protocol

  /** The version line and the prompt, and lines known by their number: 1xx and 2xx end a
      response, 3xx are information. */
  datatype Reply = Version | Prompt | Line(code: nat) {
    predicate Final?() { Line? && 100 <= code < 300 }
  }

  const RSP_QUIT: nat := 101
  const RSP_COM_COMPLETE: nat := 102
  const RSP_QRY_COMPLETE: nat := 103
  const RSP_TELEMETRY: nat := 104
  const RSP_EXPRANGE: nat := 105
  const ERR_UNKNOWN: nat := 201
  const ERR_TOOLONG: nat := 203
  const ERR_HOSTLIST: nat := 205
  const ERR_CLIBUSY: nat := 208
  const ERR_NOSUCHNODES: nat := 209
  const ERR_COM_COMPLETE: nat := 210
  const ERR_QRY_COMPLETE: nat := 211
  const ERR_UNIMPL: nat := 213
  const INFO_HELP: nat := 301
  const INFO_STATUS: nat := 302
  const INFO_XSTATUS: nat := 303
  const INFO_DEVICE: nat := 304
  const INFO_NODES: nat := 306
  const INFO_ACTERROR: nat := 308

  /** A line of input after whitespace has been stripped and the keyword recognised. */
  datatype Request =
    | TooLong
    | Help
    | Nodes
    | Telemetry
    | ExpRange
    | Quit
    | Run(com: Com, arg: Option<string>)
    | Devices
    | Unrecognised

  /** Replies that answer a request: no information, and no word that the client is busy. */
  function Answers(out: seq<Reply>): seq<Reply> {
    if |out| == 0 then []
    else
      var r := out[|out| - 1];
      Answers(out[..|out| - 1]) + (if r.Line? && (r.code >= 300 || r.code == ERR_CLIBUSY) then [] else [r])
  }

  /** How many lines have been put off because the client was busy. */
  function Busies(out: seq<Reply>): nat {
    if |out| == 0 then 0
    else Busies(out[..|out| - 1]) + (if out[|out| - 1] == Line(ERR_CLIBUSY) then 1 else 0)
  }

  lemma AnswersSnoc(out: seq<Reply>, r: Reply)
    ensures Busies(out + [r]) == Busies(out) + (if r == Line(ERR_CLIBUSY) then 1 else 0)
    ensures Answers(out + [r]) == Answers(out) + (if r.Line? && (r.code >= 300 || r.code == ERR_CLIBUSY) then [] else [r])
  {
    assert (out + [r])[..|out|] == out;
  }

  /** The greeting, and then n times one final line and one prompt. */
  ghost predicate Alternates(s: seq<Reply>, n: nat) {
    && |s| == 2 + 2 * n && s[0] == Version && s[1] == Prompt
    && forall k :: 0 <= k < n ==> s[2 + 2 * k].Final?() && s[2 + 2 * k + 1] == Prompt
  }

  lemma AlternatesMore(s: seq<Reply>, n: nat, r: Reply)
    requires Alternates(s, n) && r.Final?()
    ensures Alternates(s + [r] + [Prompt], n + 1)
  {
    var t := s + [r] + [Prompt];
    forall k | 0 <= k < n + 1
      ensures t[2 + 2 * k].Final?() && t[2 + 2 * k + 1] == Prompt
    {
      if k < n { assert t[2 + 2 * k] == s[2 + 2 * k] && t[2 + 2 * k + 1] == s[2 + 2 * k + 1]; }
    }
  }

  // ---- Clients

  datatype Command = Command(com: Com, pending: int, error: bool, arglist: ArgList)

  class Client {
    const id: nat
    var cmd: Option<Command>
    var out: seq<Reply>
    var telemetry: bool
    var exprange: bool
    var quit: bool
    /** Lines that have come in, and those of them that are answered or to be answered. */
    ghost var lines: nat
    ghost var taken: nat

    /** Every line has either been put off with a word that the client is busy, or been taken;
        and each line taken has its answer and a prompt, but for the one of a pending command. */
    ghost predicate Answered()
      reads this
    {
      lines == taken + Busies(out) &&
      if cmd.Some? then taken > 0 && Alternates(Answers(out), taken - 1) else Alternates(Answers(out), taken)
    }

    /** `_create_client_socket` and `_create_client_stdio`: the greeting. */
    constructor (id: nat)
      ensures this.id == id && cmd == None && !quit && lines == 0 && Answered()
    {
      this.id := id;
      cmd, out, telemetry, exprange, quit, lines, taken := None, [Version, Prompt], false, false, false, 0, 0;
      new;
      assert Answers([Version]) == [Version] && Answers([Version, Prompt]) == [Version, Prompt] by {
        AnswersSnoc([], Version);
        AnswersSnoc([Version], Prompt);
        assert [] + [Version] == [Version] && [Version] + [Prompt] == [Version, Prompt];
      }
    }

    /** `_client_printf` */
    method Print(r: Reply)
      modifies `out
      ensures out == old(out) + [r]
    {
      out := out + [r];
    }

    /** `_handle_read` at the end of the input. */
    method HangUp()
      modifies `quit
      ensures quit
    {
      quit := true;
    }

    /** Any number of information lines. */
    method Inform(code: nat)
      requires code >= 300
      modifies `out
      ensures Answers(out) == Answers(old(out)) && Busies(out) == Busies(old(out))
    {
      var n: int := *;
      while n > 0
        invariant Answers(out) == Answers(old(out)) && Busies(out) == Busies(old(out))
        decreases n
      {
        AnswersSnoc(out, Line(code));
        out := out + [Line(code)];
        n := n - 1;
      }
    }

    /** The end of an answer: a final line and the prompt. */
    method Answer(code: nat)
      requires 100 <= code < 300 && code != ERR_CLIBUSY
      modifies `out
      ensures Answers(out) == Answers(old(out)) + [Line(code)] + [Prompt] && Busies(out) == Busies(old(out))
    {
      AnswersSnoc(out, Line(code));
      Print(Line(code));
      AnswersSnoc(out, Prompt);
      Print(Prompt);
    }

    /** `_parse_input` for everything but a command that starts device actions. A line that is
        too long is answered even while a command is pending; any other is put off then. */
    method Respond(req: Request)
      requires !req.Run? || cmd.Some?
      requires quit || Answered()
      modifies `out, `telemetry, `exprange, `quit, `lines, `taken
      ensures quit || Answered()
      ensures quit == (old(quit) || (req.Quit? && cmd.None?)) && lines == old(lines) + 1
      ensures if cmd.Some? && !req.TooLong? then out == old(out) + [Line(ERR_CLIBUSY)] && taken == old(taken)
        else Answers(out) == Answers(old(out)) + [Line(CodeOf(req))] + (if quit then [] else [Prompt]) &&
             (!quit ==> taken == old(taken) + 1)
    {
      hide Answers, Busies, Alternates;
      ghost var was := Answers(out);
      lines := lines + 1;
      AnswersSnoc(out, Line(ERR_CLIBUSY));
      if req.TooLong? {
        AnswersSnoc(out, Line(ERR_TOOLONG));
        Print(Line(ERR_TOOLONG));
      } else if cmd.Some? {
        Print(Line(ERR_CLIBUSY));
        assert was + [] == was;
        return;
      } else {
        match req {
          case Help =>
            Inform(INFO_HELP);
          case Nodes =>
            Inform(INFO_NODES);
          case Telemetry =>
            telemetry := !telemetry;
          case ExpRange =>
            exprange := !exprange;
          case Quit =>
            quit := true;
          case Devices =>
            Inform(INFO_DEVICE);
          case _ =>
        }
        AnswersSnoc(out, Line(CodeOf(req)));
        Print(Line(CodeOf(req)));
      }
      assert Answers(out) == was + [Line(CodeOf(req))];
      if !quit {
        taken := taken + 1;
        AlternatesMore(was, if cmd.Some? then taken - 2 else taken - 1, Line(CodeOf(req)));
        AnswersSnoc(out, Prompt);
        Print(Prompt);
      } else {
        assert (was + [Line(CodeOf(req))]) + [] == was + [Line(CodeOf(req))];
      }
    }

    /** `_act_finish`: one of the actions of the pending command has called back. The last one
        brings the answer and the prompt. */
    method ActFinish(err: ActError) returns (finished: bool)
      requires cmd.Some? && cmd.value.pending > 0 && cmd.value.com.Request() && Answered()
      modifies `cmd, `out
      ensures Answered() && finished == (cmd == None)
      ensures var c := AfterCallback(old(cmd.value), err); cmd == if c.pending == 0 then None else Some(c)
      ensures finished ==> Answers(out) == Answers(old(out)) + [Line(EndOf(AfterCallback(old(cmd.value), err)))] + [Prompt]
      ensures !finished ==> Answers(out) == Answers(old(out))
    {
      hide Answers, Busies, Alternates;
      ghost var was := Answers(out);
      if err != Success {
        AnswersSnoc(out, Line(INFO_ACTERROR));
        assert was + [] == was;
        Print(Line(INFO_ACTERROR));
        cmd := Some(cmd.value.(error := true));
      }
      cmd := Some(cmd.value.(pending := cmd.value.pending - 1));
      finished := cmd.value.pending == 0;
      if finished {
        ghost var end := EndOf(cmd.value);
        var com, error := cmd.value.com, cmd.value.error;
        if com.StatusPlugs? || com.StatusBeacon? {
          Inform(INFO_STATUS);
          Answer(if error then ERR_QRY_COMPLETE else RSP_QRY_COMPLETE);
        } else if com.StatusTemp? {
          Inform(INFO_XSTATUS);
          Answer(if error then ERR_QRY_COMPLETE else RSP_QRY_COMPLETE);
        } else {
          Answer(if error then ERR_COM_COMPLETE else RSP_COM_COMPLETE);
        }
        AlternatesMore(was, taken - 1, Line(end));
        cmd := None;
      }
    }

    /** A command could not be started: an error and the prompt. */
    method Refuse(code: nat)
      requires cmd.None? && (quit || Answered()) && 200 <= code < 300 && code != ERR_CLIBUSY
      modifies `out, `lines, `taken
      ensures (quit || Answered()) && lines == old(lines) + 1
      ensures Answers(out) == Answers(old(out)) + [Line(code)] + (if quit then [] else [Prompt])
      ensures !quit ==> taken == old(taken) + 1
    {
      hide Answers, Busies, Alternates;
      ghost var was := Answers(out);
      lines := lines + 1;
      AnswersSnoc(out, Line(code));
      Print(Line(code));
      if !quit {
        taken := taken + 1;
        AlternatesMore(was, taken - 1, Line(code));
        AnswersSnoc(out, Prompt);
        Print(Prompt);
      } else {
        assert (was + [Line(code)]) + [] == was + [Line(code)];
      }
    }

    /** A command has been started: the answer is to come. */
    method Start(command: Command)
      requires cmd.None? && (quit || Answered())
      modifies `cmd, `lines, `taken
      ensures cmd == Some(command) && (quit || Answered()) && lines == old(lines) + 1 && taken == old(taken) + 1
    {
      cmd := Some(command);
      lines, taken := lines + 1, taken + 1;
    }
  }

  /** The final line that answers a request which starts no command. */
  function CodeOf(req: Request): nat {
    match req
    case TooLong => ERR_TOOLONG
    case Help => RSP_QRY_COMPLETE
    case Nodes => RSP_QRY_COMPLETE
    case Telemetry => RSP_TELEMETRY
    case ExpRange => RSP_EXPRANGE
    case Quit => RSP_QUIT
    case Devices => RSP_QRY_COMPLETE
    case Unrecognised => ERR_UNKNOWN
    case Run(_, _) => ERR_CLIBUSY
  }

  /** The final line of a completed command. */
  function EndOf(cmd: Command): nat {
    if cmd.com.Query() then (if cmd.error then ERR_QRY_COMPLETE else RSP_QRY_COMPLETE)
    else if cmd.error then ERR_COM_COMPLETE else RSP_COM_COMPLETE
  }

  /** A command after one callback. */
  function AfterCallback(cmd: Command, err: ActError): Command {
    cmd.(pending := cmd.pending - 1, error := cmd.error || err != Success)
  }
}
