/** The daemon: clients, their commands, and the devices that carry them out. */
module Daemons {
  import opened Scripts
  import opened ArgLists
  import opened Actions
  import opened Devices
  import opened DeviceList
  import opened Clients
  import HostLists
  import Digits
  import HostOrder
  import HostPrint
  import HostSort
  import HostText
  import Conf
  import opened Targeting

  // ---- The accounts of clients and queues

  /** What the accounts need to know of a client. */
  datatype Entry = Entry(id: nat, cmd: Option<Command>)

  ghost function Entries(clients: seq<Client>): (es: seq<Entry>)
    reads clients
    ensures |es| == |clients| && forall i :: 0 <= i < |clients| ==> es[i] == Entry(clients[i].id, clients[i].cmd)
  {
    seq(|clients|, i requires 0 <= i < |clients| reads clients => Entry(clients[i].id, clients[i].cmd))
  }

  /** A client with a command waits for as many callbacks as the queues owe it, and for at
      least one; a client without a command is owed none. `due` are callbacks on their way. */
  ghost predicate Balanced(es: seq<Entry>, qs: seq<seq<Action>>, due: seq<Completion>) {
    && (forall i, j :: 0 <= i < j < |es| ==> es[i].id != es[j].id)
    && forall i :: 0 <= i < |es| ==> Waits(es[i], OwedAll(qs, es[i].id) + CallsTo(due, es[i].id))
  }

  ghost predicate Waits(e: Entry, n: nat) {
    if e.cmd.Some? then e.cmd.value.pending == n > 0 else n == 0
  }

  /** How many commands hold a result list. */
  ghost function Holders(es: seq<Entry>, l: ArgList): nat {
    if |es| == 0 then 0 else (if es[0].cmd.Some? && es[0].cmd.value.arglist == l then 1 else 0) + Holders(es[1..], l)
  }

  ghost function Base(es: seq<Entry>, lists: set<ArgList>): map<ArgList, nat> {
    map l | l in lists :: Holders(es, l)
  }

  lemma {:induction false} CallsToCons(x: Completion, due: seq<Completion>, id: nat)
    ensures CallsTo([x] + due, id) == CallsTo(due, id) + (if x.clientId == id then 1 else 0)
  {
    var s := [x] + due;
    if |due| == 0 {
      assert s[..0] == [] && CallsTo(s[..0], id) == 0;
    } else {
      assert s[..|s| - 1] == [x] + due[..|due| - 1];
      CallsToCons(x, due[..|due| - 1], id);
    }
  }

  lemma {:induction false} HoldersUpdate(es: seq<Entry>, k: nat, e: Entry, l: ArgList)
    requires k < |es|
    ensures Holders(es[k := e], l) == Holders(es, l)
      - (if es[k].cmd.Some? && es[k].cmd.value.arglist == l then 1 else 0)
      + (if e.cmd.Some? && e.cmd.value.arglist == l then 1 else 0)
    ensures es[k].cmd.Some? && es[k].cmd.value.arglist == l ==> Holders(es, l) > 0
  {
    if k == 0 {
      assert es[0 := e][1..] == es[1..];
    } else {
      assert es[k := e][1..] == es[1..][k - 1 := e];
      HoldersUpdate(es[1..], k - 1, e, l);
    }
  }

  /** The entry of a waiting client after one callback. */
  function EntryAfter(e: Entry, err: ActError): Entry
    requires e.cmd.Some?
  {
    var cmd := AfterCallback(e.cmd.value, err);
    Entry(e.id, if cmd.pending == 0 then None else Some(cmd))
  }

  /** All entries after a callback. */
  function EntriesAfter(es: seq<Entry>, x: Completion): seq<Entry> {
    seq(|es|, i requires 0 <= i < |es| => if es[i].id == x.clientId && es[i].cmd.Some? then EntryAfter(es[i], x.err) else es[i])
  }

  /** A callback finds its client waiting, and leaves the accounts balanced. */
  lemma BalancedCallback(es: seq<Entry>, k: nat, qs: seq<seq<Action>>, x: Completion, due: seq<Completion>)
    requires Balanced(es, qs, [x] + due) && k < |es| && es[k].id == x.clientId
    ensures es[k].cmd.Some? && es[k].cmd.value.pending > 0
    ensures Balanced(es[k := EntryAfter(es[k], x.err)], qs, due)
  {
    hide OwedAll, CallsTo;
    CallsToCons(x, due, es[k].id);
    assert Waits(es[k], OwedAll(qs, es[k].id) + CallsTo([x] + due, es[k].id));
    var es' := es[k := EntryAfter(es[k], x.err)];
    forall i | 0 <= i < |es'|
      ensures Waits(es'[i], OwedAll(qs, es'[i].id) + CallsTo(due, es'[i].id))
    {
      CallsToCons(x, due, es[i].id);
      assert Waits(es[i], OwedAll(qs, es[i].id) + CallsTo([x] + due, es[i].id));
    }
  }

  /** A callback for a client that has gone changes nothing. */
  lemma BalancedGone(es: seq<Entry>, qs: seq<seq<Action>>, x: Completion, due: seq<Completion>)
    requires Balanced(es, qs, [x] + due) && forall i :: 0 <= i < |es| ==> es[i].id != x.clientId
    ensures Balanced(es, qs, due)
  {
    hide OwedAll, CallsTo, Waits;
    forall i | 0 <= i < |es|
      ensures Waits(es[i], OwedAll(qs, es[i].id) + CallsTo(due, es[i].id))
    {
      CallsToCons(x, due, es[i].id);
      assert Waits(es[i], OwedAll(qs, es[i].id) + CallsTo([x] + due, es[i].id));
    }
  }

  /** Callbacks move from the queues onto their way. */
  lemma BalancedPoll(es: seq<Entry>, qs: seq<seq<Action>>, qs': seq<seq<Action>>, done: seq<Completion>)
    requires Balanced(es, qs, []) && forall id :: OwedAll(qs', id) + CallsTo(done, id) == OwedAll(qs, id)
    ensures Balanced(es, qs', done)
  {
    hide OwedAll, Waits;
    forall i | 0 <= i < |es|
      ensures Waits(es[i], OwedAll(qs', es[i].id) + CallsTo(done, es[i].id))
    {
      assert Waits(es[i], OwedAll(qs, es[i].id) + CallsTo([], es[i].id));
    }
  }

  /** A client without a command starts one. */
  lemma BalancedStart(es: seq<Entry>, k: nat, qs: seq<seq<Action>>, qs': seq<seq<Action>>, cmd: Command)
    requires Balanced(es, qs, []) && k < |es| && es[k].cmd.None? && cmd.pending > 0
    requires forall id :: OwedAll(qs', id) == OwedAll(qs, id) + (if id == es[k].id then cmd.pending else 0)
    ensures Balanced(es[k := Entry(es[k].id, Some(cmd))], qs', [])
  {
    hide OwedAll;
    var es' := es[k := Entry(es[k].id, Some(cmd))];
    assert Waits(es[k], OwedAll(qs, es[k].id) + CallsTo([], es[k].id));
    forall i | 0 <= i < |es'|
      ensures Waits(es'[i], OwedAll(qs', es'[i].id) + CallsTo([], es'[i].id))
    {
      assert Waits(es[i], OwedAll(qs, es[i].id) + CallsTo([], es[i].id));
    }
  }

  /** One command is over: its result list has lost the command's own reference. */
  lemma HoldersWithout(es: seq<Entry>, k: nat, l: ArgList)
    requires k < |es|
    ensures Holders(es[..k] + es[k + 1..], l) == Holders(es, l) - (if es[k].cmd.Some? && es[k].cmd.value.arglist == l then 1 else 0)
  {
    HoldersConcat(es[..k], es[k + 1..], l);
    HoldersConcat([es[k]], es[k + 1..], l);
    HoldersConcat(es[..k], [es[k]] + es[k + 1..], l);
    assert es == es[..k] + ([es[k]] + es[k + 1..]);
    assert [es[k]][1..] == [];
  }

  lemma {:induction false} HoldersConcat(a: seq<Entry>, b: seq<Entry>, l: ArgList)
    ensures Holders(a + b, l) == Holders(a, l) + Holders(b, l)
  {
    if |a| == 0 {
      assert a + b == b;
    } else {
      assert (a + b)[1..] == a[1..] + b;
      HoldersConcat(a[1..], b, l);
    }
  }

  lemma {:induction false} NoHolders(es: seq<Entry>, l: ArgList)
    requires forall i :: 0 <= i < |es| && es[i].cmd.Some? ==> es[i].cmd.value.arglist != l
    ensures Holders(es, l) == 0
  {
    if |es| > 0 { NoHolders(es[1..], l); }
  }

  /** No callback is owed or on its way to a client that is still to come. */
  ghost predicate NoneAhead(qs: seq<seq<Action>>, due: seq<Completion>, next: nat) {
    forall id :: id >= next ==> OwedAll(qs, id) + CallsTo(due, id) == 0
  }

  /** Every command's result list is alive, and the holders of every live list are its
      commands and its queued actions. */
  ghost predicate ListsOk(es: seq<Entry>, qs: seq<seq<Action>>, lists: set<ArgList>)
    reads lists
  {
    && Accounted(qs, Base(es, lists))
    && forall i :: 0 <= i < |es| && es[i].cmd.Some? ==> es[i].cmd.value.arglist in lists
  }

  ghost predicate EntriesOk(es: seq<Entry>, next: nat) {
    forall i :: 0 <= i < |es| ==> es[i].id < next && (es[i].cmd.Some? ==> es[i].cmd.value.com.Request())
  }

  /** The books after some callbacks have left the queues. */
  ghost predicate Books(es: seq<Entry>, qs: seq<seq<Action>>, due: seq<Completion>, next: nat, lists: set<ArgList>)
    reads lists
  {
    Balanced(es, qs, due) && NoneAhead(qs, due, next) && EntriesOk(es, next) && ListsOk(es, qs, lists)
  }

  /** The lists after one entry has changed. */
  lemma ListsUpdate(es: seq<Entry>, k: nat, e: Entry, qs: seq<seq<Action>>, lists: set<ArgList>)
    requires k < |es| && forall i :: 0 <= i < |qs| ==> Lists(qs[i]) <= lists
    requires forall i :: 0 <= i < |es| && es[i].cmd.Some? ==> es[i].cmd.value.arglist in lists
    requires e.cmd.Some? ==> e.cmd.value.arglist in lists
    requires forall l :: l in lists ==>
      l.refcount == RefsAll(qs, l) + Holders(es, l)
        - (if es[k].cmd.Some? && es[k].cmd.value.arglist == l then 1 else 0)
        + (if e.cmd.Some? && e.cmd.value.arglist == l then 1 else 0)
    ensures ListsOk(es[k := e], qs, lists)
  {
    hide RefsAll, Holders, Lists;
    forall l | l in lists
      ensures l.refcount == Holders(es[k := e], l) + RefsAll(qs, l)
    {
      HoldersUpdate(es, k, e, l);
    }
  }

  lemma ListsParts(es: seq<Entry>, qs: seq<seq<Action>>, lists: set<ArgList>)
    requires ListsOk(es, qs, lists)
    ensures forall i :: 0 <= i < |qs| ==> Lists(qs[i]) <= lists
    ensures forall l :: l in lists ==> l.refcount == RefsAll(qs, l) + Holders(es, l)
    ensures forall i :: 0 <= i < |es| && es[i].cmd.Some? ==> es[i].cmd.value.arglist in lists
  {
  }

  lemma HolderAlive(es: seq<Entry>, k: nat, qs: seq<seq<Action>>, lists: set<ArgList>)
    requires ListsOk(es, qs, lists) && k < |es| && es[k].cmd.Some?
    ensures es[k].cmd.value.arglist in lists && es[k].cmd.value.arglist.refcount > 0
  {
    HoldersUpdate(es, k, es[k], es[k].cmd.value.arglist);
  }

  lemma NoneAheadCallback(qs: seq<seq<Action>>, x: Completion, due: seq<Completion>, next: nat)
    requires NoneAhead(qs, [x] + due, next)
    ensures NoneAhead(qs, due, next)
  {
    hide OwedAll, CallsTo;
    forall id | id >= next
      ensures OwedAll(qs, id) + CallsTo(due, id) == 0
    {
      CallsToCons(x, due, id);
    }
  }

  // ---- The daemon

  /** What the main loop hears of. */
  datatype Event =
    | Connect
    | Input(id: nat, requests: seq<Request>, eof: bool)
    | Hangup(id: nat)
    | Poll(flags: seq<Option<Flags>>)

  /** The lines that an event brings from a client. */
  function LinesOf(ev: Event, id: nat): nat {
    if ev.Input? && ev.id == id then |ev.requests| else 0
  }

  /** The lines that a client has sent over some events. */
  function Sent(events: seq<Event>, id: nat): nat {
    if |events| == 0 then 0 else Sent(events[..|events| - 1], id) + LinesOf(events[|events| - 1], id)
  }

  lemma SentMore(events: seq<Event>, from: nat, i: nat, id: nat)
    requires from <= i < |events|
    ensures Sent(events[..i + 1][from..], id) == Sent(events[..i][from..], id) + LinesOf(events[i], id)
  {
    assert events[..i + 1][from..][..i - from] == events[..i][from..];
  }

  /** How many lines each client has sent. */
  ghost function Lines(clients: seq<Client>): map<Client, nat>
    reads clients
  {
    map c | c in clients :: c.lines
  }

  /** What an event has added: a client that has just come has sent nothing yet. */
  ghost predicate Heard(was: map<Client, nat>, now: map<Client, nat>, ev: Event) {
    forall c :: c in now ==> if c in was then now[c] == was[c] + LinesOf(ev, c.id) else ev.Connect? && now[c] == 0
  }

  /** Every client's count has grown by the lines that the events brought from it, or that came
      after the one that brought the client itself, which is event number since - 1. */
  ghost predicate Tallied(was: map<Client, nat>, now: map<Client, nat>, since: map<Client, nat>, events: seq<Event>) {
    forall c :: c in now ==> TalliedAt(c, was, now, since, events)
  }

  ghost predicate TalliedAt(c: Client, was: map<Client, nat>, now: map<Client, nat>, since: map<Client, nat>, events: seq<Event>)
    requires c in now
  {
    if c in was then now[c] == was[c] + Sent(events, c.id)
    else
      && c in since && 0 < since[c] <= |events| && events[since[c] - 1].Connect?
      && now[c] == Sent(events[since[c]..], c.id)
  }

  /** Clients that were not there before event number n - 1 came with it. */
  ghost function Since(was: map<Client, nat>, mid: map<Client, nat>, now: map<Client, nat>, since: map<Client, nat>, n: nat): map<Client, nat> {
    map c | c in now && c !in was :: if c in mid && c in since then since[c] else n
  }

  lemma TalliedNone(was: map<Client, nat>)
    ensures Tallied(was, was, map[], [])
  {
  }

  lemma TalliedMore(was: map<Client, nat>, mid: map<Client, nat>, now: map<Client, nat>, since: map<Client, nat>, events: seq<Event>, i: nat)
    requires i < |events| && Tallied(was, mid, since, events[..i]) && Heard(mid, now, events[i])
    requires forall c :: c in now && c in was ==> c in mid
    ensures Tallied(was, now, Since(was, mid, now, since, i + 1), events[..i + 1])
  {
    forall c | c in now
      ensures TalliedAt(c, was, now, Since(was, mid, now, since, i + 1), events[..i + 1])
    {
      TalliedOne(c, was, mid, now, since, events, i);
    }
  }

  lemma TalliedOne(c: Client, was: map<Client, nat>, mid: map<Client, nat>, now: map<Client, nat>, since: map<Client, nat>,
                   events: seq<Event>, i: nat)
    requires i < |events| && Tallied(was, mid, since, events[..i]) && Heard(mid, now, events[i])
    requires c in now && (c in was ==> c in mid)
    ensures TalliedAt(c, was, now, Since(was, mid, now, since, i + 1), events[..i + 1])
  {
    hide Sent, LinesOf;
    if c in was {
      SentMore(events, 0, i, c.id);
      assert events[..i][0..] == events[..i] && events[..i + 1][0..] == events[..i + 1];
    } else if c in mid {
      SentMore(events, since[c], i, c.id);
    } else {
      assert events[..i + 1][i + 1..] == [];
      SentNone(c.id);
    }
  }

  lemma SentNone(id: nat)
    ensures Sent([], id) == 0
  {
  }

  /** The text writes the name of an alias in a bracket although its number is too large for
      the search: the expansion of the aliases would not end. */
  ghost predicate Hangs(t: seq<Conf.Entry>, text: string) {
    HostText.Parse(text).Ok? && exists i :: 0 <= i < |t| && Elusive(t[i].name, text)
  }

  predicate Elusive(name: string, text: string) {
    !HostLists.Searchable(name) && name in HostText.Bracketed(text)
  }

  lemma HangsEndless(t: seq<Conf.Entry>, text: string, hr: seq<Range>)
    requires HostText.Parse(text).Ok?
    requires forall n :: !HostLists.Searchable(n) ==> (HostLists.Spells(hr, n) <==> n in HostText.Bracketed(text))
    ensures Hangs(t, text) <==> Conf.Endless(t, hr)
  {
    hide HostText.Parse, HostText.Bracketed, HostLists.Searchable, HostLists.Spells;
    forall i | 0 <= i < |t|
      ensures Elusive(t[i].name, text) <==> Conf.Elusive(t[i].name, hr)
    {
    }
  }

  /** Every alias that the search misses can be written so, if it can be written at all. */
  lemma HangsAlias(t: seq<Conf.Entry>, i: nat)
    requires i < |t| && !HostLists.Searchable(t[i].name) && HostText.Clean(t[i].name)
    ensures var name := t[i].name;
      |name| > 0 && Hangs(t, name[..|name| - 1] + ("[" + name[|name| - 1..] + "]"))
  {
    hide HostText.Parse, HostText.Bracketed, HostLists.Searchable;
    var name := t[i].name;
    HostLists.UnsearchableDigits(name);
    var front, last := name[..|name| - 1], name[|name| - 1..];
    assert last[..0] == "" && Digits.Value(last) <= 9;
    HostPrint.BracketNumber(front, last);
    assert front + last == name;
    assert Elusive(t[i].name, front + ("[" + last + "]"));
  }

  /** The text a[99999999] hangs a daemon that has an alias a99999999. */
  lemma HangsWitness(hosts: seq<string>)
    ensures Hangs([Conf.Entry("a99999999", hosts)], "a[99999999]")
  {
    hide HostText.Parse, HostText.Bracketed, HostLists.Searchable;
    Conf.NinesAlias();
    HostPrint.BracketNumber("a", "99999999");
    assert "a[99999999]" == "a" + ("[" + "99999999" + "]");
    assert Elusive([Conf.Entry("a99999999", hosts)][0].name, "a[99999999]");
  }

  /** The same nodes, in any order. */
  ghost predicate SameNodes(was: seq<Range>, now: seq<Range>) {
    && HostLists.AllValid(was) && HostLists.AllValid(now)
    && multiset(HostLists.ListNames(was)) == multiset(HostLists.ListNames(now))
  }

  lemma SameNodesOf(a: seq<Range>, b: seq<Range>)
    requires HostLists.AllValid(a) && HostLists.SameList(a, b)
    ensures SameNodes(a, b)
  {
    HostLists.SameListNames(a, b);
  }

  lemma SameNodesTrans(a: seq<Range>, b: seq<Range>, c: seq<Range>)
    requires SameNodes(a, b) && SameNodes(b, c)
    ensures SameNodes(a, c)
  {
  }

  class Daemon {
    const devices: seq<Device>
    const nodes: HostLists.HostList
    const aliases: seq<Conf.Alias>
    ghost const table: seq<Conf.Entry>
    /** What sorts the nodes, if they can be sorted. */
    ghost const widths: Option<string -> nat>
    var clients: seq<Client>
    var nextId: nat
    /** The result lists that have been made. */
    ghost var lists: set<ArgList>

    /** The daemon starts with no clients, and with devices that owe nobody anything: at most
        logins and pings are queued. */
    constructor (devices: seq<Device>, nodes: HostLists.HostList, aliases: seq<Conf.Alias>, ghost table: seq<Conf.Entry>,
                 ghost widths: Option<string -> nat>)
      requires FleetOk(devices) && forall id :: OwedAll(Queues(devices), id) == 0
      requires forall i :: 0 <= i < |devices| ==> Lists(devices[i].acts) == {}
      requires nodes.Valid() && Conf.Describes(aliases, table)
      requires forall i :: 0 <= i < |aliases| ==> aliases[i].hl != nodes
      requires widths.Some? ==> HostSort.Sortable(nodes.hr, widths.value)
      ensures this.devices == devices && this.nodes == nodes && this.aliases == aliases && this.table == table && this.widths == widths
      ensures ConfOk() && Serving([]) && clients == []
    {
      this.devices, this.nodes, this.aliases, this.table, this.widths := devices, nodes, aliases, table, widths;
      clients, nextId, lists := [], 1, {};
    }

    ghost predicate ConfOk()
      reads nodes, set i | 0 <= i < |aliases| :: aliases[i].hl
    {
      && nodes.Valid() && Conf.Describes(aliases, table)
      && (forall i :: 0 <= i < |aliases| ==> aliases[i].hl != nodes)
      && (widths.Some? ==> HostSort.Sortable(nodes.hr, widths.value))
    }

    /** A request whose answer comes: no argument sends the expansion of aliases round for ever,
        and nodes that cannot be sorted are not asked for. */
    ghost predicate RequestOk(req: Request) {
      && (req.Run? ==> req.com.Request() && (req.arg.Some? ==> !Hangs(table, req.arg.value)))
      && (req.Nodes? ==> widths.Some?)
    }

    ghost predicate EventOk(ev: Event) {
      ev.Input? ==> forall i :: 0 <= i < |ev.requests| ==> RequestOk(ev.requests[i])
    }

    /** Every line that a client has sent has its answer, but for the one of a pending command. */
    ghost predicate Answering()
      reads this, clients
    {
      Distinct(clients) && forall i :: 0 <= i < |clients| ==> clients[i].quit || clients[i].Answered()
    }

    /** What holds while the callbacks `due` are on their way. */
    ghost predicate Serving(due: seq<Completion>)
      reads this, clients, devices, ActsOf(devices), lists
    {
      && FleetOk(devices) && Answering()
      && Books(Entries(clients), Queues(devices), due, nextId, lists)
    }

    /** `_find_client` */
    method FindClient(id: nat) returns (k: nat)
      ensures k <= |clients| && (k < |clients| ==> clients[k].id == id)
      ensures forall i :: 0 <= i < k ==> clients[i].id != id
    {
      k := 0;
      while k < |clients| && clients[k].id != id
        invariant k <= |clients| && forall i :: 0 <= i < k ==> clients[i].id != id
      {
        k := k + 1;
      }
    }

    /** `_act_finish`: nothing for a client that has gone; any other is found waiting. */
    method ActFinish(x: Completion, ghost due: seq<Completion>)
      requires Serving([x] + due) && Open()
      modifies clients`cmd, clients`out, lists`refcount
      ensures Serving(due)
      ensures Entries(clients) == EntriesAfter(old(Entries(clients)), x)
    {
      hide FleetOk, Balanced, NoneAhead, ListsOk, Client.Answered, Queues, EntriesAfter;
      ghost var es, qs := Entries(clients), Queues(devices);
      assert forall a :: a in ActsOf(devices) ==> allocated(a);
      var k := FindClient(x.clientId);
      if k == |clients| {
        NoneAheadCallback(qs, x, due, nextId);
        BalancedGone(es, qs, x, due);
        AfterNobody(es, x);
      } else {
        BalancedIds(es, qs, [x] + due);
        AfterSomebody(es, k, x);
        Callback(k, x, due);
      }
    }

    /** The client has been found. */
    method Callback(k: nat, x: Completion, ghost due: seq<Completion>)
      requires Serving([x] + due) && k < |clients| && clients[k].id == x.clientId && !clients[k].quit
      modifies {clients[k]}`cmd, {clients[k]}`out, lists`refcount
      ensures Serving(due)
      ensures var e := old(Entries(clients)[k]); e.cmd.Some? && Entries(clients) == old(Entries(clients))[k := EntryAfter(e, x.err)]
    {
      hide FleetOk, Balanced, NoneAhead, ListsOk, Client.Answered, Queues, RefsAll, Holders;
      ghost var es, qs := Entries(clients), Queues(devices);
      assert forall a :: a in ActsOf(devices) ==> allocated(a);
      NoneAheadCallback(qs, x, due, nextId);
      BalancedCallback(es, k, qs, x, due);
      HolderAlive(es, k, qs, lists);
      ListsParts(es, qs, lists);
      var client := clients[k];
      var arglist := client.cmd.value.arglist;
      var finished := client.ActFinish(x.err);
      if finished {
        arglist.Unlink();
      }
      ghost var e := EntryAfter(es[k], x.err);
      assert Entries(clients) == es[k := e];
      ListsUpdate(es, k, e, qs, lists);
    }

    /** `dev_post_poll`: one pass over the devices, with the callbacks that each of them makes,
        until none of them has an action that could go on. */
    method PostPoll(flags: seq<Option<Flags>>)
      requires Serving([]) && Open() && |flags| == |devices|
      requires forall i :: 0 <= i < |devices| && flags[i].Some? ==> devices[i].connectState != NotConnected
      modifies devices, ActsOf(devices), lists, clients`cmd, clients`out
      ensures Serving([]) && AllCarried(old(Stands(devices)), Stands(devices))
      ensures forall a :: a in ActsOf(devices) ==> a in old(ActsOf(devices)) || fresh(a)
      ensures AllIdle(devices)
    {
      hide Serving, ActsOf, Stands, AllCarried, Device.Idle;
      ghost var own, stands := ActsOf(devices), Stands(devices);
      AllCarriedSame(stands);
      for i := 0 to |devices|
        invariant Serving([]) && forall a :: a in ActsOf(devices) ==> a in own || fresh(a)
        invariant AllCarried(stands, Stands(devices)) && forall k :: 0 <= k < i ==> devices[k].Idle()
        invariant forall k :: i <= k < |devices| && flags[k].Some? ==> devices[k].connectState != NotConnected
      {
        ghost var before := Stands(devices);
        ServingParts(this, [], i);
        PollStep(i, flags[i]);
        AllCarriedTrans(stands, before, Stands(devices));
      }
    }

    /** One device, and its callbacks. */
    method PollStep(i: nat, flags: Option<Flags>)
      requires Serving([]) && Open() && i < |devices| && (flags.Some? ==> devices[i].connectState != NotConnected)
      modifies devices[i], devices[i].acts, lists, clients`cmd, clients`out
      ensures Serving([]) && AllCarried(old(Stands(devices)), Stands(devices))
      ensures forall j :: 0 <= j < |devices| && j != i ==> devices[j].connectState == old(devices[j].connectState)
      ensures forall a :: a in ActsOf(devices) ==> a in old(ActsOf(devices)) || fresh(a)
      ensures devices[i].Idle() && forall j :: 0 <= j < |devices| && j != i ==> devices[j].Idle() == old(devices[j].Idle())
    {
      hide Serving, Stands, AllCarried, ActsOf, Device.Idle;
      ServingParts(this, [], i);
      var done := PollDevice(i, flags);
      ActsAllocated(devices);
      FinishAll(done);
    }

    method FinishAll(done: seq<Completion>)
      requires Serving(done) && Open()
      modifies lists`refcount, clients`cmd, clients`out
      ensures Serving([])
    {
      hide Serving;
      var k := 0;
      assert done[0..] == done;
      while k < |done|
        invariant k <= |done| && Serving(done[k..])
      {
        assert done[k..] == [done[k]] + done[k + 1..];
        ActFinish(done[k], done[k + 1..]);
        k := k + 1;
      }
      assert done[k..] == [];
    }

    /** No client is about to be destroyed. */
    ghost predicate Open()
      reads this, clients
    {
      forall i :: 0 <= i < |clients| ==> !clients[i].quit
    }

    method PollDevice(i: nat, flags: Option<Flags>) returns (done: seq<Completion>)
      requires Serving([]) && i < |devices| && (flags.Some? ==> devices[i].connectState != NotConnected)
      modifies devices[i], devices[i].acts, Lists(devices[i].acts)
      ensures Serving(done) && AllCarried(old(Stands(devices)), Stands(devices))
      ensures forall a :: a in ActsOf(devices) ==> a in old(ActsOf(devices)) || fresh(a)
      ensures forall j :: 0 <= j < |devices| && j != i ==> devices[j].connectState == old(devices[j].connectState)
      ensures devices[i].Idle() && forall j :: 0 <= j < |devices| && j != i ==> devices[j].Idle() == old(devices[j].Idle())
    {
      hide FleetOk, Balanced, NoneAhead, Client.Answered, Queues, RefsAll, OwedAll, CallsTo, Holders, Stands, AllCarried;
      hide Device.Idle;
      ghost var es, qs := Entries(clients), Queues(devices);
      assert forall c :: c in clients ==> allocated(c);
      ListsParts(es, qs, lists);
      done := PollOne(devices, i, flags, Base(es, lists));
      assert Entries(clients) == es;
      BalancedPoll(es, qs, Queues(devices), done);
      NoneAheadPoll(qs, Queues(devices), done, nextId);
    }

    // ---- Clients come and go

    /** `_create_client_socket`: a new client with an identifier of its own. */
    method Accept() returns (client: Client)
      requires Serving([])
      modifies this`clients, this`nextId
      ensures Serving([]) && fresh(client) && clients == old(clients) + [client] && client.id == old(nextId)
      ensures client.cmd == None && !client.quit && client.lines == 0 && nextId == old(nextId) + 1
      ensures Heard(old(Lines(clients)), Lines(clients), Connect)
    {
      hide FleetOk, ListsOk, Balanced, NoneAhead, Queues, Client.Answered;
      ghost var es, qs := Entries(clients), Queues(devices);
      assert forall a :: a in ActsOf(devices) ==> allocated(a);
      client := new Client(nextId);
      clients := clients + [client];
      assert Entries(clients) == es + [Entry(nextId, None)];
      BooksAccept(es, qs, nextId, lists);
      nextId := nextId + 1;
    }

    /** `_destroy_client`: the client lets go of its command's result list; actions that are
        still queued for it will find it gone. */
    method DestroyClient(k: nat)
      requires Serving([]) && k < |clients|
      modifies this`clients, lists`refcount
      ensures Serving([]) && clients == old(clients)[..k] + old(clients)[k + 1..]
    {
      hide FleetOk, Balanced, NoneAhead, ListsOk, Queues, Client.Answered, RefsAll, Holders;
      ghost var es, qs := Entries(clients), Queues(devices);
      assert forall a :: a in ActsOf(devices) ==> allocated(a);
      var client := clients[k];
      ListsParts(es, qs, lists);
      if client.cmd.Some? {
        HolderAlive(es, k, qs, lists);
        client.cmd.value.arglist.Unlink();
      }
      clients := clients[..k] + clients[k + 1..];
      assert Entries(clients) == es[..k] + es[k + 1..];
      BalancedWithout(es, k, qs);
      ListsWithout(es, k, qs, lists);
    }

    // ---- Commands

    /** `_hostlist_create_validated`: the hosts that a text stands for, aliases expanded, or the
        error when it cannot be read or names a node that is not configured. */
    method CreateValidated(text: string) returns (hl: HostLists.HostList?, code: nat)
      requires ConfOk() && !Hangs(table, text)
      modifies nodes`hr, set i | 0 <= i < |aliases| :: aliases[i].hl
      ensures ConfOk() && nodes.Names() == old(nodes.Names()) && HostLists.SameList(old(nodes.hr), nodes.hr)
      ensures code == 0 <==> hl != null
      ensures code in {0, ERR_HOSTLIST, ERR_NOSUCHNODES} && (code == ERR_HOSTLIST <==> HostText.Parse(text).Bad?)
      ensures HostText.Parse(text).Ok? ==>
        var names := Expanded(table, HostText.Parse(text).value);
        (hl != null ==> hl.Valid() && hl.Names() == names && forall n :: n in names ==> n in nodes.Names()) &&
        ((forall n :: n in names ==> HostLists.Findable(old(nodes.hr), n)) ==> (code == 0 <==> forall n :: n in names ==> n in nodes.Names()))
      ensures hl != null ==> fresh(hl) && hl.Valid()
    {
      hide HostText.Parse, HostText.Bracketed, HostLists.ListNames, HostLists.AllValid, HostLists.Spells, Conf.Endless, Hangs;
      hide Expanded, HostLists.Searchable, HostLists.Findable;
      var made := HostText.Create(text);
      if made == null {
        return null, ERR_HOSTLIST;
      }
      HangsEndless(table, text, made.hr);
      ghost var ns := made.Names();
      Conf.ExpandAliases(made, aliases, table);
      ExpandedIs(table, ns);
      var valid := Validate(made, nodes);
      if valid { return made, 0; } else { return null, ERR_NOSUCHNODES; }
    }

    /** `_create_command`: the hosts of a command that every device involved can carry out, or
        the error for the client. No argument stands for all nodes. */
    method CreateCommand(com: Com, arg: Option<string>) returns (hl: HostLists.HostList?, code: nat)
      requires ConfOk() && (arg.Some? ==> !Hangs(table, arg.value))
      modifies nodes`hr, set i | 0 <= i < |aliases| :: aliases[i].hl
      ensures ConfOk() && nodes.Names() == old(nodes.Names()) && HostLists.SameList(old(nodes.hr), nodes.hr)
      ensures (code == 0 <==> hl != null) && code in {0, ERR_HOSTLIST, ERR_NOSUCHNODES, ERR_UNIMPL}
      ensures hl != null ==> fresh(hl) && hl.Valid()
      ensures hl != null && arg.None? ==> hl.Names() == nodes.Names()
      ensures hl != null && arg.Some? ==>
        HostText.Parse(arg.value).Ok? && hl.Names() == Expanded(table, HostText.Parse(arg.value).value)
      ensures hl != null ==> forall n :: n in hl.Names() ==> n in nodes.Names()
      ensures hl != null ==>
        forall i :: 0 <= i < |devices| && Targeted(devices[i].plugs, hl.hr) != [] ==> Implements(devices[i], com)
    {
      hide HostText.Parse, HostLists.ListNames, HostLists.AllValid, HostLists.SameList, Expanded, Targeted, Implements, Hangs;
      SameListSelf(nodes.hr);
      if arg.Some? {
        hl, code := CreateValidated(arg.value);
        if code != 0 { return; }
      } else {
        hl := new HostLists.HostList.Copy(nodes);
        code := 0;
      }
      ghost var was := hl.hr;
      var valid := CheckActions(devices, com, hl);
      if valid {
        TargetedStill(devices, was, hl.hr);
      } else {
        hl, code := null, ERR_UNIMPL;
      }
    }

    /** A result list for a new command. */
    method NewList(hl: HostLists.HostList) returns (arglist: ArgList)
      requires Serving([]) && hl.Valid()
      modifies this`lists
      ensures FleetOk(devices) && Answering()
      ensures fresh(arglist) && lists == old(lists) + {arglist}
      ensures Accounted(Queues(devices), Base(Entries(clients), old(lists))[arglist := 1])
      ensures forall c :: c in clients && c.cmd.Some? ==> c.cmd.value.arglist in old(lists)
    {
      hide FleetOk, Balanced, NoneAhead, Client.Answered, Queues, Accounted, Base;
      assert forall a :: a in ActsOf(devices) ==> allocated(a);
      ghost var es := Entries(clients);
      arglist := new ArgList(hl);
      AccountedNew(es, Queues(devices), lists, arglist);
      ClientsListed(clients, lists);
      lists := lists + {arglist};
    }

    /** The devices queue a command's actions, and the clients notice nothing. */
    method QueueActions(id: nat, com: Com, hl: HostLists.HostList, arglist: ArgList, ghost base: map<ArgList, nat>) returns (total: nat)
      requires FleetOk(devices) && Answering() && Accounted(Queues(devices), base) && arglist in base && base[arglist] > 0
      requires com.Request() && hl.Valid()
      modifies devices`acts, devices`retryCount, hl`hr, arglist`refcount
      ensures FleetOk(devices) && Answering() && Accounted(Queues(devices), base) && hl.Valid()
      ensures Entries(clients) == old(Entries(clients))
      ensures forall i :: OwedAll(Queues(devices), i) == OwedAll(old(Queues(devices)), i) + (if i == id then total else 0)
      ensures forall a :: a in ActsOf(devices) ==> a in old(ActsOf(devices)) || fresh(a)
      ensures AllCarried(old(Stands(devices)), Stands(devices))
      ensures AllQueued(devices, old(Queues(devices)), Queues(devices), com, old(hl.hr), id, arglist)
      ensures total == 0 ==> Queues(devices) == old(Queues(devices))
    {
      hide FleetOk, Queues, OwedAll, AllQueued, Accounted, ActsOf, Stands, AllCarried, Total, Client.Answered;
      hide HostLists.ListNames, HostLists.AllValid, HostLists.SameList;
      ghost var es := Entries(clients);
      assert forall c :: c in clients ==> allocated(c);
      ghost var added;
      total, added := EnqueueActions(devices, com, hl, id, arglist, base);
      assert Entries(clients) == es;
    }

    /** A command's actions are queued, and its result list has one holder more: the command. */
    method QueueCommand(id: nat, com: Com, hl: HostLists.HostList) returns (total: nat, arglist: ArgList)
      requires Serving([]) && id < nextId && com.Request() && hl.Valid()
      modifies this`lists, hl`hr, devices`acts, devices`retryCount
      ensures FleetOk(devices) && Answering() && hl.Valid() && Entries(clients) == old(Entries(clients))
      ensures lists == old(lists) + {arglist}
      ensures fresh(arglist) && arglist in lists && NoneAhead(Queues(devices), [], nextId)
      ensures Awaiting(Entries(clients), Queues(devices), lists, arglist)
      ensures forall i :: OwedAll(Queues(devices), i) == OwedAll(old(Queues(devices)), i) + (if i == id then total else 0)
      ensures forall a :: a in ActsOf(devices) ==> a in old(ActsOf(devices)) || fresh(a)
      ensures AllCarried(old(Stands(devices)), Stands(devices))
      ensures AllQueued(devices, old(Queues(devices)), Queues(devices), com, old(hl.hr), id, arglist)
      ensures total == 0 ==> Queues(devices) == old(Queues(devices))
    {
      hide FleetOk, Balanced, NoneAhead, Client.Answered, Queues, OwedAll, Accounted, Base, Awaiting, ActsOf, Stands, AllCarried, AllQueued;
      hide HostLists.ListNames, HostLists.AllValid, Daemon.Answering;
      ghost var es, qs, was := Entries(clients), Queues(devices), lists;
      ActsAllocated(devices);
      arglist := NewList(hl);
      total := QueueActions(id, com, hl, arglist, Base(es, was)[arglist := 1]);
      BaseNew(es, Queues(devices), was, arglist);
      NoneAheadStart(qs, Queues(devices), id, total, nextId);
    }

    /** The end of `_parse_input`: device actions are queued, and the client is tied up until
        they have called back; a command that queues nothing is refused. */
    method StartCommand(k: nat, client: Client, com: Com, hl: HostLists.HostList) returns (total: nat)
      requires Serving([]) && k < |clients| && clients[k] == client && client.cmd.None? && com.Request() && hl.Valid()
      modifies this`lists, client`cmd, client`out, client`lines, client`taken, hl`hr, devices`acts, devices`retryCount
      ensures Serving([]) && hl.Valid() && client.cmd.Some? == (total > 0)
      ensures forall l :: l in lists ==> l in old(lists) || fresh(l)
      ensures total > 0 ==> client.out == old(client.out) && client.cmd.value.pending == total
      ensures total > 0 ==> client.cmd.value.com == com && !client.cmd.value.error
      ensures total == 0 ==> Answers(client.out) == Answers(old(client.out)) + [Line(ERR_UNIMPL)] + (if client.quit then [] else [Prompt])
      ensures forall a :: a in ActsOf(devices) ==> a in old(ActsOf(devices)) || fresh(a)
      ensures client.lines == old(client.lines) + 1 && AllCarried(old(Stands(devices)), Stands(devices))
      ensures total > 0 ==>
        AllQueued(devices, old(Queues(devices)), Queues(devices), com, old(hl.hr), client.id, client.cmd.value.arglist)
      ensures total == 0 ==> Queues(devices) == old(Queues(devices))
    {
      hide FleetOk, Balanced, NoneAhead, Client.Answered, Queues, OwedAll, Answers, Awaiting, ListsOk, Stands, AllCarried, ActsOf, AllQueued;
      hide HostLists.ListNames, HostLists.AllValid;
      ghost var es, qs := Entries(clients), Queues(devices);
      var arglist;
      total, arglist := QueueCommand(client.id, com, hl);
      ActsAllocated(devices);
      if total == 0 {
        BalancedSame(es, qs, Queues(devices));
        Refused(client, arglist);
      } else {
        BalancedStart(es, k, qs, Queues(devices), Command(com, total, false, arglist));
        Started(k, Command(com, total, false, arglist));
      }
    }

    method Refused(client: Client, arglist: ArgList)
      requires FleetOk(devices) && Answering() && arglist in lists && client in clients && client.cmd.None?
      requires Balanced(Entries(clients), Queues(devices), []) && NoneAhead(Queues(devices), [], nextId)
      requires EntriesOk(Entries(clients), nextId) && Awaiting(Entries(clients), Queues(devices), lists, arglist)
      modifies client`out, client`lines, client`taken, arglist`refcount
      ensures Serving([]) && client.lines == old(client.lines) + 1
      ensures Answers(client.out) == Answers(old(client.out)) + [Line(ERR_UNIMPL)] + (if client.quit then [] else [Prompt])
    {
      hide FleetOk, Balanced, NoneAhead, Client.Answered, Queues, Answers, RefsAll, Holders;
      ghost var es := Entries(clients);
      assert forall a :: a in ActsOf(devices) ==> allocated(a);
      client.Refuse(ERR_UNIMPL);
      AwaitingAlive(es, Queues(devices), lists, arglist);
      arglist.Unlink();
      assert Entries(clients) == es;
      ListsAre(es, Queues(devices), lists);
    }

    method Started(k: nat, cmd: Command)
      requires FleetOk(devices) && Answering() && cmd.arglist in lists && k < |clients| && clients[k].cmd.None? && cmd.com.Request()
      requires Balanced(Entries(clients)[k := Entry(clients[k].id, Some(cmd))], Queues(devices), []) && NoneAhead(Queues(devices), [], nextId)
      requires EntriesOk(Entries(clients), nextId) && Awaiting(Entries(clients), Queues(devices), lists, cmd.arglist)
      modifies {clients[k]}`cmd, {clients[k]}`lines, {clients[k]}`taken
      ensures Serving([]) && clients[k].cmd == Some(cmd) && clients[k].lines == old(clients[k].lines) + 1
    {
      hide FleetOk, Balanced, NoneAhead, Client.Answered, Queues, RefsAll, Holders;
      ghost var es := Entries(clients);
      assert forall a :: a in ActsOf(devices) ==> allocated(a);
      clients[k].Start(cmd);
      assert Entries(clients) == es[k := Entry(es[k].id, Some(cmd))];
      ListsUpdate(es, k, Entry(es[k].id, Some(cmd)), Queues(devices), lists);
    }

    // ---- Input

    /** The part of `_parse_input` for a command that starts device actions: it is refused, or
        it queues what its targets `rs` need. */
    method RunCommand(k: nat, client: Client, com: Com, arg: Option<string>) returns (ghost rs: seq<Range>)
      requires Serving([]) && ConfOk() && k < |clients| && clients[k] == client && client.cmd.None? && RequestOk(Request.Run(com, arg))
      modifies this`lists, nodes`hr, (set i | 0 <= i < |aliases| :: aliases[i].hl), devices`acts, devices`retryCount
      modifies client`cmd, client`out, client`lines, client`taken
      ensures Serving([]) && ConfOk() && forall l :: l in lists ==> l in old(lists) || fresh(l)
      ensures forall a :: a in ActsOf(devices) ==> a in old(ActsOf(devices)) || fresh(a)
      ensures client.lines == old(client.lines) + 1 && AllCarried(old(Stands(devices)), Stands(devices))
      ensures client.cmd.None? ==>
        Refusal(old(client.out), client.out, client.quit) && Queues(devices) == old(Queues(devices))
      ensures client.cmd.Some? ==> client.cmd.value.com == com
      ensures client.cmd.Some? ==>
        Dispatched(devices, old(Queues(devices)), Queues(devices), com, Hosts(table, old(nodes.hr), arg), rs,
                   client.id, client.cmd.value.arglist)
      ensures HostLists.SameList(old(nodes.hr), nodes.hr)
    {
      hide Serving, ConfOk, Answers, Refusal, Stands, AllCarried, Hangs, Expanded, ActsOf, Queues, AllQueued, Targeted, Implements;
      hide HostLists.SameList, Hosts, Dispatched, HostLists.ListNames, HostLists.AllValid, HostText.Parse;
      AllCarriedSame(Stands(devices));
      ActsAllocated(devices);
      assert forall l :: l in lists ==> allocated(l);
      ConfNodes(this);
      ghost var was, qs := nodes.hr, Queues(devices);
      rs := [];
      ghost var out := client.out;
      var hl, code := CreateCommand(com, arg);
      if code != 0 {
        RefuseClient(k, code);
        RefusalIs(out, client.out, client.quit, code);
        return;
      }
      rs := hl.hr;
      HostsAre(table, was, arg, hl.Names());
      var total := StartCommand(k, client, com, hl);
      if total == 0 {
        RefusalIs(out, client.out, client.quit, ERR_UNIMPL);
      } else {
        DispatchedIs(devices, qs, Queues(devices), com, rs, client.id, client.cmd.value.arglist);
      }
    }

    /** `_parse_input`: a command that is accepted queues what its targets `rs` need, and
        nothing else touches the queues. */
    method ParseInput(k: nat, req: Request) returns (ghost rs: seq<Range>)
      requires Serving([]) && ConfOk() && k < |clients| && RequestOk(req)
      modifies this`lists, nodes`hr, (set i | 0 <= i < |aliases| :: aliases[i].hl), devices`acts, devices`retryCount
      modifies {clients[k]}`cmd, {clients[k]}`out, {clients[k]}`telemetry, {clients[k]}`exprange, {clients[k]}`quit, {clients[k]}`lines, {clients[k]}`taken
      ensures Serving([]) && ConfOk() && forall l :: l in lists ==> l in old(lists) || fresh(l)
      ensures clients[k].quit == (old(clients[k].quit) || (req.Quit? && old(clients[k].cmd).None?))
      ensures !req.Run? ==> clients[k].cmd == old(clients[k].cmd)
      ensures old(clients[k].cmd).Some? && !req.TooLong? ==>
        clients[k].cmd == old(clients[k].cmd) && clients[k].out == old(clients[k].out) + [Line(ERR_CLIBUSY)]
      ensures req.Run? && old(clients[k].cmd).None? ==> clients[k].cmd.Some? || Refusal(old(clients[k].out), clients[k].out, clients[k].quit)
      ensures forall a :: a in ActsOf(devices) ==> a in old(ActsOf(devices)) || fresh(a)
      ensures clients[k].lines == old(clients[k].lines) + 1 && AllCarried(old(Stands(devices)), Stands(devices))
      ensures if old(clients[k].cmd).Some? || clients[k].cmd.None? then Queues(devices) == old(Queues(devices))
        else req.Run? && clients[k].cmd.value.com == req.com &&
             Dispatched(devices, old(Queues(devices)), Queues(devices), req.com, Hosts(table, old(nodes.hr), req.arg), rs,
                        clients[k].id, clients[k].cmd.value.arglist)
      ensures SameNodes(old(nodes.hr), nodes.hr)
      ensures if req.Nodes? && old(clients[k].cmd).None? then HostOrder.HostsInOrder(HostOrder.ListHosts(nodes.hr))
        else HostLists.SameList(old(nodes.hr), nodes.hr)
    {
      hide Serving, ConfOk, Answers, Refusal, Stands, AllCarried, ActsOf, Queues, Dispatched, Hosts, SameNodes, HostLists.SameList, Hangs;
      AllCarriedSame(Stands(devices));
      ActsAllocated(devices);
      assert forall l :: l in lists ==> allocated(l);
      ConfNodes(this);
      ghost var was := nodes.hr;
      if req.Run? && clients[k].cmd.None? {
        rs := RunCommand(k, clients[k], req.com, req.arg);
        SameNodesOf(was, nodes.hr);
      } else {
        rs := [];
        SameListSelf(was);
        SameNodesOf(was, was);
        if req.Nodes? && clients[k].cmd.None? {
          SortNodes();
        }
        RespondTo(k, req);
      }
    }

    /** The sort in `_client_query_nodes_reply`, which the configuration keeps. */
    method SortNodes()
      requires ConfOk() && widths.Some?
      modifies nodes`hr
      ensures ConfOk() && SameNodes(old(nodes.hr), nodes.hr)
      ensures HostOrder.HostsInOrder(HostOrder.ListHosts(nodes.hr))
    {
      hide HostOrder.Uniform, HostOrder.HostsInOrder, HostOrder.ListHosts, HostSort.AllSmall, HostLists.ListNames, HostLists.AllValid;
      HostSort.SortableSmall(nodes.hr, widths.value);
      HostSort.Sort(nodes, widths.value);
    }

    method RefuseClient(k: nat, code: nat)
      requires Serving([]) && k < |clients| && clients[k].cmd.None? && 200 <= code < 300 && code != ERR_CLIBUSY
      modifies {clients[k]}`out, {clients[k]}`lines, {clients[k]}`taken
      ensures Serving([]) && clients[k].lines == old(clients[k].lines) + 1
      ensures Answers(clients[k].out) == Answers(old(clients[k].out)) + [Line(code)] + (if clients[k].quit then [] else [Prompt])
    {
      hide FleetOk, Books, Queues, Client.Answered, Answers;
      ghost var es := Entries(clients);
      assert forall a :: a in ActsOf(devices) ==> allocated(a);
      clients[k].Refuse(code);
      assert Entries(clients) == es;
    }

    method RespondTo(k: nat, req: Request)
      requires Serving([]) && k < |clients| && (!req.Run? || clients[k].cmd.Some?)
      modifies {clients[k]}`out, {clients[k]}`telemetry, {clients[k]}`exprange, {clients[k]}`quit, {clients[k]}`lines, {clients[k]}`taken
      ensures Serving([]) && clients[k].quit == (old(clients[k].quit) || (req.Quit? && clients[k].cmd.None?))
      ensures clients[k].cmd.Some? && !req.TooLong? ==> clients[k].out == old(clients[k].out) + [Line(ERR_CLIBUSY)]
      ensures clients[k].lines == old(clients[k].lines) + 1
    {
      hide FleetOk, Books, Queues, Client.Answered, Answers;
      ghost var es := Entries(clients);
      assert forall a :: a in ActsOf(devices) ==> allocated(a);
      clients[k].Respond(req);
      assert Entries(clients) == es;
    }

    /** `_handle_input` and the end of the client loop: a client that has quit, or whose
        connection has ended, is destroyed after its lines. */
    method HandleInput(k: nat, requests: seq<Request>, eof: bool)
      requires Serving([]) && Open() && ConfOk() && k < |clients|
      requires forall i :: 0 <= i < |requests| ==> RequestOk(requests[i])
      modifies this`clients, this`lists, nodes`hr, (set i | 0 <= i < |aliases| :: aliases[i].hl), devices`acts, devices`retryCount
      modifies {clients[k]}, lists`refcount
      ensures Serving([]) && Open() && ConfOk()
      ensures (forall l :: l in lists ==> l in old(lists) || fresh(l)) && forall c :: c in clients ==> c in old(clients)
      ensures forall a :: a in ActsOf(devices) ==> a in old(ActsOf(devices)) || fresh(a)
      ensures clients == old(clients) || clients == old(clients)[..k] + old(clients)[k + 1..]
      ensures eof ==> clients == old(clients)[..k] + old(clients)[k + 1..]
      ensures old(clients)[k].lines == old(clients[k].lines) + |requests|
      ensures AllCarried(old(Stands(devices)), Stands(devices)) && SameNodes(old(nodes.hr), nodes.hr)
    {
      hide Serving, ConfOk, Answers, Refusal, Stands, AllCarried, Daemon.RequestOk, ActsOf, SameNodes;
      ActsAllocated(devices);
      ghost var stands := Stands(devices);
      AllCarriedSame(stands);
      SameNodesSelf(this);
      var client := clients[k];
      ServingClients(this, []);
      if eof { HangUp(k); }
      for i := 0 to |requests|
        invariant Serving([]) && ConfOk() && clients == old(clients) && (eof ==> client.quit)
        invariant client.lines == old(client.lines) + i && AllCarried(stands, Stands(devices)) && SameNodes(old(nodes.hr), nodes.hr)
        invariant forall l :: l in lists ==> l in old(lists) || fresh(l)
        invariant forall a :: a in ActsOf(devices) ==> a in old(ActsOf(devices)) || fresh(a)
      {
        ghost var before, hr := Stands(devices), nodes.hr;
        ghost var _ := ParseInput(k, requests[i]);
        AllCarriedTrans(stands, before, Stands(devices));
        SameNodesTrans(old(nodes.hr), hr, nodes.hr);
      }
      ActsAllocated(devices);
      if client.quit {
        DestroyClient(k);
      }
    }

    /** A read has failed or found the end of the input. */
    method HangUp(k: nat)
      requires Serving([]) && k < |clients|
      modifies {clients[k]}`quit
      ensures Serving([]) && clients[k].quit
    {
      hide FleetOk, Books, Queues, Client.Answered;
      ghost var es := Entries(clients);
      assert forall a :: a in ActsOf(devices) ==> allocated(a);
      clients[k].HangUp();
      assert Entries(clients) == es;
    }

    // ---- Runs

    /** Lines for the client of that identifier, if there is one. */
    method TakeInput(id: nat, requests: seq<Request>, eof: bool)
      requires Serving([]) && Open() && ConfOk() && forall i :: 0 <= i < |requests| ==> RequestOk(requests[i])
      modifies this`clients, this`lists, nodes`hr, (set i | 0 <= i < |aliases| :: aliases[i].hl), devices`acts, devices`retryCount
      modifies clients, lists`refcount
      ensures Serving([]) && Open() && ConfOk()
      ensures (forall l :: l in lists ==> l in old(lists) || fresh(l)) && forall c :: c in clients ==> c in old(clients)
      ensures forall a :: a in ActsOf(devices) ==> a in old(ActsOf(devices)) || fresh(a)
      ensures Heard(old(Lines(clients)), Lines(clients), Input(id, requests, eof))
      ensures AllCarried(old(Stands(devices)), Stands(devices)) && SameNodes(old(nodes.hr), nodes.hr)
    {
      hide Serving, ConfOk, Stands, AllCarried, Daemon.RequestOk, ActsOf, SameNodes;
      ActsAllocated(devices);
      AllCarriedSame(Stands(devices));
      SameNodesSelf(this);
      ServingClients(this, []);
      var k := FindClient(id);
      if k < |clients| {
        ghost var cs, client := clients, clients[k];
        assert forall i :: 0 <= i < |cs| && i != k ==> cs[i] != client && cs[i].id != id;
        HandleInput(k, requests, eof);
        assert forall i :: 0 <= i < |cs| && i != k ==> cs[i].lines == old(cs[i].lines);
      }
    }

    /** The client of that identifier leaves. */
    method Leave(id: nat)
      requires Serving([]) && Open()
      modifies this`clients, lists`refcount
      ensures Serving([]) && Open() && forall c :: c in clients ==> c in old(clients)
      ensures Heard(old(Lines(clients)), Lines(clients), Hangup(id))
    {
      hide Serving, ActsOf;
      ActsAllocated(devices);
      var k := FindClient(id);
      if k < |clients| {
        DestroyClient(k);
      }
    }

    /** One turn of the main loop's work; an event for a client that is not there is none. */
    method Step(ev: Event)
      requires Serving([]) && Open() && ConfOk() && EventOk(ev)
      modifies this`clients, this`nextId, this`lists, clients, lists, devices, ActsOf(devices)
      modifies nodes`hr, (set i | 0 <= i < |aliases| :: aliases[i].hl)
      ensures Serving([]) && Open() && ConfOk()
      ensures forall l :: l in lists ==> l in old(lists) || fresh(l)
      ensures forall i :: 0 <= i < |clients| ==> clients[i] in old(clients) || fresh(clients[i])
      ensures Heard(old(Lines(clients)), Lines(clients), ev)
      ensures forall a :: a in ActsOf(devices) ==> a in old(ActsOf(devices)) || fresh(a)
      ensures AllCarried(old(Stands(devices)), Stands(devices)) && SameNodes(old(nodes.hr), nodes.hr)
    {
      hide Serving, ConfOk, Stands, AllCarried, Daemon.RequestOk, ActsOf, SameNodes, AllIdle, Heard, Lines;
      ActsAllocated(devices);
      AllCarriedSame(Stands(devices));
      SameNodesSelf(this);
      match ev {
        case Connect =>
          var _ := Accept();
        case Input(id, requests, eof) =>
          TakeInput(id, requests, eof);
        case Hangup(id) =>
          Leave(id);
        case Poll(raw) =>
          Poll(raw);
      }
    }

    /** The devices' part of a turn, with what poll reports for those that have a descriptor. */
    method Poll(raw: seq<Option<Flags>>)
      requires Serving([]) && Open()
      modifies devices, ActsOf(devices), lists, clients`cmd, clients`out
      ensures Serving([]) && AllCarried(old(Stands(devices)), Stands(devices)) && AllIdle(devices)
      ensures forall a :: a in ActsOf(devices) ==> a in old(ActsOf(devices)) || fresh(a)
      ensures Heard(old(Lines(clients)), Lines(clients), Event.Poll(raw))
    {
      hide Serving, Stands, AllCarried, ActsOf, AllIdle;
      ActsAllocated(devices);
      var flags := seq(|devices|, i requires 0 <= i < |devices| reads devices =>
        if i < |raw| && devices[i].connectState != NotConnected then raw[i] else None);
      PostPoll(flags);
    }

    /** Any run of the daemon: whatever clients send, devices answer and clocks show, the books
        stay in order, every callback finds its client waiting, and every line that a client
        has sent since it came is counted, and so has its answer or has been put off. All
        actions go on from where they were, do what their scripts say, and stay queued until
        they end. `since` says after how many events a client came. */
    method Run(events: seq<Event>) returns (ghost since: map<Client, nat>)
      requires Serving([]) && Open() && ConfOk() && forall i :: 0 <= i < |events| ==> EventOk(events[i])
      modifies this`clients, this`nextId, this`lists, clients, lists, devices, ActsOf(devices)
      modifies nodes`hr, (set i | 0 <= i < |aliases| :: aliases[i].hl)
      ensures Serving([]) && Open() && ConfOk() && forall i :: 0 <= i < |clients| ==> clients[i].Answered()
      ensures Tallied(old(Lines(clients)), Lines(clients), since, events)
      ensures AllCarried(old(Stands(devices)), Stands(devices)) && SameNodes(old(nodes.hr), nodes.hr)
      ensures forall i :: 0 <= i < |devices| ==> Refined(devices[i])
    {
      hide Serving, ConfOk, ActsOf, Stands, AllCarried, Daemon.EventOk, Refined, Client.Answered, Tallied, Heard, Since, SameNodes;
      ghost var stands, was := Stands(devices), Lines(clients);
      AllCarriedSame(stands);
      SameNodesSelf(this);
      since := map[];
      TalliedNone(was);
      assert events[..0] == [];
      for i := 0 to |events|
        invariant Serving([]) && Open() && ConfOk() && AllCarried(stands, Stands(devices)) && SameNodes(old(nodes.hr), nodes.hr)
        invariant forall l :: l in lists ==> l in old(lists) || fresh(l)
        invariant forall j :: 0 <= j < |clients| ==> clients[j] in was || fresh(clients[j])
        invariant forall a :: a in ActsOf(devices) ==> a in old(ActsOf(devices)) || fresh(a)
        invariant Tallied(was, Lines(clients), since, events[..i])
      {
        ghost var before, mid, hr := Stands(devices), Lines(clients), nodes.hr;
        Step(events[i]);
        SameNodesTrans(old(nodes.hr), hr, nodes.hr);
        AllCarriedTrans(stands, before, Stands(devices));
        ghost var now := Lines(clients);
        TalliedMore(was, mid, now, since, events, i);
        since := Since(was, mid, now, since, i + 1);
      }
      assert events[..|events|] == events;
      ServingEnd(this);
    }
  }

  lemma AfterNobody(es: seq<Entry>, x: Completion)
    requires forall i :: 0 <= i < |es| ==> es[i].id != x.clientId
    ensures EntriesAfter(es, x) == es
  {
  }

  lemma AfterSomebody(es: seq<Entry>, k: nat, x: Completion)
    requires k < |es| && es[k].id == x.clientId
    requires forall i, j :: 0 <= i < j < |es| ==> es[i].id != es[j].id
    ensures es[k].cmd.Some? ==> EntriesAfter(es, x) == es[k := EntryAfter(es[k], x.err)]
  {
  }

  lemma BalancedIds(es: seq<Entry>, qs: seq<seq<Action>>, due: seq<Completion>)
    requires Balanced(es, qs, due)
    ensures forall i, j :: 0 <= i < j < |es| ==> es[i].id != es[j].id
  {
  }

  lemma NoneAheadPoll(qs: seq<seq<Action>>, qs': seq<seq<Action>>, done: seq<Completion>, next: nat)
    requires NoneAhead(qs, [], next) && forall id :: OwedAll(qs', id) + CallsTo(done, id) == OwedAll(qs, id)
    ensures NoneAhead(qs', done, next)
  {
    hide OwedAll, CallsTo;
    forall id | id >= next
      ensures OwedAll(qs', id) + CallsTo(done, id) == 0
    {
      assert OwedAll(qs, id) + CallsTo([], id) == 0;
    }
  }

  lemma ConfNodes(d: Daemon)
    requires d.ConfOk()
    ensures HostLists.AllValid(d.nodes.hr)
  {
  }

  lemma SameNodesSelf(d: Daemon)
    requires d.ConfOk()
    ensures SameNodes(d.nodes.hr, d.nodes.hr)
  {
  }

  lemma ServingParts(d: Daemon, due: seq<Completion>, i: nat)
    requires d.Serving(due) && i < |d.devices|
    ensures Lists(d.devices[i].acts) <= d.lists
    ensures forall k :: 0 <= k < |d.devices[i].acts| ==> d.devices[i].acts[k] in ActsOf(d.devices)
    ensures forall j :: 0 <= j < |d.devices| && j != i ==> d.devices[j] != d.devices[i]
  {
    hide RefsAll, Holders, Balanced, Client.Answered, Device.Core, NoneAhead, EntriesOk;
    ListsParts(Entries(d.clients), Queues(d.devices), d.lists);
    FleetAt(d.devices, i);
  }

  /** The books with a new client, whom nobody owes anything yet. */
  lemma BooksAccept(es: seq<Entry>, qs: seq<seq<Action>>, next: nat, lists: set<ArgList>)
    requires Books(es, qs, [], next, lists)
    ensures Books(es + [Entry(next, None)], qs, [], next + 1, lists)
  {
    hide OwedAll, CallsTo, RefsAll, Lists;
    var es' := es + [Entry(next, None)];
    assert OwedAll(qs, next) + CallsTo([], next) == 0;
    forall i | 0 <= i < |es'|
      ensures Waits(es'[i], OwedAll(qs, es'[i].id) + CallsTo([], es'[i].id))
    {
      if i < |es| { assert Waits(es[i], OwedAll(qs, es[i].id) + CallsTo([], es[i].id)); }
    }
    forall l | l in lists
      ensures Holders(es', l) == Holders(es, l)
    {
      HoldersConcat(es, [Entry(next, None)], l);
      NoHolders([Entry(next, None)], l);
    }
    assert Base(es', lists) == Base(es, lists);
  }

  lemma BalancedWithout(es: seq<Entry>, k: nat, qs: seq<seq<Action>>)
    requires Balanced(es, qs, []) && k < |es|
    ensures Balanced(es[..k] + es[k + 1..], qs, [])
  {
    hide OwedAll, CallsTo, Waits;
    var es' := es[..k] + es[k + 1..];
    assert forall i :: 0 <= i < |es'| ==> es'[i] == es[if i < k then i else i + 1];
  }

  lemma ListsWithout(es: seq<Entry>, k: nat, qs: seq<seq<Action>>, lists: set<ArgList>)
    requires k < |es| && forall i :: 0 <= i < |qs| ==> Lists(qs[i]) <= lists
    requires forall i :: 0 <= i < |es| && es[i].cmd.Some? ==> es[i].cmd.value.arglist in lists
    requires forall l :: l in lists ==>
      l.refcount == RefsAll(qs, l) + Holders(es, l) - (if es[k].cmd.Some? && es[k].cmd.value.arglist == l then 1 else 0)
    ensures ListsOk(es[..k] + es[k + 1..], qs, lists)
  {
    hide RefsAll, Holders, Lists, ListsOk;
    var es' := es[..k] + es[k + 1..];
    forall i | 0 <= i < |es'|
      ensures es'[i] == es[if i < k then i else i + 1]
    {
    }
    forall l | l in lists
      ensures l.refcount == Holders(es', l) + RefsAll(qs, l)
    {
      HoldersWithout(es, k, l);
    }
    ListsAre(es', qs, lists);
  }

  // ---- Commands

  /** The hosts of some names: plain names first, then the expansions of aliases. */
  ghost function Expanded(t: seq<Conf.Entry>, ns: seq<string>): seq<string> {
    Conf.Plain(t, ns) + Conf.Expansions(t, ns)
  }

  /** The hosts that a command speaks of: all nodes, or what its argument names. */
  ghost function Hosts(t: seq<Conf.Entry>, nodes: seq<Range>, arg: Option<string>): seq<string> {
    if arg.None? then (if HostLists.AllValid(nodes) then HostLists.ListNames(nodes) else [])
    else if HostText.Parse(arg.value).Ok? then Expanded(t, HostText.Parse(arg.value).value)
    else []
  }

  lemma HostsAre(t: seq<Conf.Entry>, nodes: seq<Range>, arg: Option<string>, names: seq<string>)
    requires HostLists.AllValid(nodes) && (arg.None? ==> names == HostLists.ListNames(nodes))
    requires arg.Some? ==> HostText.Parse(arg.value).Ok? && names == Expanded(t, HostText.Parse(arg.value).value)
    ensures Hosts(t, nodes, arg) == names
  {
    hide Expanded, HostText.Parse;
  }

  lemma ExpandedIs(t: seq<Conf.Entry>, ns: seq<string>)
    ensures Expanded(t, ns) == Conf.Plain(t, ns) + Conf.Expansions(t, ns)
  {
  }

  /** The loop of `_hostlist_create_validated` over the hosts; the ones that are not configured
      are collected for the message. */
  method Validate(hl: HostLists.HostList, nodes: HostLists.HostList) returns (valid: bool)
    requires hl.Valid() && nodes.Valid() && hl != nodes
    modifies nodes`hr
    ensures nodes.Valid() && nodes.Names() == old(nodes.Names()) && HostLists.SameList(old(nodes.hr), nodes.hr)
    ensures valid ==> forall n :: n in hl.Names() ==> n in nodes.Names()
    ensures (forall n :: n in hl.Names() ==> HostLists.Findable(old(nodes.hr), n)) ==> (valid <==> forall n :: n in hl.Names() ==> n in nodes.Names())
  {
    hide HostLists.ListNames, HostLists.AllValid, HostLists.HostIterator.Valid, HostLists.HostIterator.Passed, HostLists.Findable;
    ghost var names, was := hl.Names(), nodes.hr;
    var badhl := new HostLists.HostList();
    var itr := new HostLists.HostIterator(hl);
    valid := true;
    var host, ok := itr.Next();
    ghost var k := 0;
    while ok
      invariant itr.hl == hl && itr.Valid() && fresh(itr) && hl.Names() == names
      invariant badhl.Valid() && fresh(badhl) && nodes.Valid() && nodes.Names() == old(nodes.Names())
      invariant k <= |names| && itr.Passed() == if ok then k + 1 else k
      invariant if ok then k < |names| && host == names[k] else k == |names|
      invariant valid ==> forall j :: 0 <= j < k ==> names[j] in nodes.Names()
      invariant HostLists.SameList(was, nodes.hr)
      invariant (forall n :: n in names ==> HostLists.Findable(was, n)) ==> (valid <==> forall j :: 0 <= j < k ==> names[j] in nodes.Names())
      decreases |names| - k
    {
      HostLists.FindableSame(was, nodes.hr, host);
      var found := Conf.NodeExists(nodes, host);
      if !found {
        valid := false;
        badhl.PushHost(host);
      }
      k := k + 1;
      host, ok := itr.Next();
    }
  }

  lemma TargetedStill(devs: seq<Device>, was: seq<Range>, rs: seq<Range>)
    requires HostLists.AllValid(was) && HostLists.SameList(was, rs)
    ensures HostLists.AllValid(rs) && forall i :: 0 <= i < |devs| ==> Targeted(devs[i].plugs, rs) == Targeted(devs[i].plugs, was)
  {
    HostLists.SameListNames(was, rs);
    forall i | 0 <= i < |devs|
      ensures Targeted(devs[i].plugs, rs) == Targeted(devs[i].plugs, was)
    {
      TargetedSame(devs[i].plugs, was, rs);
    }
  }

  lemma {:induction false} RefsAllFresh(qs: seq<seq<Action>>, l: ArgList)
    requires forall i :: 0 <= i < |qs| ==> l !in Lists(qs[i])
    ensures RefsAll(qs, l) == 0
  {
    if |qs| > 0 {
      NoRefs(qs[0], l);
      RefsAllFresh(qs[1..], l);
    }
  }

  /** The accounts with a new list that a command is about to hold. */
  lemma AccountedNew(es: seq<Entry>, qs: seq<seq<Action>>, lists: set<ArgList>, arglist: ArgList)
    requires ListsOk(es, qs, lists) && arglist !in lists && arglist.refcount == 1
    ensures Accounted(qs, Base(es, lists)[arglist := 1])
    ensures forall i :: 0 <= i < |es| && es[i].cmd.Some? ==> es[i].cmd.value.arglist in lists
  {
    hide Lists, Holders;
    RefsAllFresh(qs, arglist);
  }

  /** The books but for a command that is to hold one of the lists. */
  ghost predicate Awaiting(es: seq<Entry>, qs: seq<seq<Action>>, lists: set<ArgList>, arglist: ArgList)
    reads lists
  {
    && (forall i :: 0 <= i < |qs| ==> Lists(qs[i]) <= lists)
    && (forall i :: 0 <= i < |es| && es[i].cmd.Some? ==> es[i].cmd.value.arglist in lists)
    && forall l :: l in lists ==> l.refcount == RefsAll(qs, l) + Holders(es, l) + (if l == arglist then 1 else 0)
  }

  lemma AwaitingAlive(es: seq<Entry>, qs: seq<seq<Action>>, lists: set<ArgList>, arglist: ArgList)
    requires Awaiting(es, qs, lists, arglist) && arglist in lists
    ensures arglist.refcount > 0
  {
  }

  lemma BaseNew(es: seq<Entry>, qs: seq<seq<Action>>, lists: set<ArgList>, arglist: ArgList)
    requires Accounted(qs, Base(es, lists)[arglist := 1]) && arglist !in lists
    requires forall i :: 0 <= i < |es| && es[i].cmd.Some? ==> es[i].cmd.value.arglist in lists
    ensures Awaiting(es, qs, lists + {arglist}, arglist)
  {
    hide Lists, Holders, RefsAll;
    NoHolders(es, arglist);
  }

  lemma ListsAre(es: seq<Entry>, qs: seq<seq<Action>>, lists: set<ArgList>)
    requires forall i :: 0 <= i < |qs| ==> Lists(qs[i]) <= lists
    requires forall i :: 0 <= i < |es| && es[i].cmd.Some? ==> es[i].cmd.value.arglist in lists
    requires forall l :: l in lists ==> l.refcount == RefsAll(qs, l) + Holders(es, l)
    ensures ListsOk(es, qs, lists)
  {
    hide Lists, Holders, RefsAll;
  }

  lemma NoneAheadStart(qs: seq<seq<Action>>, qs': seq<seq<Action>>, id: nat, total: nat, next: nat)
    requires NoneAhead(qs, [], next) && id < next
    requires forall i :: OwedAll(qs', i) == OwedAll(qs, i) + (if i == id then total else 0)
    ensures NoneAhead(qs', [], next)
  {
    hide OwedAll, CallsTo;
    forall i | i >= next
      ensures OwedAll(qs', i) + CallsTo([], i) == 0
    {
      assert OwedAll(qs, i) + CallsTo([], i) == 0;
    }
  }

  lemma BalancedSame(es: seq<Entry>, qs: seq<seq<Action>>, qs': seq<seq<Action>>)
    requires Balanced(es, qs, []) && forall i :: OwedAll(qs', i) == OwedAll(qs, i)
    ensures Balanced(es, qs', [])
  {
    hide OwedAll, CallsTo, Waits;
    forall i | 0 <= i < |es|
      ensures Waits(es[i], OwedAll(qs', es[i].id) + CallsTo([], es[i].id))
    {
      assert Waits(es[i], OwedAll(qs, es[i].id) + CallsTo([], es[i].id));
    }
  }

  lemma ClientsListed(clients: seq<Client>, lists: set<ArgList>)
    requires var es := Entries(clients); forall i :: 0 <= i < |es| && es[i].cmd.Some? ==> es[i].cmd.value.arglist in lists
    ensures forall c :: c in clients && c.cmd.Some? ==> c.cmd.value.arglist in lists
  {
    forall c | c in clients && c.cmd.Some?
      ensures c.cmd.value.arglist in lists
    {
      var i :| 0 <= i < |clients| && clients[i] == c;
      assert Entries(clients)[i].cmd == c.cmd;
    }
  }

  /** One error line, and the prompt unless the client is leaving. */
  ghost predicate Refusal(was: seq<Reply>, out: seq<Reply>, quit: bool) {
    exists code: nat :: 200 <= code < 300 && Answers(out) == Answers(was) + [Line(code)] + (if quit then [] else [Prompt])
  }

  lemma RefusalIs(was: seq<Reply>, out: seq<Reply>, quit: bool, code: nat)
    requires 200 <= code < 300 && Answers(out) == Answers(was) + [Line(code)] + (if quit then [] else [Prompt])
    ensures Refusal(was, out, quit)
  {
  }

  lemma ServingEnd(d: Daemon)
    requires d.Serving([]) && d.Open()
    ensures forall i :: 0 <= i < |d.clients| ==> d.clients[i].Answered()
    ensures forall i :: 0 <= i < |d.devices| ==> Refined(d.devices[i])
  {
    hide FleetOk, Books, Client.Answered, Refined;
    FleetRefined(d.devices);
  }

  lemma ServingClients(d: Daemon, due: seq<Completion>)
    requires d.Serving(due)
    ensures Distinct(d.clients) && forall i, j :: 0 <= i < j < |d.clients| ==> d.clients[i].id != d.clients[j].id
  {
    hide FleetOk, NoneAhead, EntriesOk, ListsOk, Client.Answered, Waits;
    var es := Entries(d.clients);
    assert forall i, j :: 0 <= i < j < |es| ==> es[i].id != es[j].id;
  }
}
