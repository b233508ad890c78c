/** The results of a command, shared by the command and its actions and freed with its last
    holder. */
module ArgLists {
  import opened Scripts
  import opened HostLists

  datatype Arg = Arg(val: Option<string>, state: State)

  /** An unknown result for each of the names, and no other. */
  ghost predicate Blank(args: map<string, Arg>, names: seq<string>) {
    && (forall n :: n in args <==> n in names)
    && forall n :: n in args ==> args[n] == Arg(None, Unknown)
  }

  lemma BlankNone(names: seq<string>)
    ensures Blank(map[], names[..0])
  {
  }

  lemma BlankStep(args: map<string, Arg>, names: seq<string>, k: nat)
    requires k < |names| && Blank(args, names[..k])
    ensures Blank(if names[k] in args then args else args[names[k] := Arg(None, Unknown)], names[..k + 1])
  {
    assert names[..k + 1] == names[..k] + [names[k]];
  }

  /** The loop that enters the names. */
  method Fill(hl: HostList) returns (args: map<string, Arg>)
    requires hl.Valid()
    ensures Blank(args, hl.Names())
  {
    hide AllValid, ListNames, HostIterator.Valid, HostIterator.Passed, Blank;
    ghost var names := hl.Names();
    args := map[];
    BlankNone(names);
    var itr := new HostIterator(hl);
    var node, ok := itr.Next();
    ghost var k := 0;
    while ok
      invariant itr.hl == hl && itr.Valid() && fresh(itr) && hl.Names() == names
      invariant k <= |names| && itr.Passed() == if ok then k + 1 else k
      invariant if ok then k < |names| && node == names[k] else k == |names|
      invariant Blank(args, names[..k])
      decreases |names| - k
    {
      BlankStep(args, names, k);
      if node !in args {
        args := args[node := Arg(None, Unknown)];
      }
      k := k + 1;
      node, ok := itr.Next();
    }
    assert names[..k] == names;
  }

  class ArgList {
    var args: map<string, Arg>
    var refcount: int
    ghost const nodes: seq<string>

    /** `arglist_create`: one unknown result for each name of a host list, and one holder. */
    constructor (hl: HostList)
      requires hl.Valid()
      ensures fresh(this) && refcount == 1 && nodes == hl.Names()
      ensures Blank(args, hl.Names())
    {
      nodes := hl.Names();
      refcount := 1;
      new;
      args := Fill(hl);
    }

    /** `arglist_link` */
    method Link()
      requires refcount > 0
      modifies `refcount
      ensures refcount == old(refcount) + 1
    {
      refcount := refcount + 1;
    }

    /** `arglist_unlink`: a holder lets go; a count of zero means that the list is freed, so
        every use of a list requires a positive count. */
    method Unlink()
      requires refcount > 0
      modifies `refcount
      ensures refcount == old(refcount) - 1
    {
      refcount := refcount - 1;
    }

    /** `arglist_find` */
    function Find(node: Option<string>): (r: Option<Arg>)
      requires refcount > 0
      reads this
      ensures r.Some? <==> node.Some? && node.value in args
      ensures r.Some? ==> r.value == args[node.value]
    {
      if node.Some? && node.value in args then Some(args[node.value]) else None
    }

    /** The assignments of `_process_setplugstate` through a found argument. */
    method Set(node: string, arg: Arg)
      requires refcount > 0 && node in args
      modifies `args
      ensures args == old(args)[node := arg]
    {
      args := args[node := arg];
    }
  }
}
