/** The linked list with live iterators that every insertion and deletion repairs.

    The address of a `next` pointer is modelled by the node that owns the pointer, and the
    address of the list's `head` by null. */
module LinkedLists {

  class Node<T> {
    var data: T
    var next: Node?<T>

    constructor (data: T, next: Node?<T>)
      ensures this.data == data && this.next == next
    {
      this.data, this.next := data, next;
    }
  }

  /** Where an iterator stands: `prev` addresses link k, and one node after it has been
      returned when `pending` holds. */
  datatype View = View(k: nat, pending: bool) {
    /** Index of the node that comes next. */
    function Upcoming(): nat {
      if pending then k + 1 else k
    }
  }

  class Cursor<T> {
    var pos: Node?<T>
    var prev: Node?<T>
    ghost var view: View
    /** The nodes returned since the last reset, and the one returned last. */
    ghost var seen: set<Node<T>>
    ghost var last: Node?<T>

    constructor (pos: Node?<T>)
      ensures this.pos == pos && prev == null && view == View(0, false) && seen == {} && last == null
    {
      this.pos, prev, view, seen, last := pos, null, View(0, false), {}, null;
    }
  }

  // ---- Positions in a sequence of nodes

  /** The node behind link k. */
  ghost function At<T>(nodes: seq<Node<T>>, k: nat): Node?<T> {
    if k < |nodes| then nodes[k] else null
  }

  /** The owner of link k. */
  ghost function Owner<T>(nodes: seq<Node<T>>, k: nat): Node?<T>
    requires k <= |nodes|
  {
    if k == 0 then null else nodes[k - 1]
  }

  ghost predicate Distinct<T>(nodes: seq<T>) {
    forall i, j :: 0 <= i < j < |nodes| ==> nodes[i] != nodes[j]
  }

  /** The assertion that ends every repair, with the promise that no node still to come has
      been returned before, and that a pending node is the one returned last. */
  ghost predicate CursorOk<T>(nodes: seq<Node<T>>, prev: Node?<T>, pos: Node?<T>, view: View, seen: set<Node<T>>, last: Node?<T>) {
    && view.Upcoming() <= |nodes|
    && prev == Owner(nodes, view.k) && pos == At(nodes, view.Upcoming())
    && (view.pending ==> nodes[view.k] == last)
    && forall i :: view.Upcoming() <= i < |nodes| ==> nodes[i] !in seen
  }

  lemma CursorIs<T>(nodes: seq<Node<T>>, prev: Node?<T>, pos: Node?<T>, view: View, seen: set<Node<T>>, last: Node?<T>)
    requires CursorOk(nodes, prev, pos, view, seen, last)
    ensures view.Upcoming() <= |nodes| && prev == Owner(nodes, view.k) && pos == At(nodes, view.Upcoming())
  {
  }

  /** The iterator moves on by a node, or stays at the end. */
  lemma CursorStep<T>(nodes: seq<Node<T>>, view: View, seen: set<Node<T>>, last: Node?<T>)
    requires Distinct(nodes) && view.Upcoming() <= |nodes|
    requires CursorOk(nodes, Owner(nodes, view.k), At(nodes, view.Upcoming()), view, seen, last)
    ensures var u := view.Upcoming();
      var p := At(nodes, u);
      if p != null then p !in seen && CursorOk(nodes, Owner(nodes, u), At(nodes, u + 1), View(u, true), seen + {p}, p)
      else u == |nodes| && CursorOk(nodes, Owner(nodes, u), null, View(u, false), seen, last)
    ensures view.pending ==> At(nodes, view.k) != At(nodes, view.Upcoming()) && At(nodes, view.k) == Owner(nodes, view.Upcoming())
  {
  }

  /** The view after an insertion at link `at`: a link at or behind it moves back by one. */
  function InsertView(v: View, at: nat): View {
    if v.k >= at then v.(k := v.k + 1) else v
  }

  /** The view after the node behind link `at` is deleted. A cursor that was to return the
      deleted node next forgets what it returned before. */
  function DestroyView(v: View, at: nat): View {
    if v.k > at then v.(k := v.k - 1)
    else if v.k == at || (v.k + 1 == at && v.pending) then View(at, false)
    else v
  }

  lemma InsertRepair<T>(was: seq<Node<T>>, p: Node<T>, k: nat, prev: Node?<T>, pos: Node?<T>, view: View,
                        seen: set<Node<T>>, last: Node?<T>)
    requires k <= |was| && Distinct(was) && p !in was && p !in seen && CursorOk(was, prev, pos, view, seen, last)
    ensures var now := was[..k] + [p] + was[k..];
      var prev' := if prev == Owner(was, k) then p else prev;
      var pos' := if prev != Owner(was, k) && pos == At(was, k) then p else pos;
      CursorOk(now, prev', pos', InsertView(view, k), seen, last)
  {
    var now := was[..k] + [p] + was[k..];
    assert forall i :: 0 <= i < |now| ==> now[i] == if i < k then was[i] else if i == k then p else was[i - 1];
  }

  lemma DestroyRepair<T>(was: seq<Node<T>>, k: nat, prev: Node?<T>, pos: Node?<T>, view: View,
                         seen: set<Node<T>>, last: Node?<T>)
    requires k < |was| && Distinct(was) && CursorOk(was, prev, pos, view, seen, last)
    ensures var now := was[..k] + was[k + 1..];
      var prev' := if pos == was[k] || prev == was[k] then Owner(was, k) else prev;
      var pos' := if pos == was[k] then At(was, k + 1) else pos;
      CursorOk(now, prev', pos', DestroyView(view, k), seen, last)
  {
    var now := was[..k] + was[k + 1..];
    assert forall i :: 0 <= i < |now| ==> now[i] == if i < k then was[i] else was[i + 1];
  }

  class List<T> {
    var head: Node?<T>
    var tail: Node?<T>
    var iters: seq<Cursor<T>>
    var count: int
    ghost var nodes: seq<Node<T>>

    /** The pointer that an address stands for. */
    function Deref(link: Node?<T>): Node?<T>
      reads this, link
    {
      if link == null then head else link.next
    }

    /** Links, `tail` and `count` agree with the sequence of nodes. */
    ghost predicate Linked()
      reads this, nodes
    {
      && Distinct(nodes)
      && head == At(nodes, 0) && (forall i :: 0 <= i < |nodes| ==> nodes[i].next == At(nodes, i + 1))
      && tail == Owner(nodes, |nodes|) && count == |nodes|
    }

    ghost predicate IterOk(it: Cursor<T>)
      reads this, it
    {
      CursorOk(nodes, it.prev, it.pos, it.view, it.seen, it.last)
    }

    ghost predicate Valid()
      reads this, nodes, iters
    {
      Linked() && Distinct(iters) && forall i :: 0 <= i < |iters| ==> IterOk(iters[i])
    }

    lemma DerefOwner(k: nat)
      requires Linked() && k <= |nodes|
      ensures Deref(Owner(nodes, k)) == At(nodes, k)
    {
    }

    lemma NextAt(k: nat)
      requires Linked()
      ensures var p := At(nodes, k); p != null ==> p.next == At(nodes, k + 1)
    {
    }

    lemma LinkedDistinct()
      requires Linked()
      ensures Distinct(nodes)
    {
    }

    /** `list_create` */
    constructor ()
      ensures Valid() && nodes == [] && iters == []
    {
      head, tail, count := null, null, 0;
      iters, nodes := [], [];
    }

    lemma LinkedAfterInsert(was: seq<Node<T>>, p: Node<T>, k: nat)
      requires Distinct(was) && k <= |was| && p !in was && nodes == was[..k] + [p] + was[k..]
      requires p.next == At(was, k) && head == (if k == 0 then p else At(was, 0))
      requires forall i :: 0 <= i < |was| ==> was[i].next == if i + 1 == k then p else At(was, i + 1)
      requires tail == (if k == |was| then p else Owner(was, |was|)) && count == |was| + 1
      ensures Linked()
    {
      forall i | 0 <= i < |nodes|
        ensures nodes[i].next == At(nodes, i + 1)
      {
        assert nodes[i] == if i < k then was[i] else if i == k then p else was[i - 1];
      }
    }

    lemma LinkedAfterRemoval(was: seq<Node<T>>, k: nat)
      requires Distinct(was) && k < |was| && nodes == was[..k] + was[k + 1..]
      requires head == (if k == 0 then At(was, 1) else At(was, 0))
      requires forall i :: 0 <= i < |was| && i != k ==> was[i].next == At(was, if i + 1 == k then k + 1 else i + 1)
      requires tail == (if k + 1 == |was| then Owner(was, k) else Owner(was, |was|)) && count == |was| - 1
      ensures Linked()
    {
      forall i | 0 <= i < |nodes|
        ensures nodes[i].next == At(nodes, i + 1)
      {
        assert nodes[i] == if i < k then was[i] else was[i + 1];
      }
    }

    /** The links of `list_node_create`. */
    method LinkIn(pp: Node?<T>, ghost k: nat, x: T) returns (p: Node<T>)
      requires Linked() && k <= |nodes| && pp == Owner(nodes, k)
      modifies this`head, this`tail, this`count, this`nodes, nodes`next
      ensures Linked() && fresh(p) && p.data == x && p.next == At(old(nodes), k)
      ensures nodes == old(nodes)[..k] + [p] + old(nodes)[k..]
    {
      DerefOwner(k);
      ghost var was := nodes;
      p := new Node(x, Deref(pp));
      if p.next == null {
        tail := p;
      }
      if pp == null {
        head := p;
      } else {
        pp.next := p;
      }
      count := count + 1;
      nodes := was[..k] + [p] + was[k..];
      LinkedAfterInsert(was, p, k);
    }

    /** The repair loop of `list_node_create`. */
    method RepairInserted(pp: Node?<T>, p: Node<T>, ghost k: nat, ghost was: seq<Node<T>>)
      requires Distinct(iters) && Distinct(was) && k <= |was| && pp == Owner(was, k)
      requires nodes == was[..k] + [p] + was[k..] && p !in was && p.next == At(was, k)
      requires forall i :: 0 <= i < |iters| ==>
        CursorOk(was, iters[i].prev, iters[i].pos, iters[i].view, iters[i].seen, iters[i].last) && p !in iters[i].seen
      modifies iters`pos, iters`prev, iters`view
      ensures forall i :: 0 <= i < |iters| ==> IterOk(iters[i]) && iters[i].view == InsertView(old(iters[i].view), k)
    {
      hide CursorOk, InsertView;
      for i := 0 to |iters|
        invariant forall j :: 0 <= j < i ==> IterOk(iters[j]) && iters[j].view == InsertView(old(iters[j].view), k)
        invariant forall j :: i <= j < |iters| ==> unchanged(iters[j])
      {
        var it := iters[i];
        InsertRepair(was, p, k, it.prev, it.pos, it.view, it.seen, it.last);
        if it.prev == pp {
          it.prev := p;
        } else if it.pos == p.next {
          it.pos := p;
        }
        it.view := InsertView(it.view, k);
      }
    }

    /** `list_node_create`: a new node behind link k, with every iterator repaired. */
    method NodeCreate(pp: Node?<T>, ghost k: nat, x: T) returns (p: Node<T>)
      requires Valid() && k <= |nodes| && pp == Owner(nodes, k)
      modifies this`head, this`tail, this`count, this`nodes, nodes`next, iters`pos, iters`prev, iters`view
      ensures Valid() && fresh(p) && p.data == x
      ensures nodes == old(nodes)[..k] + [p] + old(nodes)[k..]
      ensures forall i :: 0 <= i < |iters| ==> iters[i].view == InsertView(old(iters[i].view), k)
    {
      hide CursorOk, InsertView, Owner;
      ghost var was := nodes;
      p := LinkIn(pp, k, x);
      RepairInserted(pp, p, k, was);
    }

    /** The links of `list_node_destroy`. */
    method LinkOut(pp: Node?<T>, ghost k: nat) returns (p: Node<T>)
      requires Linked() && k < |nodes| && pp == Owner(nodes, k)
      modifies this`head, this`tail, this`count, this`nodes, nodes`next
      ensures Linked() && p == old(nodes)[k] && p.next == At(old(nodes), k + 1)
      ensures nodes == old(nodes)[..k] + old(nodes)[k + 1..]
    {
      DerefOwner(k);
      ghost var was := nodes;
      p := Deref(pp);
      if pp == null {
        head := p.next;
      } else {
        pp.next := p.next;
      }
      if p.next == null {
        tail := pp;
      }
      count := count - 1;
      nodes := was[..k] + was[k + 1..];
      LinkedAfterRemoval(was, k);
    }

    /** The repair loop of `list_node_destroy`. */
    method RepairDestroyed(pp: Node?<T>, p: Node<T>, ghost k: nat, ghost was: seq<Node<T>>)
      requires Distinct(iters) && Distinct(was) && k < |was| && pp == Owner(was, k)
      requires nodes == was[..k] + was[k + 1..] && p == was[k] && p.next == At(was, k + 1)
      requires forall i :: 0 <= i < |iters| ==>
        CursorOk(was, iters[i].prev, iters[i].pos, iters[i].view, iters[i].seen, iters[i].last)
      modifies iters`pos, iters`prev, iters`view
      ensures forall i :: 0 <= i < |iters| ==> IterOk(iters[i]) && iters[i].view == DestroyView(old(iters[i].view), k)
    {
      hide CursorOk, DestroyView;
      for i := 0 to |iters|
        invariant forall j :: 0 <= j < i ==> IterOk(iters[j]) && iters[j].view == DestroyView(old(iters[j].view), k)
        invariant forall j :: i <= j < |iters| ==> unchanged(iters[j])
      {
        var it := iters[i];
        DestroyRepair(was, k, it.prev, it.pos, it.view, it.seen, it.last);
        if it.pos == p {
          it.pos := p.next;
          it.prev := pp;
        } else if it.prev == p {
          it.prev := pp;
        }
        it.view := DestroyView(it.view, k);
      }
    }

    /** `list_node_destroy`: takes the node behind link k out, if there is one, with every
        iterator repaired. */
    method NodeDestroy(pp: Node?<T>, ghost k: nat) returns (p: Node?<T>)
      requires Valid() && k <= |nodes| && pp == Owner(nodes, k)
      modifies this`head, this`tail, this`count, this`nodes, nodes`next, iters`pos, iters`prev, iters`view
      ensures Valid() && p == At(old(nodes), k)
      ensures p == null ==> nodes == old(nodes)
      ensures p != null ==> nodes == old(nodes)[..k] + old(nodes)[k + 1..]
      ensures forall i :: 0 <= i < |iters| ==>
        iters[i].view == if p == null then old(iters[i].view) else DestroyView(old(iters[i].view), k)
    {
      hide CursorOk, DestroyView, Owner;
      DerefOwner(k);
      if Deref(pp) == null {
        return null;
      }
      ghost var was := nodes;
      var q := LinkOut(pp, k);
      RepairDestroyed(pp, q, k, was);
      p := q;
    }

    // ---- Ends of the list

    /** `list_append` and `list_enqueue` */
    method Append(x: T) returns (p: Node<T>)
      requires Valid()
      modifies this`head, this`tail, this`count, this`nodes, nodes`next, iters`pos, iters`prev, iters`view
      ensures Valid() && fresh(p) && p.data == x && nodes == old(nodes) + [p]
      ensures forall i :: 0 <= i < |iters| ==> iters[i].view == InsertView(old(iters[i].view), |old(nodes)|)
    {
      p := NodeCreate(tail, |nodes|, x);
    }

    /** `list_prepend` and `list_push` */
    method Prepend(x: T) returns (p: Node<T>)
      requires Valid()
      modifies this`head, this`tail, this`count, this`nodes, nodes`next, iters`pos, iters`prev, iters`view
      ensures Valid() && fresh(p) && p.data == x && nodes == [p] + old(nodes)
      ensures forall i :: 0 <= i < |iters| ==> iters[i].view == InsertView(old(iters[i].view), 0)
    {
      p := NodeCreate(null, 0, x);
    }

    /** `list_pop` and `list_dequeue` */
    method Pop() returns (p: Node?<T>)
      requires Valid()
      modifies this`head, this`tail, this`count, this`nodes, nodes`next, iters`pos, iters`prev, iters`view
      ensures Valid() && p == At(old(nodes), 0)
      ensures nodes == if |old(nodes)| > 0 then old(nodes)[1..] else []
      ensures forall i :: 0 <= i < |iters| ==>
        iters[i].view == if p == null then old(iters[i].view) else DestroyView(old(iters[i].view), 0)
    {
      p := NodeDestroy(null, 0);
    }

    /** `list_find_first`: the first node whose data matches. */
    method FindFirst(f: T -> bool) returns (p: Node?<T>)
      requires Valid()
      ensures p == null ==> forall i :: 0 <= i < |nodes| ==> !f(nodes[i].data)
      ensures p != null ==>
        exists k :: 0 <= k < |nodes| && p == nodes[k] && f(p.data) && forall i :: 0 <= i < k ==> !f(nodes[i].data)
    {
      p := head;
      ghost var k := 0;
      while p != null && !f(p.data)
        invariant 0 <= k <= |nodes| && p == At(nodes, k)
        invariant forall i :: 0 <= i < k ==> !f(nodes[i].data)
        decreases |nodes| - k
      {
        p := p.next;
        k := k + 1;
      }
    }

    /** `list_delete_all` on elements ds: deletes precisely the matching nodes and counts them. */
    method DeleteAll(f: T -> bool, ghost ds: seq<T>) returns (n: nat)
      requires Valid() && HasData(nodes, ds)
      modifies this`head, this`tail, this`count, this`nodes, nodes`next, iters`pos, iters`prev, iters`view
      ensures Valid() && nodes == Keep(old(nodes), ds, f) && n + |nodes| == |old(nodes)|
    {
      hide CursorOk, DestroyView, Linked, Keep, Owner, HasData, Keeping;
      ghost var was := nodes;
      n := 0;
      var pp: Node?<T> := null;
      ghost var k := 0;
      KeepStart(was, ds, f);
      FirstOwner(was);
      DerefOwner(0);
      while Deref(pp) != null
        invariant Valid() && 0 <= k <= |nodes| && pp == Owner(nodes, k) && n + |nodes| == |was|
        invariant Deref(pp) == At(nodes, k)
        invariant Keeping(was, ds, f, nodes, k, n) && HasData(was, ds)
        decreases |nodes| - k
      {
        KeepStep(was, ds, f, nodes, k, n);
        DataAt(was, ds, k + n);
        if f(Deref(pp).data) {
          KeepOwner(nodes, k);
          KeepingNodes(was, ds, f, nodes, k, n);
          var _ := NodeDestroy(pp, k);
          n := n + 1;
        } else {
          pp := Deref(pp);
          k := k + 1;
          NextOwner(nodes, k);
        }
        DerefOwner(k);
      }
      KeepEnd(was, ds, f, nodes, k, n);
    }

    // ---- Iterators

    /** `list_iterator_create` */
    method IteratorCreate() returns (it: Cursor<T>)
      requires Valid()
      modifies this`iters
      ensures Valid() && fresh(it) && iters == [it] + old(iters)
      ensures it.view == View(0, false) && it.seen == {}
    {
      it := new Cursor(head);
      iters := [it] + iters;
    }

    /** `list_iterator_reset` */
    method IteratorReset(it: Cursor<T>)
      requires Valid() && it in iters
      modifies it
      ensures Valid() && it.view == View(0, false) && it.seen == {}
    {
      it.pos, it.prev := head, null;
      it.view, it.seen, it.last := View(0, false), {}, null;
    }

    /** `list_iterator_destroy` */
    method IteratorDestroy(it: Cursor<T>)
      requires Valid() && it in iters
      modifies this`iters
      ensures Valid() && it !in iters && multiset(iters) == multiset(old(iters)) - multiset{it}
    {
      var i := 0;
      while iters[i] != it
        invariant 0 <= i < |iters| && it in iters[i..]
        decreases |iters| - i
      {
        i := i + 1;
      }
      TakeOut(iters, i);
      iters := iters[..i] + iters[i + 1..];
    }

    /** `list_next`: the upcoming node, which is in the list and has not been returned since
        the last reset, or nothing at the end. */
    method Next(it: Cursor<T>) returns (p: Node?<T>)
      requires Valid() && it in iters
      modifies it
      ensures Valid() && p == At(nodes, old(it.view).Upcoming())
      ensures p != null ==> p !in old(it.seen) && it.seen == old(it.seen) + {p} && it.last == p
      ensures p != null ==> it.view == View(old(it.view).Upcoming(), true)
      ensures p == null ==> it.view == View(|nodes|, false) && it.seen == old(it.seen)
    {
      hide List.Linked, Distinct, CursorOk, At, Owner;
      var k :| 0 <= k < |iters| && iters[k] == it;
      assert IterOk(iters[k]);
      p := MoveOn(it);
    }

    /** The assignments to the iterator. */
    method MoveOn(it: Cursor<T>) returns (p: Node?<T>)
      requires Linked() && IterOk(it)
      modifies it
      ensures IterOk(it) && p == At(nodes, old(it.view).Upcoming())
      ensures p != null ==> p !in old(it.seen) && it.seen == old(it.seen) + {p} && it.last == p
      ensures p != null ==> it.view == View(old(it.view).Upcoming(), true)
      ensures p == null ==> it.view == View(|nodes|, false) && it.seen == old(it.seen)
    {
      hide List.Linked, Distinct, CursorOk, At, Owner;
      LinkedDistinct();
      CursorIs(nodes, it.prev, it.pos, it.view, it.seen, it.last);
      CursorStep(nodes, it.view, it.seen, it.last);
      DerefOwner(it.view.k);
      NextAt(it.view.Upcoming());
      p := it.pos;
      if p != null {
        it.pos := p.next;
        it.seen := it.seen + {p};
        it.last := p;
      }
      if Deref(it.prev) != p {
        it.prev := Deref(it.prev);
      }
      it.view := View(it.view.Upcoming(), p != null);
    }

    /** `list_insert`: before the upcoming node, or before the node returned last. */
    method Insert(it: Cursor<T>, x: T) returns (p: Node<T>)
      requires Valid() && it in iters
      modifies this`head, this`tail, this`count, this`nodes, nodes`next, iters`pos, iters`prev, iters`view
      ensures Valid() && fresh(p) && p.data == x
      ensures var k := old(it.view.k); k <= |old(nodes)| && nodes == old(nodes)[..k] + [p] + old(nodes)[k..]
      ensures forall i :: 0 <= i < |iters| ==> iters[i].view == InsertView(old(iters[i].view), old(it.view.k))
    {
      var k :| 0 <= k < |iters| && iters[k] == it;
      assert IterOk(iters[k]);
      p := NodeCreate(it.prev, it.view.k, x);
    }

    /** `list_remove`: takes out the node this iterator returned last, and nothing else. It
        takes out nothing when that node is gone, when its successor was deleted since, or
        before the first node; in the list that remains the successor comes next. */
    method Remove(it: Cursor<T>) returns (p: Node?<T>)
      requires Valid() && it in iters
      modifies this`head, this`tail, this`count, this`nodes, nodes`next, iters`pos, iters`prev, iters`view
      ensures Valid() && (p != null <==> old(it.view.pending))
      ensures p == null ==> nodes == old(nodes) && it.view == old(it.view)
      ensures p != null ==> var k := old(it.view.k);
        && k < |old(nodes)| && p == old(nodes)[k] && p == old(it.last)
        && nodes == old(nodes)[..k] + old(nodes)[k + 1..]
        && it.view == View(k, false) && At(nodes, k) == At(old(nodes), k + 1)
        && forall i :: 0 <= i < |iters| ==> iters[i].view == DestroyView(old(iters[i].view), k)
    {
      var j :| 0 <= j < |iters| && iters[j] == it;
      assert IterOk(iters[j]);
      DerefOwner(it.view.k);
      if Deref(it.prev) != it.pos {
        p := NodeDestroy(it.prev, it.view.k);
        assert iters[j].view == DestroyView(old(iters[j].view), old(it.view.k));
      } else {
        p := null;
      }
    }
  }

  lemma TakeOut<U>(s: seq<U>, i: nat)
    requires i < |s| && Distinct(s)
    ensures var rest := s[..i] + s[i + 1..];
      Distinct(rest) && s[i] !in rest && multiset(rest) == multiset(s) - multiset{s[i]}
      && forall j :: 0 <= j < |rest| ==> rest[j] == s[if j < i then j else j + 1]
  {
    var rest := s[..i] + s[i + 1..];
    assert forall j :: 0 <= j < |rest| ==> rest[j] == s[if j < i then j else j + 1];
    TakeOutBag(s, i);
    TakeOutRest(s, rest, i);
  }

  lemma TakeOutBag<U>(s: seq<U>, i: nat)
    requires i < |s|
    ensures multiset(s[..i] + s[i + 1..]) == multiset(s) - multiset{s[i]}
  {
    assert s == s[..i] + [s[i]] + s[i + 1..];
  }

  lemma TakeOutRest<U>(s: seq<U>, rest: seq<U>, i: nat)
    requires i < |s| && Distinct(s) && |rest| == |s| - 1
    requires forall j :: 0 <= j < |rest| ==> rest[j] == s[if j < i then j else j + 1]
    ensures Distinct(rest) && s[i] !in rest
  {
    forall j, k | 0 <= j < k < |rest|
      ensures rest[j] != rest[k]
    {
      assert s[if j < i then j else j + 1] != s[if k < i then k else k + 1];
    }
    forall j | 0 <= j < |rest|
      ensures rest[j] != s[i]
    {
      assert s[if j < i then j else j + 1] != s[i];
    }
  }

  /** The nodes whose data does not match, in order. */
  ghost function Keep<T>(ns: seq<Node<T>>, ds: seq<T>, f: T -> bool): seq<Node<T>>
    requires |ns| == |ds|
  {
    if |ns| == 0 then [] else (if f(ds[0]) then [] else [ns[0]]) + Keep(ns[1..], ds[1..], f)
  }

  /** What the loop of `list_delete_all` keeps after k nodes kept and n deleted. */
  ghost predicate Keeping<T>(was: seq<Node<T>>, ds: seq<T>, f: T -> bool, nodes: seq<Node<T>>, k: nat, n: nat) {
    && |was| == |ds| && k <= |nodes| && k + n <= |was| && nodes == nodes[..k] + was[k + n..]
    && nodes[..k] + Keep(was[k + n..], ds[k + n..], f) == Keep(was, ds, f)
    && forall j :: 0 <= j < |nodes| ==> nodes[j] in was
  }

  lemma KeepStart<T>(was: seq<Node<T>>, ds: seq<T>, f: T -> bool)
    requires HasData(was, ds)
    ensures Keeping(was, ds, f, was, 0, 0)
  {
    assert was[0..] == was && ds[0..] == ds && was[..0] == [];
  }

  lemma KeepStep<T>(was: seq<Node<T>>, ds: seq<T>, f: T -> bool, nodes: seq<Node<T>>, k: nat, n: nat)
    requires Keeping(was, ds, f, nodes, k, n) && k < |nodes|
    ensures k + n < |was| == |ds| && nodes[k] == was[k + n]
    ensures f(ds[k + n]) ==> Keeping(was, ds, f, nodes[..k] + nodes[k + 1..], k, n + 1)
    ensures !f(ds[k + n]) ==> Keeping(was, ds, f, nodes, k + 1, n)
  {
    var i := k + n;
    assert nodes[k] == was[i..][0];
    assert was[i..][1..] == was[i + 1..] && ds[i..][1..] == ds[i + 1..];
    var rest := nodes[..k] + nodes[k + 1..];
    assert nodes[k + 1..] == was[i + 1..];
    assert rest[..k] == nodes[..k];
    assert nodes[..k + 1] == nodes[..k] + [nodes[k]];
    var more := Keep(was[i + 1..], ds[i + 1..], f);
    assert [] + more == more;
    assert nodes[..k] + ([nodes[k]] + more) == nodes[..k + 1] + more;
  }

  lemma KeepEnd<T>(was: seq<Node<T>>, ds: seq<T>, f: T -> bool, nodes: seq<Node<T>>, k: nat, n: nat)
    requires Keeping(was, ds, f, nodes, k, n) && k == |nodes|
    ensures nodes == Keep(was, ds, f)
  {
    assert |was[k + n..]| == 0;
    assert nodes[..k] == nodes;
  }

  ghost predicate HasData<T>(ns: seq<Node<T>>, ds: seq<T>)
    reads ns`data
  {
    |ns| == |ds| && forall i :: 0 <= i < |ns| ==> ns[i].data == ds[i]
  }

  lemma DataAt<T>(ns: seq<Node<T>>, ds: seq<T>, i: nat)
    requires HasData(ns, ds) && i < |ns|
    ensures |ds| == |ns| && ns[i].data == ds[i]
  {
  }

  lemma KeepingNodes<T>(was: seq<Node<T>>, ds: seq<T>, f: T -> bool, nodes: seq<Node<T>>, k: nat, n: nat)
    requires Keeping(was, ds, f, nodes, k, n)
    ensures forall j :: 0 <= j < |nodes| ==> nodes[j] in was
  {
  }

  lemma KeepOwner<T>(nodes: seq<Node<T>>, k: nat)
    requires k < |nodes|
    ensures Owner(nodes[..k] + nodes[k + 1..], k) == Owner(nodes, k)
  {
  }

  lemma FirstOwner<T>(nodes: seq<Node<T>>)
    ensures Owner(nodes, 0) == null
  {
  }

  lemma NextOwner<T>(nodes: seq<Node<T>>, k: nat)
    requires 0 < k <= |nodes|
    ensures Owner(nodes, k) == nodes[k - 1]
  {
  }
}
