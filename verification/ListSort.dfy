/** `list_sort`: an insertion sort that relinks the nodes in place. */
module ListSort {
  import opened LinkedLists

  ghost predicate TotalPreorder<T(!new)>(f: (T, T) -> int) {
    && (forall x, y :: f(x, y) < 0 <==> f(y, x) > 0)
    && (forall x, y, z :: f(x, y) <= 0 && f(y, z) <= 0 ==> f(x, z) <= 0)
  }

  /** The order a stable sort produces: by the comparison, then by the old position. */
  ghost predicate Before<T>(ds: seq<T>, f: (T, T) -> int, i: nat, j: nat)
    requires i < |ds| && j < |ds|
  {
    f(ds[i], ds[j]) < 0 || (f(ds[i], ds[j]) == 0 && i < j)
  }

  /** Old positions of the nodes in their present order: the first j sorted among
      themselves, the others where they were. */
  ghost predicate Progress<T>(ds: seq<T>, f: (T, T) -> int, idx: seq<nat>, j: nat) {
    && |idx| == |ds| && j <= |idx|
    && Distinct(idx)
    && (forall a :: 0 <= a < j ==> idx[a] < j)
    && (forall a :: j <= a < |idx| ==> idx[a] == a)
    && forall a, b :: 0 <= a < b < j ==> Before(ds, f, idx[a], idx[b])
  }

  /** Element j taken out and put in at q. */
  function Move<U>(s: seq<U>, q: nat, j: nat): seq<U>
    requires q <= j < |s|
  {
    s[..q] + [s[j]] + s[q..j] + s[j + 1..]
  }

  lemma MoveAt<U>(s: seq<U>, q: nat, j: nat)
    requires q <= j < |s|
    ensures |Move(s, q, j)| == |s|
    ensures forall a :: 0 <= a < |s| ==>
      Move(s, q, j)[a] == s[if a < q then a else if a == q then j else if a <= j then a - 1 else a]
    ensures Distinct(s) ==> Distinct(Move(s, q, j))
    ensures multiset(Move(s, q, j)) == multiset(s)
  {
    assert s == s[..q] + s[q..j] + [s[j]] + s[j + 1..];
  }

  lemma ProgressStart<T>(ds: seq<T>, f: (T, T) -> int, idx: seq<nat>)
    requires |ds| > 0 && |idx| == |ds| && forall a :: 0 <= a < |idx| ==> idx[a] == a
    ensures Progress(ds, f, idx, 1)
  {
  }

  /** The next element is not below the last sorted one: it stays. */
  lemma ProgressStay<T(!new)>(ds: seq<T>, f: (T, T) -> int, idx: seq<nat>, j: nat)
    requires TotalPreorder(f) && Progress(ds, f, idx, j) && 0 < j < |ds|
    requires f(ds[j], ds[idx[j - 1]]) >= 0
    ensures Progress(ds, f, idx, j + 1)
  {
    forall a | 0 <= a < j
      ensures Before(ds, f, idx[a], idx[j])
    {
      if a < j - 1 { assert Before(ds, f, idx[a], idx[j - 1]); }
    }
  }

  /** The next element goes before the first sorted one that it is below. */
  lemma ProgressMove<T(!new)>(ds: seq<T>, f: (T, T) -> int, idx: seq<nat>, j: nat, q: nat)
    requires TotalPreorder(f) && Progress(ds, f, idx, j) && q < j < |ds|
    requires f(ds[j], ds[idx[q]]) < 0 && forall a :: 0 <= a < q ==> f(ds[j], ds[idx[a]]) >= 0
    ensures Progress(ds, f, Move(idx, q, j), j + 1)
  {
    var idx' := Move(idx, q, j);
    MoveAt(idx, q, j);
    forall a, b | 0 <= a < b < j + 1
      ensures Before(ds, f, idx'[a], idx'[b])
    {
      if a == q {
        if b - 1 > q { assert Before(ds, f, idx[q], idx[b - 1]); }
      } else if b != q {
        assert Before(ds, f, idx[if a < q then a else a - 1], idx[if b < q then b else b - 1]);
      }
    }
  }

  /** Links without `tail`, which the sort sets at its end. */
  ghost predicate LinksOk<T>(l: List<T>)
    reads l, l.nodes
  {
    && Distinct(l.nodes) && l.head == At(l.nodes, 0) && l.count == |l.nodes|
    && forall i :: 0 <= i < |l.nodes| ==> l.nodes[i].next == At(l.nodes, i + 1)
  }

  ghost predicate HasOrder<T>(nodes: seq<Node<T>>, was: seq<Node<T>>, idx: seq<nat>) {
    |nodes| == |was| == |idx| && forall a :: 0 <= a < |idx| ==> idx[a] < |was| && nodes[a] == was[idx[a]]
  }

  /** Setting the pointer that an address stands for. */
  method Assign<T>(l: List<T>, link: Node?<T>, target: Node?<T>)
    modifies l`head, (if link == null then {} else {link})`next
    ensures link == null ==> l.head == target
    ensures link != null ==> link.next == target && l.head == old(l.head)
  {
    if link == null {
      l.head := target;
    } else {
      link.next := target;
    }
  }

  lemma LinkAfterMove<T>(nodes: seq<Node<T>>, was: seq<Node<T>>, q: nat, j: nat, i: nat)
    requires Distinct(was) && q < j < |was| && nodes == Move(was, q, j) && i < |was|
    ensures |nodes| == |was|
    ensures i < q ==> nodes[i] == was[i] && At(nodes, i + 1) == if i + 1 == q then was[j] else At(was, i + 1)
    ensures i == q ==> nodes[i] == was[j] && At(nodes, i + 1) == was[q]
    ensures q < i <= j ==> nodes[i] == was[i - 1] && At(nodes, i + 1) == if i == j then At(was, j + 1) else At(was, i)
    ensures i > j ==> nodes[i] == was[i] && At(nodes, i + 1) == At(was, i + 1)
  {
    hide Distinct;
    MoveAt(was, q, j);
  }

  lemma AtStart<T>(nodes: seq<Node<T>>)
    requires |nodes| > 0
    ensures At(nodes, 0) == nodes[0]
  {
  }

  lemma LinksAfterMove<T>(l: List<T>, was: seq<Node<T>>, q: nat, j: nat)
    requires Distinct(was) && q < j < |was| && l.nodes == Move(was, q, j) && l.count == |was|
    requires l.head == was[if q == 0 then j else 0]
    requires was[j].next == was[q]
    requires forall i :: 0 <= i < |was| && i != j ==>
      was[i].next == if i + 1 == q then was[j] else if i + 1 == j then At(was, j + 1) else At(was, i + 1)
    ensures LinksOk(l)
  {
    hide Distinct, Move, At;
    MoveAt(was, q, j);
    AtStart(l.nodes);
    forall i | 0 <= i < |was|
      ensures l.nodes[i].next == At(l.nodes, i + 1)
    {
      LinkAfterMove(l.nodes, was, q, j, i);
    }
  }

  lemma NotElsewhere<U>(s: seq<U>, k: nat)
    requires Distinct(s) && k < |s|
    ensures forall i :: 0 <= i < |s| && i != k ==> s[i] != s[k]
  {
  }

  lemma AtIs<T>(nodes: seq<Node<T>>, k: nat)
    requires k < |nodes|
    ensures At(nodes, k) == nodes[k]
  {
  }

  ghost predicate Owned<T>(nodes: seq<Node<T>>, own: set<Node<T>>) {
    forall i :: 0 <= i < |nodes| ==> nodes[i] in own
  }

  /** The assignments that move the node behind link j to link q. */
  method Relink<T>(l: List<T>, ppPos: Node?<T>, pp: Node<T>, ghost own: set<Node<T>>, ghost q: nat, ghost j: nat)
    requires Owned(l.nodes, own) && LinksOk(l) && q < j < |l.nodes| && ppPos == Owner(l.nodes, q) && pp == l.nodes[j - 1]
    modifies l`head, l`nodes, own`next
    ensures LinksOk(l) && l.nodes == Move(old(l.nodes), q, j)
  {
    hide Move, Distinct, At;
    ghost var was := l.nodes;
    NotElsewhere(was, j - 1);
    NotElsewhere(was, j);
    if q > 0 { NotElsewhere(was, q - 1); }
    AtIs(was, 0);
    AtIs(was, q);
    AtIs(was, j);
    var x := pp.next;
    var pTmp := x.next;
    x.next := l.Deref(ppPos);
    Assign(l, ppPos, x);
    pp.next := pTmp;
    l.nodes := Move(was, q, j);
    LinksAfterMove(l, was, q, j);
  }

  /** The inner loop: the first sorted node that the next element is below. */
  method FindPlace<T(!new)>(l: List<T>, f: (T, T) -> int, x: T, ghost was: seq<Node<T>>, ghost ds: seq<T>, ghost idx: seq<nat>, ghost j: nat)
    returns (ppPos: Node?<T>, ghost q: nat)
    requires LinksOk(l) && HasData(was, ds) && HasOrder(l.nodes, was, idx) && Progress(ds, f, idx, j)
    requires 0 < j < |ds| && f(x, ds[idx[j - 1]]) < 0
    ensures q < j && ppPos == Owner(l.nodes, q) && f(x, ds[idx[q]]) < 0
    ensures forall a :: 0 <= a < q ==> f(x, ds[idx[a]]) >= 0
  {
    ppPos, q := null, 0;
    while f(x, l.Deref(ppPos).data) >= 0
      invariant q < j && ppPos == Owner(l.nodes, q) && l.Deref(ppPos) == l.nodes[q]
      invariant forall a :: 0 <= a < q ==> f(x, ds[idx[a]]) >= 0
      decreases j - q
    {
      assert l.nodes[q].data == ds[idx[q]];
      ppPos := l.Deref(ppPos);
      q := q + 1;
    }
    assert l.nodes[q].data == ds[idx[q]];
  }

  lemma MoveOrder<T>(nodes: seq<Node<T>>, was: seq<Node<T>>, idx: seq<nat>, q: nat, j: nat)
    requires HasOrder(nodes, was, idx) && q < j < |idx|
    ensures HasOrder(Move(nodes, q, j), was, Move(idx, q, j))
  {
    MoveAt(nodes, q, j);
    MoveAt(idx, q, j);
  }

  /** What the outer loop keeps: j nodes sorted, pp the last of them, ppPrev the link to it. */
  ghost predicate Sorting<T>(l: List<T>, pp: Node<T>, ppPrev: Node?<T>, was: seq<Node<T>>, ds: seq<T>,
                             f: (T, T) -> int, idx: seq<nat>, j: nat)
    reads l, l.nodes, was`data
  {
    && LinksOk(l) && HasData(was, ds) && HasOrder(l.nodes, was, idx) && Progress(ds, f, idx, j)
    && 1 <= j <= |was| == |l.nodes| && multiset(l.nodes) == multiset(was)
    && pp == l.nodes[j - 1] && ppPrev == Owner(l.nodes, j - 1)
  }

  /** The next element goes back to its place among the sorted ones. */
  method MoveBack<T(!new)>(l: List<T>, f: (T, T) -> int, pp: Node<T>, ppPrev: Node?<T>, ghost own: set<Node<T>>,
                           ghost was: seq<Node<T>>, ghost ds: seq<T>, ghost idx: seq<nat>, ghost j: nat)
    returns (ppPrev': Node?<T>, ghost q: nat)
    requires LinksOk(l) && HasData(was, ds) && HasOrder(l.nodes, was, idx) && Progress(ds, f, idx, j)
    requires Owned(l.nodes, own) && 0 < j < |l.nodes| && pp == l.nodes[j - 1] && ppPrev == Owner(l.nodes, j - 1)
    requires |ds| == |idx| == |l.nodes| && forall a :: 0 <= a < |idx| ==> idx[a] < |ds|
    requires pp.next != null && pp.next.data == ds[j] && f(ds[j], ds[idx[j - 1]]) < 0
    modifies l`head, l`nodes, own`next
    ensures LinksOk(l) && q < j && l.nodes == Move(old(l.nodes), q, j)
    ensures f(ds[j], ds[idx[q]]) < 0 && forall a :: 0 <= a < q ==> f(ds[j], ds[idx[a]]) >= 0
    ensures ppPrev' == if q == j - 1 then old(l.nodes)[j] else ppPrev
  {
    hide Progress, Move, HasOrder, HasData, Distinct;
    ghost var nodes := l.nodes;
    var ppPos;
    ppPos, q := FindPlace(l, f, pp.next.data, was, ds, idx, j);
    Relink(l, ppPos, pp, own, q, j);
    OwnersDiffer(nodes, q, j - 1);
    MoveOwner(nodes, q, j);
    ppPrev' := ppPrev;
    if ppPrev == ppPos {
      ppPrev' := l.Deref(ppPrev);
    }
  }

  lemma MoveOwner<T>(nodes: seq<Node<T>>, q: nat, j: nat)
    requires q < j < |nodes|
    ensures |Move(nodes, q, j)| == |nodes| && Move(nodes, q, j)[q] == nodes[j] && Move(nodes, q, j)[j] == nodes[j - 1]
    ensures Owner(Move(nodes, q, j), q) == Owner(nodes, q)
    ensures Owner(Move(nodes, q, j), j) == if q == j - 1 then nodes[j] else Owner(nodes, j - 1)
  {
    MoveAt(nodes, q, j);
  }

  /** The body of the outer loop. */
  method SortStep<T(!new)>(l: List<T>, f: (T, T) -> int, pp: Node<T>, ppPrev: Node?<T>, ghost own: set<Node<T>>,
                           ghost was: seq<Node<T>>, ghost ds: seq<T>, ghost idx: seq<nat>, ghost j: nat)
    returns (pp': Node<T>, ppPrev': Node?<T>, ghost idx': seq<nat>)
    requires Sorting(l, pp, ppPrev, was, ds, f, idx, j) && j < |was| && TotalPreorder(f) && Owned(l.nodes, own)
    modifies l`head, l`nodes, own`next
    ensures Sorting(l, pp', ppPrev', was, ds, f, idx', j + 1) && Owned(l.nodes, own)
  {
    hide Progress, Move, HasOrder, HasData, TotalPreorder;
    OrderData(l.nodes, was, ds, idx, f, j);
    assert pp.next == l.nodes[j] && l.Deref(ppPrev) == l.nodes[j - 1];
    ghost var nodes := l.nodes;
    if f(pp.next.data, l.Deref(ppPrev).data) < 0 {
      ghost var q;
      ppPrev', q := MoveBack(l, f, pp, ppPrev, own, was, ds, idx, j);
      idx', pp' := Move(idx, q, j), pp;
      ProgressMove(ds, f, idx, j, q);
      MoveOrder(nodes, was, idx, q, j);
      MoveAt(nodes, q, j);
      MoveOwner(nodes, q, j);
    } else {
      ProgressStay(ds, f, idx, j);
      idx', ppPrev', pp' := idx, pp, pp.next;
    }
  }

  lemma OwnersDiffer<T>(nodes: seq<Node<T>>, q: nat, k: nat)
    requires Distinct(nodes) && q <= k <= |nodes|
    ensures Owner(nodes, q) == Owner(nodes, k) <==> q == k
  {
  }

  /** The outer loop. */
  method SortNodes<T(!new)>(l: List<T>, f: (T, T) -> int, ghost own: set<Node<T>>, ghost ds: seq<T>)
    returns (last: Node<T>, ghost idx: seq<nat>)
    requires l.Linked() && |l.nodes| > 1 && HasData(l.nodes, ds) && TotalPreorder(f) && Owned(l.nodes, own)
    modifies l`head, l`nodes, own`next
    ensures LinksOk(l) && last == Owner(l.nodes, |l.nodes|) && SortedOrder(l.nodes, old(l.nodes), ds, f, idx)
  {
    hide Progress, HasOrder, HasData, Sorting, Before, TotalPreorder, SortedOrder, Owned;
    ghost var was := l.nodes;
    idx := seq(|was|, i => i);
    var ppPrev: Node?<T> := null;
    ghost var j := 1;
    StartSorting(l, ds, f, idx);
    var pp: Node<T> := l.head;
    SortingMore(l, pp, ppPrev, was, ds, f, idx, j);
    while pp.next != null
      invariant 1 <= j <= |was| && Owned(l.nodes, own) && Sorting(l, pp, ppPrev, was, ds, f, idx, j)
      invariant pp.next != null <==> j < |was|
      decreases |was| - j
    {
      pp, ppPrev, idx := SortStep(l, f, pp, ppPrev, own, was, ds, idx, j);
      j := j + 1;
      SortingMore(l, pp, ppPrev, was, ds, f, idx, j);
    }
    SortingDone(l, pp, ppPrev, was, ds, f, idx, j);
    last := pp;
  }

  /** The nodes are a stable sorted permutation of `was`; idx gives the old position of each. */
  ghost predicate SortedOrder<T>(nodes: seq<Node<T>>, was: seq<Node<T>>, ds: seq<T>, f: (T, T) -> int, idx: seq<nat>) {
    && HasOrder(nodes, was, idx) && Distinct(idx) && |ds| == |was| && multiset(nodes) == multiset(was)
    && forall a, b :: 0 <= a < b < |idx| ==> Before(ds, f, idx[a], idx[b])
  }

  /** `list_sort` on elements ds: `tail` ends at the last link, every iterator at the head. */
  method Sort<T(!new)>(l: List<T>, f: (T, T) -> int, ghost ds: seq<T>) returns (ghost idx: seq<nat>)
    requires l.Valid() && HasData(l.nodes, ds) && TotalPreorder(f)
    modifies l`head, l`tail, l`nodes, (set n | n in l.nodes)`next, l.iters
    ensures l.Valid() && SortedOrder(l.nodes, old(l.nodes), ds, f, idx)
    ensures |l.nodes| > 1 ==> forall i :: 0 <= i < |l.iters| ==> l.iters[i].view == View(0, false) && l.iters[i].seen == {}
  {
    hide HasData, TotalPreorder, SortedOrder, Owned, Owner, At, CursorOk;
    ghost var was, own := l.nodes, set n | n in l.nodes;
    if l.count > 1 {
      var last;
      assert Owned(l.nodes, own) by { OwnedAll(l.nodes, own); }
      last, idx := SortNodes(l, f, own, ds);
      SortedSame(l.nodes, was, ds, f, idx);
      l.tail := last;
      ResetAll(l);
    } else {
      idx := seq(|was|, i => i);
      SortedFew(was, ds, f, idx);
    }
  }

  lemma OwnedAll<T>(nodes: seq<Node<T>>, own: set<Node<T>>)
    requires forall n :: n in nodes ==> n in own
    ensures Owned(nodes, own)
  {
  }

  lemma SortedSame<T>(nodes: seq<Node<T>>, was: seq<Node<T>>, ds: seq<T>, f: (T, T) -> int, idx: seq<nat>)
    requires SortedOrder(nodes, was, ds, f, idx)
    ensures |nodes| == |was|
  {
  }

  lemma SortedFew<T>(was: seq<Node<T>>, ds: seq<T>, f: (T, T) -> int, idx: seq<nat>)
    requires |was| <= 1 && HasData(was, ds) && |idx| == |was| && forall i :: 0 <= i < |idx| ==> idx[i] == i
    ensures SortedOrder(was, was, ds, f, idx)
  {
  }

  lemma StartSorting<T>(l: List<T>, ds: seq<T>, f: (T, T) -> int, idx: seq<nat>)
    requires l.Linked() && |l.nodes| > 1 && HasData(l.nodes, ds)
    requires |idx| == |l.nodes| && forall i :: 0 <= i < |idx| ==> idx[i] == i
    ensures l.head != null && Sorting(l, l.head, null, l.nodes, ds, f, idx, 1)
  {
    ProgressStart(ds, f, idx);
    StartOrder(l.nodes, idx);
  }

  lemma SortingMore<T>(l: List<T>, pp: Node<T>, ppPrev: Node?<T>, was: seq<Node<T>>, ds: seq<T>,
                       f: (T, T) -> int, idx: seq<nat>, j: nat)
    requires Sorting(l, pp, ppPrev, was, ds, f, idx, j)
    ensures 1 <= j <= |was| == |l.nodes| && (pp.next != null <==> j < |was|)
  {
  }

  lemma SortingDone<T>(l: List<T>, pp: Node<T>, ppPrev: Node?<T>, was: seq<Node<T>>, ds: seq<T>,
                       f: (T, T) -> int, idx: seq<nat>, j: nat)
    requires Sorting(l, pp, ppPrev, was, ds, f, idx, j) && j == |was|
    ensures LinksOk(l) && pp == Owner(l.nodes, |l.nodes|) && SortedOrder(l.nodes, was, ds, f, idx)
  {
    SortedAll(ds, f, idx, j);
  }

  lemma StartOrder<T>(was: seq<Node<T>>, idx: seq<nat>)
    requires |idx| == |was| && forall i :: 0 <= i < |idx| ==> idx[i] == i
    ensures HasOrder(was, was, idx) && Distinct(idx)
  {
  }

  lemma OrderData<T>(nodes: seq<Node<T>>, was: seq<Node<T>>, ds: seq<T>, idx: seq<nat>, f: (T, T) -> int, j: nat)
    requires HasData(was, ds) && HasOrder(nodes, was, idx) && Progress(ds, f, idx, j)
    ensures |nodes| == |idx| == |ds| && forall a :: 0 <= a < |idx| ==> idx[a] < |ds| && nodes[a].data == ds[idx[a]]
    ensures j < |idx| ==> idx[j] == j
  {
  }

  lemma SortedAll<T>(ds: seq<T>, f: (T, T) -> int, idx: seq<nat>, j: nat)
    requires Progress(ds, f, idx, j) && j == |ds|
    ensures |idx| == |ds| && Distinct(idx) && forall a :: 0 <= a < |idx| ==> idx[a] < |ds|
    ensures forall a, b :: 0 <= a < b < |idx| ==> Before(ds, f, idx[a], idx[b])
  {
  }

  /** Every iterator goes back to the head. */
  method ResetAll<T>(l: List<T>)
    requires l.Linked() && Distinct(l.iters)
    modifies l.iters
    ensures l.Valid()
    ensures forall i :: 0 <= i < |l.iters| ==> l.iters[i].view == View(0, false) && l.iters[i].seen == {}
  {
    for k := 0 to |l.iters|
      invariant l.Linked()
      invariant forall i :: 0 <= i < k ==>
        l.IterOk(l.iters[i]) && l.iters[i].view == View(0, false) && l.iters[i].seen == {}
    {
      var it := l.iters[k];
      it.pos, it.prev := l.head, null;
      it.view, it.seen, it.last := View(0, false), {}, null;
    }
  }
}
