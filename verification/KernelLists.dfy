/**
  The intrusive circular lists of the kernel: nodes with a previous and a next pointer, list heads that are
  nodes themselves, and the threads that a list holds, in order.
 */
module KernelLists {
  import opened Basics

  type Tid = int

  /** The lists a thread can be on: ready at a priority, sleeping, deleted, or waiting for an object. */
  datatype ListId = Ready(prio: int) | Sleeping | Deleted | Waiting(object: int)

  datatype Node = Head(id: ListId) | Of(thread: Tid)

  type Links = map<Node, Node>

  type Lists = map<ListId, seq<Tid>>

  /** Node i of the circle of a list: the head, then the threads. */
  function NodeAt(id: ListId, ts: seq<Tid>, i: nat): (r: Node)
    requires i <= |ts|
  {
    if i == 0 then Head(id) else Of(ts[i - 1])
  }

  function After(ts: seq<Tid>, i: nat): (r: nat)
    requires i <= |ts|
    ensures r <= |ts|
  {
    if i == |ts| then 0 else i + 1
  }

  function Before(ts: seq<Tid>, i: nat): (r: nat)
    requires i <= |ts|
    ensures r <= |ts|
  {
    if i == 0 then |ts| else i - 1
  }

  /** Node i is linked to its neighbours in the circle. */
  predicate LinkedAt(prev: Links, next: Links, id: ListId, ts: seq<Tid>, i: nat)
    requires i <= |ts|
  {
    var n := NodeAt(id, ts, i);
    && n in prev && n in next
    && next[n] == NodeAt(id, ts, After(ts, i)) && prev[n] == NodeAt(id, ts, Before(ts, i))
  }

  predicate Circle(prev: Links, next: Links, id: ListId, ts: seq<Tid>) {
    forall i :: 0 <= i <= |ts| ==> LinkedAt(prev, next, id, ts, i)
  }

  ghost predicate Linked(prev: Links, next: Links, lists: Lists) {
    forall id :: id in lists ==> Circle(prev, next, id, lists[id])
  }

  predicate Distinct(ts: seq<Tid>) {
    forall i, j :: 0 <= i < j < |ts| ==> ts[i] != ts[j]
  }

  predicate On(lists: Lists, id: ListId, t: Tid) {
    id in lists && t in lists[id]
  }

  /** No thread is on two lists, or twice on one. */
  ghost predicate Apart(lists: Lists) {
    && (forall id :: id in lists ==> Distinct(lists[id]))
    && (forall id, id', t :: On(lists, id, t) && On(lists, id', t) ==> id == id')
  }

  // ----- edits -----

  /** list_remove_node: the neighbours of a node are linked to each other. */
  function Unlink(prev: Links, next: Links, n: Node): (r: (Links, Links))
    requires n in prev && n in next
  {
    (prev[next[n] := prev[n]], next[prev[n] := next[n]])
  }

  /** list_insert_tail: a node is linked between the last node and the head. */
  function LinkTail(prev: Links, next: Links, id: ListId, n: Node): (r: (Links, Links))
    requires Head(id) in prev
  {
    var last := prev[Head(id)];
    (prev[Head(id) := n][n := last], next[n := Head(id)][last := n])
  }

  /** A circle keeps its links when nodes outside it are changed. */
  lemma CircleElsewhere(prev: Links, next: Links, prev': Links, next': Links, id: ListId, ts: seq<Tid>)
    requires Circle(prev, next, id, ts)
    requires forall i :: 0 <= i <= |ts| ==>
               var n := NodeAt(id, ts, i);
               (n in prev ==> n in prev' && prev'[n] == prev[n]) && (n in next ==> n in next' && next'[n] == next[n])
    ensures Circle(prev', next', id, ts)
  {
    forall i | 0 <= i <= |ts|
      ensures LinkedAt(prev', next', id, ts, i)
    {
      assert LinkedAt(prev, next, id, ts, i);
      var n := NodeAt(id, ts, i);
    }
  }

  lemma UnlinkCircle(prev: Links, next: Links, id: ListId, ts: seq<Tid>, k: nat)
    requires Circle(prev, next, id, ts) && Distinct(ts) && k < |ts|
    ensures Of(ts[k]) in prev && Of(ts[k]) in next
    ensures var (p, n) := Unlink(prev, next, Of(ts[k])); Circle(p, n, id, Without(ts, k))
  {
    assert LinkedAt(prev, next, id, ts, k + 1);
    var (p, n) := Unlink(prev, next, Of(ts[k]));
    var r := Without(ts, k);
    forall i | 0 <= i <= |r|
      ensures LinkedAt(p, n, id, r, i)
    {
      UnlinkAt(prev, next, id, ts, k, i);
    }
  }

  lemma UnlinkAt(prev: Links, next: Links, id: ListId, ts: seq<Tid>, k: nat, i: nat)
    requires Circle(prev, next, id, ts) && Distinct(ts) && k < |ts| && i < |ts|
    requires Of(ts[k]) in prev && Of(ts[k]) in next
    ensures var (p, n) := Unlink(prev, next, Of(ts[k])); LinkedAt(p, n, id, Without(ts, k), i)
  {
    hide Circle, Distinct, Without, NodeAt;
    var r, j := Without(ts, k), if i <= k then i else i + 1;
    CircleAt(prev, next, id, ts, j);
    RemovedNode(prev, next, id, ts, k);
    NodeWithout(id, ts, k, i);
    NodeWithout(id, ts, k, After(r, i));
    NodeWithout(id, ts, k, Before(r, i));
    NodesDiffer(id, ts, j, k);
    NodesDiffer(id, ts, j, After(ts, k + 1));
  }

  /** The neighbours of the thread at place k. */
  lemma RemovedNode(prev: Links, next: Links, id: ListId, ts: seq<Tid>, k: nat)
    requires Circle(prev, next, id, ts) && k < |ts| && Of(ts[k]) in prev && Of(ts[k]) in next
    ensures prev[Of(ts[k])] == NodeAt(id, ts, k) && next[Of(ts[k])] == NodeAt(id, ts, After(ts, k + 1))
  {
    assert LinkedAt(prev, next, id, ts, k + 1);
  }

  lemma NodeWithout(id: ListId, ts: seq<Tid>, k: nat, i: nat)
    requires k < |ts| && i < |ts|
    ensures NodeAt(id, Without(ts, k), i) == NodeAt(id, ts, if i <= k then i else i + 1)
  {
  }

  lemma CircleAt(prev: Links, next: Links, id: ListId, ts: seq<Tid>, i: nat)
    requires Circle(prev, next, id, ts) && i <= |ts|
    ensures LinkedAt(prev, next, id, ts, i)
  {
  }

  /** Different places of a circle are different nodes. */
  lemma NodesDiffer(id: ListId, ts: seq<Tid>, i: nat, j: nat)
    requires Distinct(ts) && i <= |ts| && j <= |ts|
    ensures i != j ==> NodeAt(id, ts, i) != NodeAt(id, ts, j)
  {
  }

  lemma LinkTailCircle(prev: Links, next: Links, id: ListId, ts: seq<Tid>, t: Tid)
    requires Circle(prev, next, id, ts) && Distinct(ts) && t !in ts
    ensures Head(id) in prev
    ensures var (p, n) := LinkTail(prev, next, id, Of(t)); Circle(p, n, id, ts + [t])
  {
    assert LinkedAt(prev, next, id, ts, 0);
    var (p, n) := LinkTail(prev, next, id, Of(t));
    var r := ts + [t];
    forall i | 0 <= i <= |r|
      ensures LinkedAt(p, n, id, r, i)
    {
      if i <= |ts| {
        assert LinkedAt(prev, next, id, ts, i);
        assert NodeAt(id, r, i) == NodeAt(id, ts, i);
        NodesDiffer(id, ts, i, 0);
        NodesDiffer(id, ts, i, |ts|);
      }
    }
  }

  // ----- all lists -----

  /** A list without a thread. */
  function Drop(ts: seq<Tid>, t: Tid): (r: seq<Tid>)
  {
    if ts == [] then [] else if ts[0] == t then ts[1..] else [ts[0]] + Drop(ts[1..], t)
  }

  lemma {:induction false} DropOther(ts: seq<Tid>, t: Tid, u: Tid)
    ensures t !in ts ==> Drop(ts, t) == ts
    ensures u != t ==> (u in Drop(ts, t) <==> u in ts)
    decreases |ts|
  {
    if ts != [] && ts[0] != t {
      DropOther(ts[1..], t, u);
      assert ts == [ts[0]] + ts[1..];
    }
  }

  lemma {:induction false} DropIs(ts: seq<Tid>, k: nat)
    requires Distinct(ts) && k < |ts|
    ensures Drop(ts, ts[k]) == Without(ts, k)
    decreases |ts|
  {
    hide Without, Distinct;
    WithoutTail(ts, k);
    if k > 0 {
      DistinctTail(ts, k);
      DropIs(ts[1..], k - 1);
    }
  }

  lemma WithoutTail(ts: seq<Tid>, k: nat)
    requires k < |ts|
    ensures Without(ts, 0) == ts[1..]
    ensures k > 0 ==> Without(ts, k) == [ts[0]] + Without(ts[1..], k - 1)
  {
  }

  lemma DistinctTail(ts: seq<Tid>, k: nat)
    requires Distinct(ts) && 0 < k < |ts|
    ensures Distinct(ts[1..]) && ts[1..][k - 1] == ts[k] != ts[0]
  {
  }

  lemma DropGone(ts: seq<Tid>, t: Tid)
    requires Distinct(ts)
    ensures Distinct(Drop(ts, t)) && t !in Drop(ts, t)
  {
    DropOther(ts, t, t);
    if t in ts {
      var k :| 0 <= k < |ts| && ts[k] == t;
      DropIs(ts, k);
    }
  }

  /** The lists when a thread was taken off the one it was on. */
  function Removed(lists: Lists, t: Tid): (r: Lists)
    ensures r.Keys == lists.Keys
  {
    map id | id in lists :: Drop(lists[id], t)
  }

  /** The lists when a thread was moved to the tail of one of them. */
  function Moved(lists: Lists, t: Tid, to: ListId): (r: Lists)
    requires to in lists
    ensures r.Keys == lists.Keys
  {
    var rest := Removed(lists, t);
    rest[to := rest[to] + [t]]
  }

  lemma RemovedApart(lists: Lists, t: Tid)
    requires Apart(lists)
    ensures Apart(Removed(lists, t)) && forall id :: !On(Removed(lists, t), id, t)
    ensures forall id, u :: u != t ==> (On(Removed(lists, t), id, u) <==> On(lists, id, u))
  {
    var r := Removed(lists, t);
    forall id | id in r
      ensures Distinct(r[id]) && t !in r[id]
    {
      DropGone(lists[id], t);
    }
    forall id, u | u != t
      ensures On(r, id, u) <==> On(lists, id, u)
    {
      if id in lists {
        DropOther(lists[id], t, u);
      }
    }
    forall id, id', u | On(r, id, u) && On(r, id', u)
      ensures id == id'
    {
      assert On(lists, id, u) && On(lists, id', u);
    }
  }

  lemma NotOn(lists: Lists, id: ListId, other: ListId, t: Tid)
    requires Apart(lists) && On(lists, id, t) && other in lists && other != id
    ensures t !in lists[other]
  {
    assert On(lists, other, t) ==> other == id;
  }

  /** Taking a thread off a list in the links and in the lists. */
  lemma UnlinkLinked(prev: Links, next: Links, lists: Lists, id: ListId, t: Tid)
    requires Linked(prev, next, lists) && Apart(lists) && On(lists, id, t)
    ensures Of(t) in prev && Of(t) in next
    ensures var (p, n) := Unlink(prev, next, Of(t)); Linked(p, n, Removed(lists, t))
  {
    var ts := lists[id];
    var k :| 0 <= k < |ts| && ts[k] == t;
    UnlinkCircle(prev, next, id, ts, k);
    DropIs(ts, k);
    var (p, n) := Unlink(prev, next, Of(t));
    forall other | other in lists
      ensures Circle(p, n, other, Removed(lists, t)[other])
    {
      if other != id {
        NotOn(lists, id, other, t);
        DropOther(lists[other], t, t);
        UnlinkElsewhere(prev, next, lists, id, k, other);
      }
    }
  }

  lemma UnlinkElsewhere(prev: Links, next: Links, lists: Lists, id: ListId, k: nat, other: ListId)
    requires Linked(prev, next, lists) && Apart(lists) && id in lists && k < |lists[id]| && other in lists && other != id
    requires Of(lists[id][k]) in prev && Of(lists[id][k]) in next
    ensures var (p, n) := Unlink(prev, next, Of(lists[id][k])); Circle(p, n, other, lists[other])
  {
    hide Apart, Circle;
    var (p, n) := Unlink(prev, next, Of(lists[id][k]));
    RemovedNode(prev, next, id, lists[id], k);
    OtherNodes(lists, id, other, k);
    OtherNodes(lists, id, other, After(lists[id], k + 1));
    CircleElsewhere(prev, next, p, n, other, lists[other]);
  }

  /** Nodes of different lists are different. */
  lemma OtherNodes(lists: Lists, id: ListId, other: ListId, i: nat)
    requires Apart(lists) && id in lists && other in lists && id != other && i <= |lists[id]|
    ensures forall j :: 0 <= j <= |lists[other]| ==> NodeAt(other, lists[other], j) != NodeAt(id, lists[id], i)
  {
    forall j | 0 <= j <= |lists[other]|
      ensures NodeAt(other, lists[other], j) != NodeAt(id, lists[id], i)
    {
      if i > 0 && j > 0 && lists[other][j - 1] == lists[id][i - 1] {
        assert On(lists, id, lists[id][i - 1]) && On(lists, other, lists[id][i - 1]);
      }
    }
  }

  /** Putting a thread that is on no list at the tail of one. */
  lemma LinkTailLinked(prev: Links, next: Links, lists: Lists, id: ListId, t: Tid)
    requires Linked(prev, next, lists) && Apart(lists) && id in lists && forall other :: !On(lists, other, t)
    ensures Head(id) in prev
    ensures var (p, n) := LinkTail(prev, next, id, Of(t)); Linked(p, n, lists[id := lists[id] + [t]])
    ensures Apart(lists[id := lists[id] + [t]])
  {
    var ts := lists[id];
    assert !On(lists, id, t);
    LinkTailCircle(prev, next, id, ts, t);
    assert LinkedAt(prev, next, id, ts, 0);
    var (p, n) := LinkTail(prev, next, id, Of(t));
    var more := lists[id := ts + [t]];
    forall other | other in more
      ensures Circle(p, n, other, more[other])
    {
      if other != id {
        assert !On(lists, other, t);
        OtherNodes(lists, id, other, 0);
        OtherNodes(lists, id, other, |ts|);
        CircleElsewhere(prev, next, p, n, other, lists[other]);
      }
    }
    TailApart(lists, id, t);
  }

  lemma TailApart(lists: Lists, id: ListId, t: Tid)
    requires Apart(lists) && id in lists && forall other :: !On(lists, other, t)
    ensures Apart(lists[id := lists[id] + [t]])
    ensures forall other, u :: On(lists[id := lists[id] + [t]], other, u) <==> On(lists, other, u) || (other == id && u == t)
  {
    var more := lists[id := lists[id] + [t]];
    assert !On(lists, id, t);
    forall a, b, u | On(more, a, u) && On(more, b, u)
      ensures a == b
    {
      if u != t {
        assert On(lists, a, u) && On(lists, b, u);
      } else {
        assert !On(lists, a, t) && !On(lists, b, t);
      }
    }
  }

  /** A head that is its own next node has an empty list. */
  lemma EmptyList(prev: Links, next: Links, lists: Lists, id: ListId)
    requires Linked(prev, next, lists) && id in lists
    ensures Head(id) in next && (next[Head(id)] == Head(id) <==> lists[id] == [])
    ensures lists[id] != [] ==> next[Head(id)] == Of(lists[id][0])
  {
    assert LinkedAt(prev, next, id, lists[id], 0);
  }
}
