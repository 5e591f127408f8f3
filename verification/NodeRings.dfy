/**
 The circular doubly linked lists that spokes and ready nodes are kept in. A ring is a head that is no node of its own,
 and the nodes after it in order; the pointer operations of the timer manager do to the rings what sequence operations
 do.
 */
module NodeRings {
  import opened Sequences

  class NodeLink {
    var prev: NodeLink?
    var next: NodeLink?

    constructor ()
      ensures prev == next == this
    {
      prev, next := this, this;
    }
  }

  /** What comes after the i-th of `n` in a circle. */
  function After(n: nat, i: nat): (j: nat)
    requires i < n
    ensures j < n
  {
    if i + 1 == n then 0 else i + 1
  }

  /** With these pointers each one of `c` is linked, both ways, to the one after it, and the last to the first. */
  ghost predicate Links(c: seq<NodeLink>, next: seq<NodeLink?>, prev: seq<NodeLink?>) {
    && |next| == |prev| == |c| > 0
    && (forall i :: 0 <= i < |c| - 1 ==> next[i] == c[i + 1])
    && (forall i :: 0 < i < |c| ==> prev[i] == c[i - 1])
    && next[|c| - 1] == c[0] && prev[0] == c[|c| - 1]
  }

  /** The pointers of `c` are these. */
  ghost predicate Pointers(c: seq<NodeLink>, next: seq<NodeLink?>, prev: seq<NodeLink?>)
    reads c
  {
    && |next| == |prev| == |c|
    && forall i :: 0 <= i < |c| ==> c[i].next == next[i] && c[i].prev == prev[i]
  }

  ghost predicate Circle(c: seq<NodeLink>)
    reads c
  {
    && |c| > 0 && NoneTwice(c)
    && (forall i :: 0 <= i < |c| - 1 ==> c[i].next == c[i + 1])
    && (forall i :: 0 < i < |c| ==> c[i].prev == c[i - 1])
    && c[|c| - 1].next == c[0] && c[0].prev == c[|c| - 1]
  }

  /** The ring at `head` holds `nodes`. */
  ghost predicate Ring(head: NodeLink, nodes: seq<NodeLink>)
    reads head, nodes
  {
    Circle([head] + nodes)
  }

  /** A head as constructed holds nothing. */
  lemma SelfLinkedEmpty(head: NodeLink)
    ensures Ring(head, []) <==> head.prev == head.next == head
  {
    assert [head] + [] == [head];
    assert [head][0] == head;
  }

  /** Walking on from a node, or from the head, meets the nodes in order and then the head; and so backwards. */
  lemma Walk(head: NodeLink, nodes: seq<NodeLink>, i: nat)
    requires Ring(head, nodes) && i <= |nodes|
    ensures var c := [head] + nodes; c[i].next == c[After(|c|, i)] && c[After(|c|, i)].prev == c[i]
  {
  }

  // ---------------------------------------------------------------- what relinking does

  lemma LinksSkip(c: seq<NodeLink>, next: seq<NodeLink?>, prev: seq<NodeLink?>, i: nat)
    requires Links(c, next, prev) && i + 1 < |c|
    ensures var j := After(|c|, i + 1);
            Links(Drop(c, i + 1), Drop(next[i := c[j]], i + 1), Drop(prev[j := c[i]], i + 1))
  {
  }

  lemma LinksMore(c: seq<NodeLink>, next: seq<NodeLink?>, prev: seq<NodeLink?>, node: NodeLink)
    requires Links(c, next, prev) && |c| > 0
    ensures Links(c + [node], next[|c| - 1 := node] + [c[0]], prev[0 := node] + [c[|c| - 1]])
  {
  }

  lemma PointersDrop(c: seq<NodeLink>, next: seq<NodeLink?>, prev: seq<NodeLink?>, k: nat)
    requires Pointers(c, next, prev) && k < |c|
    ensures Pointers(Drop(c, k), Drop(next, k), Drop(prev, k))
  {
  }

  ghost function Nexts(c: seq<NodeLink>): (r: seq<NodeLink?>)
    reads c
    ensures |r| == |c| && forall i :: 0 <= i < |c| ==> r[i] == c[i].next
  {
    if c == [] then [] else [c[0].next] + Nexts(c[1..])
  }

  ghost function Prevs(c: seq<NodeLink>): (r: seq<NodeLink?>)
    reads c
    ensures |r| == |c| && forall i :: 0 <= i < |c| ==> r[i] == c[i].prev
  {
    if c == [] then [] else [c[0].prev] + Prevs(c[1..])
  }

  lemma CirclePointers(c: seq<NodeLink>) returns (next: seq<NodeLink?>, prev: seq<NodeLink?>)
    requires Circle(c)
    ensures Pointers(c, next, prev) && Links(c, next, prev)
  {
    next, prev := Nexts(c), Prevs(c);
  }

  lemma CircleMade(c: seq<NodeLink>, next: seq<NodeLink?>, prev: seq<NodeLink?>)
    requires NoneTwice(c) && Pointers(c, next, prev) && Links(c, next, prev)
    ensures Circle(c)
  {
  }

  // ---------------------------------------------------------------- the operations

  /** Hangs a node in at the end. */
  method Append(head: NodeLink, node: NodeLink, ghost nodes: seq<NodeLink>)
    requires Ring(head, nodes) && node != head && node !in nodes
    modifies head, nodes, node
    ensures Ring(head, nodes + [node])
  {
    ghost var c := [head] + nodes;
    ghost var next, prev := CirclePointers(c);
    ghost var last := c[|nodes|];
    Walk(head, nodes, |nodes|);
    AppendOnce(head, node, nodes);
    LinksMore(c, next, prev, node);
    hide Circle, Links;
    Hang(head, node, last, c, next, prev);
    CircleMade(c + [node], next[|c| - 1 := node] + [head], prev[0 := node] + [last]);
  }

  lemma AppendOnce(head: NodeLink, node: NodeLink, nodes: seq<NodeLink>)
    requires NoneTwice([head] + nodes) && node != head && node !in nodes
    ensures [head] + (nodes + [node]) == [head] + nodes + [node] && NoneTwice([head] + nodes + [node])
    ensures node !in [head] + nodes
  {
  }

  /** Links a node in between the last of a circle and its head. */
  method Hang(head: NodeLink, node: NodeLink, ghost last: NodeLink, ghost c: seq<NodeLink>,
              ghost next: seq<NodeLink?>, ghost prev: seq<NodeLink?>)
    requires NoneTwice(c) && Pointers(c, next, prev) && |c| > 0 && c[0] == head && c[|c| - 1] == last && node !in c
    requires head.prev == last
    modifies head`prev, last`next, node
    ensures Pointers(c + [node], next[|c| - 1 := node] + [head], prev[0 := node] + [last])
  {
    node.prev := head.prev;
    head.prev.next := node;
    node.next := head;
    head.prev := node;
  }

  /** Joins the neighbours of a node. */
  method Relink(node: NodeLink, ghost before: NodeLink, ghost after: NodeLink, ghost c: seq<NodeLink>,
                ghost next: seq<NodeLink?>, ghost prev: seq<NodeLink?>, ghost i: nat, ghost j: nat)
    requires NoneTwice(c) && Pointers(c, next, prev) && i < |c| && j < |c| && c[i] == before && c[j] == after
    requires node.prev == before != node && node.next == after != node
    modifies before`next, after`prev
    ensures Pointers(c, next[i := after], prev[j := before])
  {
    node.prev.next := node.next;
    node.next.prev := node.prev;
  }

  /** Takes the i-th node out; its own pointers stay as they are. */
  method Detach(node: NodeLink, ghost head: NodeLink, ghost nodes: seq<NodeLink>, ghost i: nat)
    requires Ring(head, nodes) && i < |nodes| && nodes[i] == node
    modifies head, nodes
    ensures Ring(head, Drop(nodes, i))
    ensures node.next == old(node.next) && node.prev == old(node.prev)
  {
    ghost var c := [head] + nodes;
    ghost var next, prev := CirclePointers(c);
    ghost var j := After(|c|, i + 1);
    Walk(head, nodes, i);
    Walk(head, nodes, i + 1);
    RingDrop(head, nodes, i);
    LinksSkip(c, next, prev, i);
    assert c[i + 1] == node && c[i] != node && c[j] != node;
    hide Links, Circle, Drop;
    Relink(node, c[i], c[j], c, next, prev, i, j);
    PointersDrop(c, next[i := c[j]], prev[j := c[i]], i + 1);
    CircleMade(Drop(c, i + 1), Drop(next[i := c[j]], i + 1), Drop(prev[j := c[i]], i + 1));
  }

  lemma RingDrop(head: NodeLink, nodes: seq<NodeLink>, i: nat)
    requires i < |nodes| && NoneTwice([head] + nodes)
    ensures [head] + Drop(nodes, i) == Drop([head] + nodes, i + 1) && NoneTwice(Drop([head] + nodes, i + 1))
  {
  }

  /** Takes a node out of its ring for good. */
  method Remove(node: NodeLink, ghost head: NodeLink, ghost nodes: seq<NodeLink>, ghost i: nat)
    requires Ring(head, nodes) && i < |nodes| && nodes[i] == node
    modifies head, nodes
    ensures Ring(head, Drop(nodes, i)) && node.prev == node.next == null
  {
    hide Circle;
    assert node !in Drop(nodes, i) && node != head by { Left(head, nodes, i); }
    assert node.prev != null && node.next != null by {
      Walk(head, nodes, i);
      Walk(head, nodes, i + 1);
      Neighbour(head, nodes, i);
    }
    Detach(node, head, nodes, i);
    node.prev, node.next := null, null;
  }

  lemma Neighbour(head: NodeLink, nodes: seq<NodeLink>, i: nat)
    requires i < |nodes|
    ensures var c := [head] + nodes; c[i + 1] == nodes[i] && c[After(|c|, i)] == nodes[i]
  {
  }

  lemma Left(head: NodeLink, nodes: seq<NodeLink>, i: nat)
    requires Ring(head, nodes) && i < |nodes|
    ensures nodes[i] !in Drop(nodes, i) && nodes[i] != head
  {
    var c := [head] + nodes;
    assert c[0] == head && c[i + 1] == nodes[i];
    forall k | 0 <= k < |Drop(nodes, i)| ensures Drop(nodes, i)[k] != nodes[i] {
      assert Drop(nodes, i)[k] == c[if k < i then k + 1 else k + 2];
    }
  }

  /** Two rings without a node in common. */
  ghost predicate Apart(head: NodeLink, nodes: seq<NodeLink>, other: NodeLink, others: seq<NodeLink>) {
    && head != other && head !in others && other !in nodes
    && forall n :: n in nodes ==> n !in others
  }

  /** The head and the nodes of a ring. */
  ghost function Members(head: NodeLink, nodes: seq<NodeLink>): set<object> {
    {head as object} + set n | n in nodes
  }

  /** The first node of one ring to the end of another; and the node after it, by the pointer it still has. */
  method MoveFirst(spoke: NodeLink, ready: NodeLink, link: NodeLink, ghost left: seq<NodeLink>,
                   ghost moved: seq<NodeLink>)
    returns (next: NodeLink?)
    requires Ring(spoke, left) && Ring(ready, moved) && Apart(spoke, left, ready, moved) && left != []
    requires link == left[0]
    modifies Members(spoke, left) + Members(ready, moved)
    ensures Ring(spoke, left[1..]) && Ring(ready, moved + [link])
    ensures next == if |left| == 1 then spoke else left[1]
  {
    MoveSteps(spoke, left, ready, moved);
    Separate(spoke, left, ready, moved);
    hide Ring, Apart;
    Detach(link, spoke, left, 0);
    next := link.next;
    Separate(spoke, left[1..], ready, moved + [link]);
    Append(ready, link, moved);
  }

  /**
   Every node of one ring, in order, to the end of another: a spoke whose time has come, to the nodes that are ready.
   */
  method MoveAll(spoke: NodeLink, ready: NodeLink, ghost nodes: seq<NodeLink>, ghost waiting: seq<NodeLink>)
    requires Ring(spoke, nodes) && Ring(ready, waiting) && Apart(spoke, nodes, ready, waiting)
    modifies Members(spoke, nodes) + Members(ready, waiting)
    ensures Ring(spoke, []) && Ring(ready, waiting + nodes)
  {
    NotHead(spoke, nodes);
    Walk(spoke, nodes, 0);
    hide Ring, Members;
    ghost var left, moved := nodes, waiting;
    var link: NodeLink? := spoke.next;
    assert waiting + nodes == moved + left;
    while link != spoke
      invariant Ring(spoke, left) && Ring(ready, moved) && Apart(spoke, left, ready, moved)
      invariant waiting + nodes == moved + left && spoke !in left
      invariant link == if left == [] then spoke else left[0]
      invariant Members(spoke, left) + Members(ready, moved) == Members(spoke, nodes) + Members(ready, waiting)
      decreases |left|
    {
      MoveSteps(spoke, left, ready, moved);
      SameMembers(spoke, left, ready, moved);
      ghost var node := left[0];
      link := MoveFirst(spoke, ready, link, left, moved);
      left, moved := left[1..], moved + [node];
    }
    assert waiting + nodes == moved;
  }

  lemma Separate(spoke: NodeLink, left: seq<NodeLink>, ready: NodeLink, moved: seq<NodeLink>)
    requires Apart(spoke, left, ready, moved)
    ensures spoke != ready
    ensures forall i :: 0 <= i < |moved| ==> moved[i] != spoke
    ensures forall j :: 0 <= j < |left| ==> left[j] != ready
    ensures forall i, j :: 0 <= i < |moved| && 0 <= j < |left| ==> moved[i] != left[j]
  {
    forall i, j | 0 <= i < |moved| && 0 <= j < |left| ensures moved[i] != left[j] {
      assert left[j] in left;
    }
  }

  lemma SameMembers(spoke: NodeLink, left: seq<NodeLink>, ready: NodeLink, moved: seq<NodeLink>)
    requires left != []
    ensures Members(spoke, left[1..]) + Members(ready, moved + [left[0]])
         == Members(spoke, left) + Members(ready, moved)
  {
    assert left == [left[0]] + left[1..];
  }

  lemma NotHead(head: NodeLink, nodes: seq<NodeLink>)
    requires Ring(head, nodes)
    ensures head !in nodes
  {
    forall k | 0 <= k < |nodes| ensures nodes[k] != head {
      Left(head, nodes, k);
    }
  }

  lemma MoveSteps(spoke: NodeLink, left: seq<NodeLink>, ready: NodeLink, moved: seq<NodeLink>)
    requires Ring(spoke, left) && left != [] && Apart(spoke, left, ready, moved)
    ensures Drop(left, 0) == left[1..] && moved + left == moved + [left[0]] + left[1..]
    ensures left[0] != spoke && left[0] !in left[1..] && left[0].next == if |left| == 1 then spoke else left[1]
    ensures Apart(spoke, left[1..], ready, moved + [left[0]])
  {
    Walk(spoke, left, 1);
    Left(spoke, left, 0);
  }
}
