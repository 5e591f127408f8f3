/**
 The cascade's walk over timer nodes: it empties the head of a spoke and follows the nodes' old pointers while they are
 hung up elsewhere.
 */
module NodeWalks {
  import opened NodeRings
  import opened Sequences

  // ---------------------------------------------------------------- many rings

  /** The rings of all spokes and of the ready nodes: the i-th head with the i-th nodes, no node in two places. */
  ghost predicate AllRings(heads: seq<NodeLink>, rings: seq<seq<NodeLink>>)
    reads Everything(heads, rings)
  {
    && |heads| == |rings|
    && (forall r :: 0 <= r < |heads| ==> HeldAt(heads, rings, r))
    && forall r, q :: 0 <= r < |heads| && 0 <= q < |heads| && r != q ==> Apart(heads[r], rings[r], heads[q], rings[q])
  }

  ghost predicate HeldAt(heads: seq<NodeLink>, rings: seq<seq<NodeLink>>, r: nat)
    requires r < |heads| == |rings|
    reads heads[r], rings[r]
  {
    Ring(heads[r], rings[r])
  }

  ghost function Everything(heads: seq<NodeLink>, rings: seq<seq<NodeLink>>): set<NodeLink> {
    (set r | 0 <= r < |heads| :: heads[r]) + set r, i | 0 <= r < |rings| && 0 <= i < |rings[r]| :: rings[r][i]
  }

  /** No ring has this node, in any part. */
  ghost predicate Loose(heads: seq<NodeLink>, rings: seq<seq<NodeLink>>, node: NodeLink) {
    node !in heads && forall r :: 0 <= r < |rings| ==> node !in rings[r]
  }

  function Hung(rings: seq<seq<NodeLink>>, r: nat, node: NodeLink): seq<seq<NodeLink>>
    requires r < |rings|
  {
    rings[r := rings[r] + [node]]
  }

  lemma HungApart(heads: seq<NodeLink>, rings: seq<seq<NodeLink>>, r: nat, node: NodeLink)
    requires |heads| == |rings| && r < |heads| && Loose(heads, rings, node)
    requires forall p, q :: 0 <= p < |heads| && 0 <= q < |heads| && p != q ==>
                Apart(heads[p], rings[p], heads[q], rings[q])
    ensures var after := Hung(rings, r, node);
            forall p, q :: 0 <= p < |heads| && 0 <= q < |heads| && p != q ==>
              Apart(heads[p], after[p], heads[q], after[q])
  {
  }

  lemma LooseFrom(heads: seq<NodeLink>, rings: seq<seq<NodeLink>>, q: nat, node: NodeLink)
    requires Loose(heads, rings, node) && q < |heads| == |rings|
    ensures heads[q] != node && forall i :: 0 <= i < |rings[q]| ==> rings[q][i] != node
  {
  }

  /** Hangs a node up in one ring; the others stay as they are. */
  method HangIn(heads: seq<NodeLink>, r: nat, node: NodeLink, ghost rings: seq<seq<NodeLink>>)
    requires AllRings(heads, rings) && r < |heads| && Loose(heads, rings, node)
    modifies heads[r], rings[r], node
    ensures AllRings(heads, Hung(rings, r, node))
  {
    HungApart(heads, rings, r, node);
    assert HeldAt(heads, rings, r);
    hide Ring;
    Append(heads[r], node, rings[r]);
    ghost var after := Hung(rings, r, node);
    forall q | 0 <= q < |heads| ensures HeldAt(heads, after, q) {
      if q != r {
        Separate(heads[r], rings[r], heads[q], rings[q]);
        LooseFrom(heads, rings, q, node);
        assert old(HeldAt(heads, rings, q));
      }
    }
  }

  // ---------------------------------------------------------------- the cascade

  /** Nodes linked forward, the last to `end`. */
  ghost predicate Chain(nodes: seq<NodeLink>, end: NodeLink)
    reads nodes
  {
    && NoneTwice(nodes) && end !in nodes
    && (forall i :: 0 <= i < |nodes| - 1 ==> nodes[i].next == nodes[i + 1])
    && (nodes != [] ==> nodes[|nodes| - 1].next == end)
  }

  /** The rings after nodes have been hung up in order, each where `to` says. */
  function HungAll(rings: seq<seq<NodeLink>>, nodes: seq<NodeLink>, to: seq<nat>): (after: seq<seq<NodeLink>>)
    requires |to| == |nodes| && forall i :: 0 <= i < |to| ==> to[i] < |rings|
    ensures |after| == |rings|
    decreases |nodes|
  {
    if nodes == [] then rings else HungAll(Hung(rings, to[0], nodes[0]), nodes[1..], to[1..])
  }

  /** Those of the nodes that are to go to one ring. */
  function Bound(nodes: seq<NodeLink>, to: seq<nat>, r: nat): seq<NodeLink>
    requires |to| == |nodes|
  {
    if nodes == [] then [] else (if to[0] == r then [nodes[0]] else []) + Bound(nodes[1..], to[1..], r)
  }

  /** Each ring gains exactly the nodes bound for it, at its end and in their order. */
  lemma {:induction false} HungAllInOrder(rings: seq<seq<NodeLink>>, nodes: seq<NodeLink>, to: seq<nat>, r: nat)
    requires |to| == |nodes| && (forall i :: 0 <= i < |to| ==> to[i] < |rings|) && r < |rings|
    ensures HungAll(rings, nodes, to)[r] == rings[r] + Bound(nodes, to, r)
    decreases |nodes|
  {
    if nodes == [] {
      assert rings[r] + [] == rings[r];
    } else {
      var more := Bound(nodes[1..], to[1..], r);
      HungAllInOrder(Hung(rings, to[0], nodes[0]), nodes[1..], to[1..], r);
      assert (rings[r] + [nodes[0]]) + more == rings[r] + ([nodes[0]] + more);
      assert [] + more == more;
    }
  }

  /** Empties the head of one ring only: its nodes still point to one another, and the last to the head. */
  method EmptyHead(heads: seq<NodeLink>, at: nat, ghost rings: seq<seq<NodeLink>>) returns (link: NodeLink)
    requires AllRings(heads, rings) && at < |heads|
    modifies heads[at]
    ensures AllRings(heads, rings[at := []]) && Chain(rings[at], heads[at])
    ensures forall n :: n in rings[at] ==> Loose(heads, rings[at := []], n)
    ensures link == if rings[at] == [] then heads[at] else rings[at][0]
  {
    assert HeldAt(heads, rings, at);
    RingIsChain(heads[at], rings[at]);
    EmptiedApart(heads, at, rings);
    NextOfHead(heads[at], rings[at]);
    hide Ring;
    var spoke := heads[at];
    link := spoke.next;
    spoke.next, spoke.prev := spoke, spoke;
    SelfLinkedEmpty(spoke);
    ghost var after := rings[at := []];
    forall q | 0 <= q < |heads| ensures HeldAt(heads, after, q) {
      if q != at {
        Separate(heads[at], rings[at], heads[q], rings[q]);
        assert old(HeldAt(heads, rings, q));
      }
    }
  }

  lemma NextOfHead(head: NodeLink, nodes: seq<NodeLink>)
    requires Ring(head, nodes)
    ensures head.next == if nodes == [] then head else nodes[0]
  {
    Walk(head, nodes, 0);
  }

  lemma RingIsChain(head: NodeLink, nodes: seq<NodeLink>)
    requires Ring(head, nodes)
    ensures Chain(nodes, head)
  {
    NotHead(head, nodes);
    var c := [head] + nodes;
    forall i, j | 0 <= i < j < |nodes| ensures nodes[i] != nodes[j] {
      assert c[i + 1] == nodes[i] && c[j + 1] == nodes[j];
    }
    forall i | 0 <= i < |nodes| - 1 ensures nodes[i].next == nodes[i + 1] {
      Walk(head, nodes, i + 1);
    }
    if nodes != [] {
      Walk(head, nodes, |nodes|);
    }
  }

  lemma EmptiedApart(heads: seq<NodeLink>, at: nat, rings: seq<seq<NodeLink>>)
    requires AllRings(heads, rings) && at < |heads|
    ensures forall n :: n in rings[at] ==> Loose(heads, rings[at := []], n)
    ensures var after := rings[at := []];
            forall p, q :: 0 <= p < |heads| && 0 <= q < |heads| && p != q ==>
              Apart(heads[p], after[p], heads[q], after[q])
  {
    forall n | n in rings[at] ensures Loose(heads, rings[at := []], n) {
      assert HeldAt(heads, rings, at);
      NotHead(heads[at], rings[at]);
      forall r | 0 <= r < |heads| && r != at ensures n != heads[r] && n !in rings[r] {
        assert Apart(heads[at], rings[at], heads[r], rings[r]);
      }
    }
  }

  /** Hanging the first of a chain up leaves the others loose and still linked. */
  lemma FirstGone(heads: seq<NodeLink>, now: seq<seq<NodeLink>>, left: seq<NodeLink>, r: nat)
    requires |heads| == |now| && r < |now| && NoneTwice(left) && left != []
    requires forall n :: n in left ==> Loose(heads, now, n)
    ensures forall n :: n in left[1..] ==> n in left && n != left[0] && Loose(heads, Hung(now, r, left[0]), n)
  {
  }

  lemma SameMembers(heads: seq<NodeLink>, now: seq<seq<NodeLink>>, left: seq<NodeLink>, r: nat)
    requires r < |now| && left != []
    ensures Everything(heads, Hung(now, r, left[0])) + (set n | n in left[1..])
         <= Everything(heads, now) + set n | n in left
  {
  }

  lemma SameLength(heads: seq<NodeLink>, rings: seq<seq<NodeLink>>)
    requires AllRings(heads, rings)
    ensures |heads| == |rings|
  {
  }

  /** Hangs up the first of a chain and tells the next one, by the pointer read before. */
  method RehangFirst(heads: seq<NodeLink>, r: nat, node: NodeLink, ghost now: seq<seq<NodeLink>>,
                     ghost left: seq<NodeLink>, ghost spoke: NodeLink) returns (link: NodeLink)
    requires AllRings(heads, now) && r < |heads| && Chain(left, spoke) && left != [] && left[0] == node
    requires forall n :: n in left ==> Loose(heads, now, n)
    modifies heads[r], now[r], node
    ensures AllRings(heads, Hung(now, r, node)) && Chain(left[1..], spoke)
    ensures link == if |left| == 1 then spoke else left[1]
  {
    hide AllRings;
    SameLength(heads, now);
    ChainTail(left, spoke);
    link := node.next;
    ghost var rest := left[1..];
    HangIn(heads, r, node, now);
    forall i | 0 <= i < |rest| ensures rest[i].next == old(rest[i].next) {
      assert Loose(heads, now, left[i + 1]);
      LooseFrom(heads, now, r, rest[i]);
    }
  }

  lemma ChainTail(left: seq<NodeLink>, spoke: NodeLink)
    requires Chain(left, spoke) && left != []
    ensures Chain(left[1..], spoke) && left[0] !in left[1..]
    ensures left[0].next == if |left| == 1 then spoke else left[1]
  {
  }

  lemma Inside(heads: seq<NodeLink>, rings: seq<seq<NodeLink>>, r: nat)
    requires r < |heads| == |rings|
    ensures heads[r] in Everything(heads, rings) && forall n :: n in rings[r] ==> n in Everything(heads, rings)
  {
  }

  lemma EmptiedMembers(heads: seq<NodeLink>, at: nat, rings: seq<seq<NodeLink>>)
    requires at < |rings|
    ensures Everything(heads, rings[at := []]) + (set n | n in rings[at]) <= Everything(heads, rings)
  {
  }

  lemma ChainSteps(heads: seq<NodeLink>, now: seq<seq<NodeLink>>, left: seq<NodeLink>, spoke: NodeLink, r: nat)
    requires Chain(left, spoke) && left != [] && |heads| == |now| && r < |now|
    requires forall n :: n in left ==> Loose(heads, now, n)
    ensures forall n :: n in left[1..] ==> Loose(heads, Hung(now, r, left[0]), n)
    ensures |left| > 1 ==> left[1] == left[1..][0] && left[1] != spoke
  {
    FirstGone(heads, now, left, r);
  }

  lemma EndOfChain(left: seq<NodeLink>, spoke: NodeLink)
    requires Chain(left, spoke) && spoke == if left == [] then spoke else left[0]
    ensures left == []
  {
  }

  /**
   Empties the head of one ring only, and then hangs its nodes up one by one, in any rings, that one included,
   following the pointer each node had before it was hung up.
   */
  method Rehang(heads: seq<NodeLink>, at: nat, to: seq<nat>, ghost rings: seq<seq<NodeLink>>)
    requires AllRings(heads, rings) && at < |heads|
    requires |to| == |rings[at]| && forall i :: 0 <= i < |to| ==> to[i] < |heads|
    modifies Everything(heads, rings)
    ensures AllRings(heads, HungAll(rings[at := []], rings[at], to))
  {
    hide AllRings, Chain, Loose, Everything;
    SameLength(heads, rings);
    Inside(heads, rings, at);
    var spoke := heads[at];
    ghost var nodes, left, now := rings[at], rings[at], rings[at := []];
    var link := EmptyHead(heads, at, rings);
    EmptiedMembers(heads, at, rings);
    var i := 0;
    while link != spoke
      invariant i <= |nodes| && left == nodes[i..] && link == if left == [] then spoke else left[0]
      invariant AllRings(heads, now) && Chain(left, spoke)
      invariant forall n :: n in left ==> Loose(heads, now, n)
      invariant |now| == |heads| && HungAll(rings[at := []], nodes, to) == HungAll(now, left, to[i..])
      invariant Everything(heads, now) + (set n | n in left) <= Everything(heads, rings)
      decreases |left|
    {
      var node, r := link, to[i];
      ChainSteps(heads, now, left, spoke, r);
      SameMembers(heads, now, left, r);
      Inside(heads, now, r);
      link := RehangFirst(heads, r, node, now, left, spoke);
      now, left, i := Hung(now, r, node), left[1..], i + 1;
    }
    EndOfChain(left, spoke);
  }
}
