/**
 The callbacks' walk over the ready nodes: each node is called back and then deleted without being unlinked, while the
 callbacks stop timers, whether their nodes are ready or hang in other rings, and start timers.
 */
module CallbackWalks {
  import opened NodeRings
  import opened NodeWalks
  import opened Sequences

  // ---------------------------------------------------------------- lines of nodes

  /** Nodes linked both ways, with nothing said of what is before the first and after the last. */
  ghost predicate Line(c: seq<NodeLink>)
    reads c
  {
    && NoneTwice(c)
    && (forall i :: 0 <= i < |c| - 1 ==> c[i].next == c[i + 1])
    && (forall i :: 0 < i < |c| ==> c[i].prev == c[i - 1])
  }

  ghost predicate LineLinks(c: seq<NodeLink>, next: seq<NodeLink?>, prev: seq<NodeLink?>) {
    && |next| == |prev| == |c|
    && (forall i :: 0 <= i < |c| - 1 ==> next[i] == c[i + 1])
    && (forall i :: 0 < i < |c| ==> prev[i] == c[i - 1])
  }

  lemma LineSkip(c: seq<NodeLink>, next: seq<NodeLink?>, prev: seq<NodeLink?>, k: nat)
    requires LineLinks(c, next, prev) && 0 < k < |c| - 1
    ensures LineLinks(Drop(c, k), Drop(next[k - 1 := c[k + 1]], k), Drop(prev[k + 1 := c[k - 1]], k))
  {
  }

  lemma LinePointers(c: seq<NodeLink>) returns (next: seq<NodeLink?>, prev: seq<NodeLink?>)
    requires Line(c)
    ensures Pointers(c, next, prev) && LineLinks(c, next, prev)
  {
    next, prev := Nexts(c), Prevs(c);
  }

  lemma LineMade(c: seq<NodeLink>, next: seq<NodeLink?>, prev: seq<NodeLink?>)
    requires NoneTwice(c) && Pointers(c, next, prev) && LineLinks(c, next, prev)
    ensures Line(c)
  {
  }

  /** What remains when a node is taken out of a sequence. */
  ghost function Minus(nodes: seq<NodeLink>, node: NodeLink): (r: seq<NodeLink>)
    requires node in nodes
    ensures multiset(nodes) == multiset(r) + multiset{node}
    ensures |r| == |nodes| - 1
  {
    if nodes[0] == node then
      assert nodes == [node] + nodes[1..];
      nodes[1..]
    else
      assert nodes == [nodes[0]] + nodes[1..];
      [nodes[0]] + Minus(nodes[1..], node)
  }

  lemma {:induction false} MinusDrops(nodes: seq<NodeLink>, k: nat)
    requires k < |nodes| && NoneTwice(nodes)
    ensures Minus(nodes, nodes[k]) == Drop(nodes, k)
  {
    if k > 0 {
      var rest := nodes[1..];
      assert rest[k - 1] == nodes[k];
      MinusDrops(rest, k - 1);
      assert [nodes[0]] + Drop(rest, k - 1) == Drop(nodes, k);
    }
  }

  // ---------------------------------------------------------------- what callbacks do

  /** The ready nodes not yet called back, the other rings, and the nodes of timers not yet started. */
  datatype World = World(later: seq<NodeLink>, rings: seq<seq<NodeLink>>, unused: set<NodeLink>)

  /** Stopping a timer whose node is ready, stopping one whose node hangs in another ring, and starting one. */
  datatype Deed = Stop(node: NodeLink) | Take(ring: nat, node: NodeLink) | Hang(ring: nat, node: NodeLink)

  /** Only a pending node is taken off, and only a new one hung up. */
  ghost predicate Possible(w: World, d: Deed) {
    match d
    case Stop(n) => n in w.later
    case Take(r, n) => r < |w.rings| && n in w.rings[r]
    case Hang(r, n) => r < |w.rings| && n in w.unused
  }

  ghost function Taken(rings: seq<seq<NodeLink>>, r: nat, node: NodeLink): seq<seq<NodeLink>>
    requires r < |rings| && node in rings[r]
  {
    rings[r := Minus(rings[r], node)]
  }

  ghost function Done(w: World, d: Deed): (w': World)
    requires Possible(w, d)
    ensures |w'.later| <= |w.later| && |w'.rings| == |w.rings|
  {
    match d
    case Stop(n) => w.(later := Minus(w.later, n))
    case Take(r, n) => w.(rings := Taken(w.rings, r, n))
    case Hang(r, n) => w.(rings := Hung(w.rings, r, n), unused := w.unused - {n})
  }

  ghost predicate AllPossible(w: World, ds: seq<Deed>)
    decreases |ds|
  {
    ds != [] ==> Possible(w, ds[0]) && AllPossible(Done(w, ds[0]), ds[1..])
  }

  ghost function AllDone(w: World, ds: seq<Deed>): (w': World)
    requires AllPossible(w, ds)
    ensures |w'.later| <= |w.later| && |w'.rings| == |w.rings|
    decreases |ds|
  {
    if ds == [] then w else AllDone(Done(w, ds[0]), ds[1..])
  }

  /** The first ready node is being called back. */
  function Called(w: World): World
    requires w.later != []
  {
    w.(later := w.later[1..])
  }

  /** What each callback does, in order. */
  ghost predicate Scripted(w: World, script: seq<seq<Deed>>)
    decreases |w.later|
  {
    w.later != [] ==>
      script != [] && AllPossible(Called(w), script[0]) && Scripted(AllDone(Called(w), script[0]), script[1..])
  }

  /** The nodes called back, in order. */
  ghost function Calls(w: World, script: seq<seq<Deed>>): seq<NodeLink>
    requires Scripted(w, script)
    decreases |w.later|
  {
    if w.later == [] then [] else [w.later[0]] + Calls(AllDone(Called(w), script[0]), script[1..])
  }

  /** What the callbacks leave behind. */
  ghost function Final(w: World, script: seq<seq<Deed>>): World
    requires Scripted(w, script)
    decreases |w.later|
  {
    if w.later == [] then w else Final(AllDone(Called(w), script[0]), script[1..])
  }

  /** The ready nodes that deeds stop. */
  ghost function StoppedBy(ds: seq<Deed>): seq<NodeLink> {
    if ds == [] then [] else (if ds[0].Stop? then [ds[0].node] else []) + StoppedBy(ds[1..])
  }

  ghost function Stops(w: World, script: seq<seq<Deed>>): seq<NodeLink>
    requires Scripted(w, script)
    decreases |w.later|
  {
    if w.later == [] then []
    else StoppedBy(script[0]) + Stops(AllDone(Called(w), script[0]), script[1..])
  }

  lemma {:induction false} DeedsCount(w: World, ds: seq<Deed>)
    requires AllPossible(w, ds)
    ensures multiset(w.later) == multiset(AllDone(w, ds).later) + multiset(StoppedBy(ds))
    decreases |ds|
  {
    if ds != [] {
      DeedsCount(Done(w, ds[0]), ds[1..]);
    }
  }

  /** Every ready node is either called back, once, or stopped by an earlier callback, once. */
  lemma {:induction false} CalledOrStopped(w: World, script: seq<seq<Deed>>)
    requires Scripted(w, script)
    ensures multiset(w.later) == multiset(Calls(w, script)) + multiset(Stops(w, script))
    decreases |w.later|
  {
    hide AllPossible, AllDone, StoppedBy;
    if w.later != [] {
      DeedsCount(Called(w), script[0]);
      CalledOrStopped(AllDone(Called(w), script[0]), script[1..]);
      assert w.later == [w.later[0]] + w.later[1..];
    }
  }

  // ---------------------------------------------------------------- memory

  /** The nodes of the line are in no ring, and those not in use are nowhere. */
  ghost predicate Parted(c: seq<NodeLink>, heads: seq<NodeLink>, rings: seq<seq<NodeLink>>, unused: set<NodeLink>) {
    && |heads| == |rings|
    && (forall n :: n in c ==> Loose(heads, rings, n))
    && (forall n :: n in unused ==> n !in c && Loose(heads, rings, n))
  }

  ghost predicate Sound(c: seq<NodeLink>, heads: seq<NodeLink>, rings: seq<seq<NodeLink>>, unused: set<NodeLink>)
    reads Foot(c, heads, rings, unused)
  {
    Line(c) && AllRings(heads, rings) && Parted(c, heads, rings, unused)
  }

  ghost function Foot(c: seq<NodeLink>, heads: seq<NodeLink>, rings: seq<seq<NodeLink>>, unused: set<NodeLink>)
    : set<NodeLink>
  {
    (set n | n in c) + Everything(heads, rings) + unused
  }

  lemma LooseOutside(heads: seq<NodeLink>, rings: seq<seq<NodeLink>>, n: NodeLink)
    requires Loose(heads, rings, n)
    ensures n !in Everything(heads, rings)
  {
  }

  /** Stops a later timer: its node is unlinked and deleted, which leaves nothing to read in it. */
  method StopLater(node: NodeLink, ghost c: seq<NodeLink>, ghost k: nat)
    requires Line(c) && 0 < k < |c| - 1 && c[k] == node
    modifies c
    ensures Line(Drop(c, k)) && node.prev == node.next == null
  {
    ghost var next, prev := LinePointers(c);
    assert c[k - 1] != node && c[k + 1] != node;
    LineSkip(c, next, prev, k);
    DropOnce(c, k);
    hide Line, LineLinks, Drop;
    Relink(node, c[k - 1], c[k + 1], c, next, prev, k - 1, k + 1);
    PointersDrop(c, next[k - 1 := c[k + 1]], prev[k + 1 := c[k - 1]], k);
    LineMade(Drop(c, k), Drop(next[k - 1 := c[k + 1]], k), Drop(prev[k + 1 := c[k - 1]], k));
    node.prev, node.next := null, null;
  }

  /** The node being called back, the ready nodes after it, and the head. */
  ghost function Span(node: NodeLink, later: seq<NodeLink>, ready: NodeLink): seq<NodeLink> {
    [node] + (later + [ready])
  }

  lemma SpanAt(node: NodeLink, later: seq<NodeLink>, ready: NodeLink)
    ensures var c := Span(node, later, ready);
            |c| == |later| + 2 && c[0] == node && c[|later| + 1] == ready
            && forall i :: 0 <= i < |later| ==> c[i + 1] == later[i]
    ensures Span(node, later, ready)[1..] == later + [ready]
  {
  }

  lemma SpanNoneTwice(node: NodeLink, later: seq<NodeLink>, ready: NodeLink)
    requires NoneTwice(Span(node, later, ready))
    ensures NoneTwice(later) && node !in later + [ready] && ready !in later
  {
    hide Span;
    SpanAt(node, later, ready);
    var c := Span(node, later, ready);
    forall i, j | 0 <= i < j < |later| ensures later[i] != later[j] {
      assert c[i + 1] == later[i] && c[j + 1] == later[j];
    }
    forall i | 0 <= i < |later| ensures later[i] != ready && later[i] != node {
      assert c[i + 1] == later[i];
    }
  }

  lemma SpanWithout(node: NodeLink, later: seq<NodeLink>, ready: NodeLink, stop: NodeLink) returns (k: nat)
    requires NoneTwice(Span(node, later, ready)) && stop in later
    ensures k < |later| && Span(node, later, ready)[k + 1] == stop
    ensures Span(node, Minus(later, stop), ready) == Drop(Span(node, later, ready), k + 1)
  {
    hide Span, Minus;
    k :| 0 <= k < |later| && later[k] == stop;
    SpanNoneTwice(node, later, ready);
    SpanAt(node, later, ready);
    MinusDrops(later, k);
    SpanDrops(node, later, ready, k);
  }

  lemma SpanDrops(node: NodeLink, later: seq<NodeLink>, ready: NodeLink, k: nat)
    requires k < |later|
    ensures k + 1 < |Span(node, later, ready)|
    ensures Span(node, Drop(later, k), ready) == Drop(Span(node, later, ready), k + 1)
  {
  }

  /** Stops one of the timers whose nodes are ready. */
  method StopOne(stop: NodeLink, ghost node: NodeLink, ghost later: seq<NodeLink>, ghost ready: NodeLink)
    requires Line(Span(node, later, ready)) && stop in later
    modifies Span(node, later, ready)
    ensures Line(Span(node, Minus(later, stop), ready)) && stop.prev == stop.next == null
    ensures stop !in Span(node, Minus(later, stop), ready)
    ensures var c := Span(node, Minus(later, stop), ready);
            forall j :: 0 <= j < |c| ==> c[j] in Span(node, later, ready)
  {
    ghost var c := Span(node, later, ready);
    ghost var k := SpanWithout(node, later, ready, stop);
    DropOnce(c, k + 1);
    hide Line, Span, Minus;
    StopLater(stop, c, k + 1);
  }

  // ---------------------------------------------------------------- single deeds

  ghost predicate Lacks(before: seq<NodeLink>, after: seq<NodeLink>, node: NodeLink) {
    && (forall n :: n in after ==> n in before && n != node)
    && (forall n :: n in before && n != node ==> n in after)
  }

  lemma MinusSubset(nodes: seq<NodeLink>, node: NodeLink)
    requires node in nodes && NoneTwice(nodes)
    ensures forall n :: n in Minus(nodes, node) <==> n in nodes && n != node
    ensures Lacks(nodes, Minus(nodes, node), node)
  {
    NoneTwiceCounts(nodes);
    forall n ensures n in Minus(nodes, node) <==> n in nodes && n != node {
      assert multiset(nodes)[n] <= 1;
      assert n in nodes <==> multiset(nodes)[n] > 0;
      assert n in Minus(nodes, node) <==> multiset(Minus(nodes, node))[n] > 0;
    }
  }

  lemma TakenApart(heads: seq<NodeLink>, rings: seq<seq<NodeLink>>, r: nat, node: NodeLink)
    requires |heads| == |rings| && r < |heads| && node in rings[r] && NoneTwice(rings[r])
    requires forall p, q :: 0 <= p < |heads| && 0 <= q < |heads| && p != q ==>
                Apart(heads[p], rings[p], heads[q], rings[q])
    ensures var after := Taken(rings, r, node);
            forall p, q :: 0 <= p < |heads| && 0 <= q < |heads| && p != q ==>
              Apart(heads[p], after[p], heads[q], after[q])
  {
    hide Minus;
    MinusSubset(rings[r], node);
  }

  lemma RingNoneTwice(head: NodeLink, nodes: seq<NodeLink>)
    requires Ring(head, nodes)
    ensures NoneTwice(nodes)
  {
    var c := [head] + nodes;
    forall i, j | 0 <= i < j < |nodes| ensures nodes[i] != nodes[j] {
      assert c[i + 1] == nodes[i] && c[j + 1] == nodes[j];
    }
  }

  /** Takes a node off the ring it hangs in; the others stay as they are. */
  method TakeFrom(heads: seq<NodeLink>, r: nat, node: NodeLink, ghost rings: seq<seq<NodeLink>>)
    requires AllRings(heads, rings) && r < |heads| && node in rings[r]
    modifies heads[r], rings[r]
    ensures AllRings(heads, Taken(rings, r, node)) && node.prev == node.next == null
  {
    assert HeldAt(heads, rings, r);
    RingNoneTwice(heads[r], rings[r]);
    TakenApart(heads, rings, r, node);
    hide Ring, Minus;
    ghost var k :| 0 <= k < |rings[r]| && rings[r][k] == node;
    MinusDrops(rings[r], k);
    Remove(node, heads[r], rings[r], k);
    ghost var after := Taken(rings, r, node);
    forall q | 0 <= q < |heads| ensures HeldAt(heads, after, q) {
      if q != r {
        Separate(heads[r], rings[r], heads[q], rings[q]);
        assert old(HeldAt(heads, rings, q));
      }
    }
  }

  /** The line and the rings have no node in common. */
  lemma LineOutside(c: seq<NodeLink>, heads: seq<NodeLink>, rings: seq<seq<NodeLink>>, unused: set<NodeLink>)
    requires Parted(c, heads, rings, unused)
    ensures |heads| == |rings|
    ensures forall j :: 0 <= j < |c| ==> c[j] !in Everything(heads, rings)
    ensures forall j, r :: 0 <= j < |c| && 0 <= r < |heads| ==> c[j] != heads[r]
    ensures forall j, r, i :: 0 <= j < |c| && 0 <= r < |rings| && 0 <= i < |rings[r]| ==> c[j] != rings[r][i]
  {
    forall j | 0 <= j < |c| ensures c[j] !in Everything(heads, rings) {
      LooseOutside(heads, rings, c[j]);
    }
  }

  lemma StopParts(node: NodeLink, later: seq<NodeLink>, ready: NodeLink, stop: NodeLink, heads: seq<NodeLink>,
                  rings: seq<seq<NodeLink>>, unused: set<NodeLink>)
    requires NoneTwice(Span(node, later, ready)) && Parted(Span(node, later, ready), heads, rings, unused)
    requires stop in later
    ensures Parted(Span(node, Minus(later, stop), ready), heads, rings, unused)
    ensures Foot(Span(node, Minus(later, stop), ready), heads, rings, unused)
         == Foot(Span(node, later, ready), heads, rings, unused) - {stop}
  {
    hide Minus, Everything;
    SpanNoneTwice(node, later, ready);
    MinusSubset(later, stop);
    SpanHas(node, later, ready);
    SpanHas(node, Minus(later, stop), ready);
    assert stop in Span(node, later, ready);
    LooseOutside(heads, rings, stop);
    var c, c' := Span(node, later, ready), Span(node, Minus(later, stop), ready);
    assert (set n | n in c') == (set n | n in c) - {stop};
    assert stop !in unused;
  }

  lemma SpanHas(node: NodeLink, later: seq<NodeLink>, ready: NodeLink)
    ensures forall n :: n in Span(node, later, ready) <==> n == node || n in later || n == ready
  {
  }

  method ActStop(stop: NodeLink, ghost heads: seq<NodeLink>, ghost node: NodeLink, ghost w: World,
                 ghost ready: NodeLink)
    requires Sound(Span(node, w.later, ready), heads, w.rings, w.unused) && stop in w.later
    modifies Span(node, w.later, ready)
    ensures Sound(Span(node, Minus(w.later, stop), ready), heads, w.rings, w.unused) && stop.prev == stop.next == null
  {
    LineOutside(Span(node, w.later, ready), heads, w.rings, w.unused);
    StopParts(node, w.later, ready, stop, heads, w.rings, w.unused);
    hide Line, AllRings, Parted, Span, Minus, Everything;
    StopOne(stop, node, w.later, ready);
  }

  lemma TakeParts(c: seq<NodeLink>, heads: seq<NodeLink>, rings: seq<seq<NodeLink>>, unused: set<NodeLink>, r: nat,
                  node: NodeLink)
    requires AllRings(heads, rings) && Parted(c, heads, rings, unused) && r < |heads| && node in rings[r]
    ensures Parted(c, heads, Taken(rings, r, node), unused)
    ensures Foot(c, heads, Taken(rings, r, node), unused) == Foot(c, heads, rings, unused) - {node}
  {
    assert HeldAt(heads, rings, r);
    RingNoneTwice(heads[r], rings[r]);
    NotHead(heads[r], rings[r]);
    MinusSubset(rings[r], node);
    hide Minus;
    forall q | 0 <= q < |heads| && q != r ensures node != heads[q] && node !in rings[q] {
      assert Apart(heads[r], rings[r], heads[q], rings[q]);
    }
    EverythingTaken(heads, rings, r, node);
    assert node !in c && node !in unused;
  }

  lemma EverythingTaken(heads: seq<NodeLink>, rings: seq<seq<NodeLink>>, r: nat, node: NodeLink)
    requires |heads| == |rings| && r < |rings| && node in rings[r] && node !in heads
    requires Lacks(rings[r], Minus(rings[r], node), node)
    requires forall q :: 0 <= q < |rings| && q != r ==> node !in rings[q]
    ensures Everything(heads, Taken(rings, r, node)) == Everything(heads, rings) - {node}
  {
    hide Minus, Everything;
    var after := Taken(rings, r, node);
    forall q | 0 <= q < |rings| ensures Lacks(rings[q], after[q], node) {
      if q == r {
        assert after[q] == Minus(rings[r], node);
      } else {
        assert after[q] == rings[q] && node !in rings[q];
      }
    }
    EverythingFrom(heads, rings, after, node);
    EverythingBack(heads, rings, after, node);
  }

  lemma EverythingFrom(heads: seq<NodeLink>, rings: seq<seq<NodeLink>>, after: seq<seq<NodeLink>>, node: NodeLink)
    requires |after| == |rings| && node !in heads
    requires forall q :: 0 <= q < |rings| ==> Lacks(rings[q], after[q], node)
    ensures Everything(heads, after) <= Everything(heads, rings) - {node}
  {
    forall q, i | 0 <= q < |rings| && 0 <= i < |after[q]|
      ensures after[q][i] != node && exists j :: 0 <= j < |rings[q]| && rings[q][j] == after[q][i]
    {
      assert Lacks(rings[q], after[q], node) && after[q][i] in after[q];
    }
  }

  lemma EverythingBack(heads: seq<NodeLink>, rings: seq<seq<NodeLink>>, after: seq<seq<NodeLink>>, node: NodeLink)
    requires |after| == |rings|
    requires forall q :: 0 <= q < |rings| ==> Lacks(rings[q], after[q], node)
    ensures Everything(heads, rings) - {node} <= Everything(heads, after)
  {
    forall q, i | 0 <= q < |rings| && 0 <= i < |rings[q]| && rings[q][i] != node
      ensures exists j :: 0 <= j < |after[q]| && after[q][j] == rings[q][i]
    {
      assert Lacks(rings[q], after[q], node) && rings[q][i] in rings[q];
    }
  }

  method ActTake(r: nat, node: NodeLink, heads: seq<NodeLink>, ghost c: seq<NodeLink>, ghost rings: seq<seq<NodeLink>>,
                 ghost unused: set<NodeLink>)
    requires Sound(c, heads, rings, unused) && r < |rings| && node in rings[r]
    modifies Everything(heads, rings)
    ensures Sound(c, heads, Taken(rings, r, node), unused) && node.prev == node.next == null
  {
    LineOutside(c, heads, rings, unused);
    TakeParts(c, heads, rings, unused, r, node);
    Inside(heads, rings, r);
    hide Line, AllRings, Parted, Everything;
    TakeFrom(heads, r, node, rings);
  }

  lemma HangParts(c: seq<NodeLink>, heads: seq<NodeLink>, rings: seq<seq<NodeLink>>, unused: set<NodeLink>, r: nat,
                  node: NodeLink)
    requires Parted(c, heads, rings, unused) && r < |rings| && node in unused
    ensures Parted(c, heads, Hung(rings, r, node), unused - {node})
    ensures Foot(c, heads, Hung(rings, r, node), unused - {node}) == Foot(c, heads, rings, unused)
    ensures Loose(heads, rings, node) && forall j :: 0 <= j < |c| ==> c[j] != node
  {
    EverythingHung(heads, rings, r, node);
  }

  lemma EverythingHung(heads: seq<NodeLink>, rings: seq<seq<NodeLink>>, r: nat, node: NodeLink)
    requires r < |rings|
    ensures Everything(heads, Hung(rings, r, node)) == Everything(heads, rings) + {node}
  {
    var after := Hung(rings, r, node);
    assert after[r][|rings[r]|] == node;
    assert forall q, i :: 0 <= q < |rings| && 0 <= i < |rings[q]| ==> after[q][i] == rings[q][i];
  }

  method ActHang(r: nat, node: NodeLink, heads: seq<NodeLink>, ghost c: seq<NodeLink>, ghost rings: seq<seq<NodeLink>>,
                 ghost unused: set<NodeLink>)
    requires Sound(c, heads, rings, unused) && r < |rings| && node in unused
    modifies Everything(heads, rings), node
    ensures Sound(c, heads, Hung(rings, r, node), unused - {node})
  {
    LineOutside(c, heads, rings, unused);
    HangParts(c, heads, rings, unused, r, node);
    Inside(heads, rings, r);
    hide Line, AllRings, Parted, Everything, Loose;
    HangIn(heads, r, node, rings);
  }

  // ---------------------------------------------------------------- the walk

  /** The memory of the nodes while one of them is being called back; and between callbacks. */
  ghost function Calling(node: NodeLink, w: World, ready: NodeLink, heads: seq<NodeLink>): set<NodeLink> {
    Foot(Span(node, w.later, ready), heads, w.rings, w.unused)
  }

  ghost function Between(w: World, ready: NodeLink, heads: seq<NodeLink>): set<NodeLink> {
    Foot(w.later + [ready], heads, w.rings, w.unused)
  }

  /** One thing a callback does. What it takes off is deleted, which leaves nothing to read in it. */
  method Act(d: Deed, heads: seq<NodeLink>, ghost node: NodeLink, ghost w: World, ghost ready: NodeLink)
    requires Sound(Span(node, w.later, ready), heads, w.rings, w.unused) && Possible(w, d)
    modifies Calling(node, w, ready, heads)
    ensures var w' := Done(w, d);
            && Sound(Span(node, w'.later, ready), heads, w'.rings, w'.unused)
            && Calling(node, w', ready, heads) <= Calling(node, w, ready, heads)
            && forall n :: n in Calling(node, w, ready, heads) && n !in Calling(node, w', ready, heads) ==>
                 n.prev == n.next == null
  {
    ghost var c := Span(node, w.later, ready);
    FootHas(c, heads, w.rings, w.unused);
    match d
    case Stop(n) =>
      StopParts(node, w.later, ready, n, heads, w.rings, w.unused);
      hide Sound, Span, Minus, Foot;
      ActStop(n, heads, node, w, ready);
    case Take(r, n) =>
      TakeParts(c, heads, w.rings, w.unused, r, n);
      hide Sound, Span, Taken, Foot;
      ActTake(r, n, heads, c, w.rings, w.unused);
    case Hang(r, n) =>
      HangParts(c, heads, w.rings, w.unused, r, n);
      hide Sound, Span, Hung, Foot;
      ActHang(r, n, heads, c, w.rings, w.unused);
  }

  lemma FootHas(c: seq<NodeLink>, heads: seq<NodeLink>, rings: seq<seq<NodeLink>>, unused: set<NodeLink>)
    ensures forall j :: 0 <= j < |c| ==> c[j] in Foot(c, heads, rings, unused)
    ensures Everything(heads, rings) <= Foot(c, heads, rings, unused) && unused <= Foot(c, heads, rings, unused)
  {
  }

  /** The same nodes, known to exist now. */
  lemma InUse(nodes: set<NodeLink>) returns (same: set<NodeLink>)
    ensures same == nodes
  {
    same := nodes;
  }

  /** A callback. */
  method Callback(ds: seq<Deed>, heads: seq<NodeLink>, ghost node: NodeLink, ghost w: World, ghost ready: NodeLink)
    requires Sound(Span(node, w.later, ready), heads, w.rings, w.unused) && AllPossible(w, ds)
    modifies Calling(node, w, ready, heads)
    ensures var w' := AllDone(w, ds);
            && Sound(Span(node, w'.later, ready), heads, w'.rings, w'.unused)
            && Calling(node, w', ready, heads) <= Calling(node, w, ready, heads)
            && forall n :: n in Calling(node, w, ready, heads) && n !in Calling(node, w', ready, heads) ==>
                 n.prev == n.next == null
  {
    hide Sound, Span, Calling, Possible, Done, AllPossible, AllDone;
    ghost var now := w;
    ghost var all := InUse(Calling(node, w, ready, heads));
    var i := 0;
    while i < |ds|
      invariant i <= |ds| && Sound(Span(node, now.later, ready), heads, now.rings, now.unused)
      invariant AllPossible(now, ds[i..]) && AllDone(now, ds[i..]) == AllDone(w, ds)
      invariant Calling(node, now, ready, heads) <= all
      invariant forall n :: n in all && n !in Calling(node, now, ready, heads) ==> n.prev == n.next == null
    {
      DeedsStep(now, ds, i);
      Act(ds[i], heads, node, now, ready);
      now := Done(now, ds[i]);
      i := i + 1;
    }
    DeedsEnd(now, ds, i);
  }

  lemma DeedsStep(w: World, ds: seq<Deed>, i: nat)
    requires i < |ds| && AllPossible(w, ds[i..])
    ensures Possible(w, ds[i]) && AllPossible(Done(w, ds[i]), ds[i + 1..])
    ensures AllDone(w, ds[i..]) == AllDone(Done(w, ds[i]), ds[i + 1..])
  {
    hide Possible, Done;
    assert ds[i..][0] == ds[i] && ds[i..][1..] == ds[i + 1..];
  }

  lemma DeedsEnd(w: World, ds: seq<Deed>, i: nat)
    requires i == |ds| && AllPossible(w, ds[i..])
    ensures AllDone(w, ds[i..]) == w
  {
  }

  lemma ReadyLine(ready: NodeLink, nodes: seq<NodeLink>)
    requires Ring(ready, nodes)
    ensures Line(nodes + [ready]) && ready.next == (nodes + [ready])[0] && ready !in nodes
  {
    NextOfHead(ready, nodes);
    NotHead(ready, nodes);
    var c, line := [ready] + nodes, nodes + [ready];
    forall i | 0 <= i < |nodes| ensures line[i].next == line[i + 1] && line[i + 1].prev == line[i] {
      Walk(ready, nodes, i + 1);
    }
    forall i, j | 0 <= i < j < |line| ensures line[i] != line[j] {
      assert c[i + 1] == line[i];
      assert j < |nodes| ==> c[j + 1] == line[j];
    }
  }

  lemma NextInLine(node: NodeLink, later: seq<NodeLink>, ready: NodeLink)
    requires Line(Span(node, later, ready))
    ensures Line(later + [ready]) && node.next == (later + [ready])[0] && node !in later + [ready] && ready !in later
  {
    hide Span;
    SpanAt(node, later, ready);
    SpanNoneTwice(node, later, ready);
    LineTail(Span(node, later, ready));
  }

  lemma LineTail(c: seq<NodeLink>)
    requires Line(c) && |c| > 1
    ensures Line(c[1..]) && c[0].next == c[1..][0]
  {
  }

  /** The node called back is first in the line; when it is deleted the others are left. */
  lemma FirstInLine(w: World, ready: NodeLink, heads: seq<NodeLink>)
    requires w.later != []
    ensures Span(w.later[0], Called(w).later, ready) == w.later + [ready]
    ensures Calling(w.later[0], Called(w), ready, heads) == Between(w, ready, heads)
  {
    assert Span(w.later[0], w.later[1..], ready) == w.later + [ready];
  }

  lemma FirstDeleted(node: NodeLink, w: World, ready: NodeLink, heads: seq<NodeLink>)
    requires NoneTwice(Span(node, w.later, ready)) && Parted(Span(node, w.later, ready), heads, w.rings, w.unused)
    ensures Parted(w.later + [ready], heads, w.rings, w.unused) && node !in Everything(heads, w.rings)
    ensures Between(w, ready, heads) == Calling(node, w, ready, heads) - {node}
    ensures node in Calling(node, w, ready, heads)
    ensures forall j :: 0 <= j < |w.later + [ready]| ==> (w.later + [ready])[j] != node
  {
    hide Everything;
    SpanNoneTwice(node, w.later, ready);
    SpanHas(node, w.later, ready);
    LooseOutside(heads, w.rings, node);
    assert forall n :: n in w.later + [ready] <==> n in w.later || n == ready;
  }

  /** Calls the first node back, reads where to go on, and only then deletes it. */
  method CallFirst(node: NodeLink, ds: seq<Deed>, heads: seq<NodeLink>, ghost w: World, ghost ready: NodeLink)
    returns (link: NodeLink)
    requires w.later != [] && w.later[0] == node && AllPossible(Called(w), ds)
    requires Sound(w.later + [ready], heads, w.rings, w.unused)
    modifies Between(w, ready, heads)
    ensures var w' := AllDone(Called(w), ds);
            && Sound(w'.later + [ready], heads, w'.rings, w'.unused) && link == (w'.later + [ready])[0]
            && Between(w', ready, heads) <= Between(w, ready, heads)
            && forall n :: n in Between(w, ready, heads) && n !in Between(w', ready, heads) ==> n.prev == n.next == null
  {
    ghost var w' := AllDone(Called(w), ds);
    FirstInLine(w, ready, heads);
    hide Span, AllPossible, AllDone, Calling, Between;
    Callback(ds, heads, node, Called(w), ready);
    link := Delete(node, heads, w', ready);
  }

  method Delete(node: NodeLink, ghost heads: seq<NodeLink>, ghost w: World, ghost ready: NodeLink)
    returns (link: NodeLink)
    requires Sound(Span(node, w.later, ready), heads, w.rings, w.unused)
    modifies node
    ensures Sound(w.later + [ready], heads, w.rings, w.unused) && link == (w.later + [ready])[0]
    ensures node.prev == node.next == null && node in Calling(node, w, ready, heads)
    ensures Between(w, ready, heads) == Calling(node, w, ready, heads) - {node}
  {
    NextInLine(node, w.later, ready);
    FirstDeleted(node, w, ready, heads);
    hide Span, AllRings, Line, Parted, Calling, Between, Everything;
    link := node.next;
    node.prev, node.next := null, null;
  }

  /**
   Calls the ready nodes back, in order, deleting each one after its callback without unlinking it, while the callbacks
   take off and hang up nodes. No pointer into a deleted node is ever followed, and no deleted node is written to: what
   a callback stops among the ready nodes lies between the node it is called for and the head. In the end the ring is
   empty, and the other rings are as the callbacks have left them.
   */
  method CallBackAll(ready: NodeLink, script: seq<seq<Deed>>, heads: seq<NodeLink>, ghost w: World)
    returns (called: seq<NodeLink>)
    requires Ring(ready, w.later) && AllRings(heads, w.rings) && Parted(w.later + [ready], heads, w.rings, w.unused)
    requires Scripted(w, script)
    modifies Between(w, ready, heads)
    ensures called == Calls(w, script) && Ring(ready, []) && AllRings(heads, Final(w, script).rings)
    ensures forall n :: n in Between(w, ready, heads) && n !in Between(Final(w, script), ready, heads) ==>
              n.prev == n.next == null
  {
    hide Ring, Line, AllRings, Parted, Scripted, Calls, Final, AllDone, AllPossible, Between, Everything;
    ReadyLine(ready, w.later);
    called := [];
    var link := ready.next;
    ghost var now := w;
    ghost var all := InUse(Between(w, ready, heads));
    var i := 0;
    while link != ready
      invariant Sound(now.later + [ready], heads, now.rings, now.unused) && link == (now.later + [ready])[0]
      invariant i <= |script| && Scripted(now, script[i..])
      invariant called + Calls(now, script[i..]) == Calls(w, script)
      invariant Final(now, script[i..]) == Final(w, script)
      invariant Between(now, ready, heads) <= all
      invariant forall n :: n in all && n !in Between(now, ready, heads) ==> n.prev == n.next == null
      decreases |now.later|
    {
      ghost var next := NextWorld(now, script, i);
      CallsStep(called, now, script, i);
      called := called + [link];
      link := CallFirst(link, script[i], heads, now, ready);
      now := next;
      i := i + 1;
    }
    LineOnce(now.later + [ready]);
    NoMore(now, script[i..], ready, heads);
    LineOutside(now.later + [ready], heads, now.rings, now.unused);
    ready.next, ready.prev := ready, ready;
    SelfLinkedEmpty(ready);
  }

  /** What is left after the next callback. */
  ghost function NextWorld(w: World, script: seq<seq<Deed>>, i: nat): World
    requires i <= |script| && Scripted(w, script[i..]) && w.later != []
  {
    AllDone(Called(w), script[i..][0])
  }

  lemma CallsStep(called: seq<NodeLink>, w: World, script: seq<seq<Deed>>, i: nat)
    requires i <= |script| && Scripted(w, script[i..]) && w.later != []
    ensures i < |script| && AllPossible(Called(w), script[i])
    ensures NextWorld(w, script, i) == AllDone(Called(w), script[i])
    ensures var next := NextWorld(w, script, i);
            && Scripted(next, script[i + 1..]) && |next.later| < |w.later|
            && Final(w, script[i..]) == Final(next, script[i + 1..])
            && called + Calls(w, script[i..]) == called + [w.later[0]] + Calls(next, script[i + 1..])
  {
    hide AllPossible, AllDone;
    assert script[i..][1..] == script[i + 1..];
    assert script[i..][0] == script[i];
  }

  lemma LineOnce(c: seq<NodeLink>)
    requires Line(c)
    ensures NoneTwice(c)
  {
  }

  lemma NoMore(w: World, script: seq<seq<Deed>>, ready: NodeLink, heads: seq<NodeLink>)
    requires Scripted(w, script)
    requires NoneTwice(w.later + [ready]) && (w.later + [ready])[0] == ready
    ensures w.later == [] && Calls(w, script) == [] && Final(w, script) == w
    ensures ready in Between(w, ready, heads)
  {
    assert (w.later + [ready])[|w.later|] == ready;
  }
}
