/**
 The spokes of the wheels and the ready list as disjoint rings of nodes, together with the
 ring each node's links thread it into.
 */
module Rings {
  import opened WheelArithmetic
  import opened Sequences

  datatype Place = Spoke(level: nat, spoke: nat) | Ready

  type RingMap<!N(==)> = map<Place, seq<N>>

  predicate IsPlace(p: Place) {
    p.Spoke? ==> p.level < WHEEL_NUM && p.spoke < Size(p.level)
  }

  function AllPlaces(): (places: set<Place>)
    ensures forall p :: p in places <==> IsPlace(p)
  {
    var spokes := set level: nat, spoke: nat | level < WHEEL_NUM && spoke < Size(level) :: Spoke(level, spoke);
    {Ready} + spokes
  }

  /** Every node with a place is in exactly the ring of that place, once; nothing else is in any ring. */
  ghost predicate RingsOk<N>(rings: RingMap<N>, place: map<N, Place>) {
    && (forall p :: p in rings <==> IsPlace(p))
    && (forall p, n :: p in rings && n in rings[p] ==> n in place && place[n] == p)
    && (forall n :: n in place ==> place[n] in rings && n in rings[place[n]])
    && (forall p :: p in rings ==> NoneTwice(rings[p]))
  }

  function Elements<N>(s: seq<N>): set<N> {
    set n | n in s
  }

  /** The ring without one of its nodes, the others in their old order. */
  function Without<N(==)>(s: seq<N>, n: N): (r: seq<N>)
    ensures forall x :: x in r ==> x in s
    ensures forall x :: x in s && x != n ==> x in r
    ensures |r| <= |s|
    ensures n in s ==> |r| == |s| - 1
    ensures |s| > 0 && s[0] != n ==> |r| > 0 && r[0] == s[0]
  {
    if s == [] then [] else if s[0] == n then s[1..] else [s[0]] + Without(s[1..], n)
  }

  /** Without splices out exactly the node's position. */
  lemma {:induction false} WithoutSplices<N>(s: seq<N>, i: nat)
    requires i < |s| && NoneTwice(s)
    ensures Without(s, s[i]) == s[..i] + s[i + 1..]
  {
    if i > 0 {
      assert s[0] != s[i];
      var rest := s[1..];
      assert rest[i - 1] == s[i];
      WithoutSplices(rest, i - 1);
      assert rest[..i - 1] == s[1..i] && rest[i..] == s[i + 1..];
      assert [s[0]] + s[1..i] == s[..i];
    }
  }

  lemma SplicedDistinct<N>(s: seq<N>, i: nat)
    requires i < |s| && NoneTwice(s)
    ensures NoneTwice(s[..i] + s[i + 1..]) && s[i] !in s[..i] + s[i + 1..]
  {
  }

  lemma RingsTotal<N>(rings: RingMap<N>, place: map<N, Place>)
    requires RingsOk(rings, place)
    ensures forall p :: p in rings <==> IsPlace(p)
  {
  }

  lemma PlaceIsRing<N>(rings: RingMap<N>, place: map<N, Place>, n: N)
    requires RingsOk(rings, place) && n in place
    ensures IsPlace(place[n]) && place[n] in rings && n in rings[place[n]]
  {
  }

  lemma AppendKeepsRings<N>(rings: RingMap<N>, place: map<N, Place>, p: Place, n: N)
    requires RingsOk(rings, place) && IsPlace(p) && n !in place
    ensures RingsOk(rings[p := rings[p] + [n]], place[n := p])
  {
    assert forall q :: q in rings ==> n !in rings[q];
  }

  lemma RemoveKeepsRings<N>(rings: RingMap<N>, place: map<N, Place>, n: N)
    requires RingsOk(rings, place) && n in place
    ensures RingsOk(rings[place[n] := Without(rings[place[n]], n)], place - {n})
  {
    var p := place[n];
    var i :| 0 <= i < |rings[p]| && rings[p][i] == n;
    WithoutSplices(rings[p], i);
    SplicedDistinct(rings[p], i);
    var rings', place' := rings[p := Without(rings[p], n)], place - {n};
    forall q, m | q in rings' && m in rings'[q]
      ensures m in place' && place'[m] == q
    {
      assert m in rings[q];
    }
    forall m | m in place'
      ensures m in rings'[place'[m]]
    {
      assert m in rings[place[m]];
    }
  }

  lemma DetachKeepsRings<N>(rings: RingMap<N>, place: map<N, Place>, p: Place)
    requires RingsOk(rings, place) && IsPlace(p)
    ensures RingsOk(rings[p := []], place - Elements(rings[p]))
  {
    var place' := place - Elements(rings[p]);
    assert forall n :: n in place' <==> n in place && place[n] != p;
    var rings' := rings[p := []];
    forall q, n | q in rings' && n in rings'[q]
      ensures n in place' && place'[n] == q
    {
    }
  }

  lemma PopKeepsRings<N>(rings: RingMap<N>, place: map<N, Place>, p: Place)
    requires RingsOk(rings, place) && IsPlace(p) && rings[p] != []
    ensures RingsOk(rings[p := rings[p][1..]], place - {rings[p][0]})
  {
    assert Without(rings[p], rings[p][0]) == rings[p][1..];
    RemoveKeepsRings(rings, place, rings[p][0]);
  }
}
