/**
 What several modules need to say of sequences.
 */
module Sequences {

  ghost predicate NoneTwice<T>(s: seq<T>) {
    forall i, j :: 0 <= i < j < |s| ==> s[i] != s[j]
  }

  function Drop<T>(s: seq<T>, i: nat): seq<T>
    requires i < |s|
  {
    s[..i] + s[i + 1..]
  }

  lemma DropOnce<T>(s: seq<T>, i: nat)
    requires NoneTwice(s) && i < |s|
    ensures NoneTwice(Drop(s, i)) && s[i] !in Drop(s, i)
  {
  }

  lemma OnlyThere<T>(s: seq<T>, i: nat)
    requires NoneTwice(s) && i < |s|
    ensures forall k :: 0 <= k < |s| && k != i ==> s[k] != s[i]
  {
  }

  lemma OneMoreOnce<T>(s: seq<T>, x: T)
    requires NoneTwice(s) && x !in s
    ensures NoneTwice(s + [x])
  {
  }

  /** Counting says the same. */
  lemma {:induction false} NoneTwiceCounts<T>(s: seq<T>)
    ensures NoneTwice(s) <==> forall x :: multiset(s)[x] <= 1
    decreases |s|
  {
    if s != [] {
      var init, last := s[..|s| - 1], s[|s| - 1];
      assert s == init + [last];
      NoneTwiceCounts(init);
      if NoneTwice(s) {
        assert NoneTwice(init) && last !in init;
      } else if NoneTwice(init) {
        assert last in init;
        assert multiset(s)[last] > 1;
      } else {
        var x :| multiset(init)[x] > 1;
        assert multiset(s)[x] > 1;
      }
    }
  }
}
