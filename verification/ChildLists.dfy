/**
 The children of an XML node: a doubly linked list between the node's first and last child. Unlinking and inserting
 change the pointers as they change the sequence of children.
 */
module ChildLists {
  import opened Sequences

  class XMLNode {
    /** Identifies the document the node belongs to. */
    const document: nat
    var parent: XMLNode?
    var prev: XMLNode?
    var next: XMLNode?
    var firstChild: XMLNode?
    var lastChild: XMLNode?

    constructor (document: nat)
      ensures this.document == document && parent == null && Kids(this, [])
    {
      this.document := document;
      parent, prev, next, firstChild, lastChild := null, null, null, null, null;
    }

    /** Takes a child out of the list. Its own links to its siblings stay as they are. */
    method Unlink(child: XMLNode, ghost s: seq<XMLNode>, ghost i: nat)
      requires Kids(this, s) && i < |s| && s[i] == child
      modifies this`firstChild, this`lastChild, child`parent, s`prev, s`next
      ensures Kids(this, Drop(s, i)) && child.parent == null
      ensures child.prev == old(child.prev) && child.next == old(child.next)
    {
      DropOnce(s, i);
      UnlinkEnds(child, s, i);
      hide Row, Ends, NoneTwice, Owned;
      Bypass(child, s, i);
      assert Ends(this, Drop(s, i));
      Disown(child, s, i);
      assert Ends(this, Drop(s, i)) && Row(Drop(s, i));
    }

    method Disown(child: XMLNode, ghost s: seq<XMLNode>, ghost i: nat)
      requires NoneTwice(s) && Owned(this, s) && i < |s| && s[i] == child
      modifies child`parent
      ensures child.parent == null && Owned(this, Drop(s, i))
    {
      child.parent := null;
    }

    method UnlinkEnds(child: XMLNode, ghost s: seq<XMLNode>, ghost i: nat)
      requires Kids(this, s) && i < |s| && s[i] == child
      modifies this`firstChild, this`lastChild
      ensures Ends(this, Drop(s, i))
    {
      EndsAfter(s, i);
      if child == firstChild {
        firstChild := firstChild.next;
      }
      if child == lastChild {
        lastChild := lastChild.prev;
      }
    }

    /** Links a node that has no parent in at the end. */
    method AttachEnd(node: XMLNode, ghost s: seq<XMLNode>)
      requires Kids(this, s) && node.parent == null && node != this
      modifies this`firstChild, this`lastChild, node`parent, node`prev, node`next, s`next
      ensures Kids(this, s + [node])
    {
      Orphan(this, s, node);
      if lastChild != null {
        lastChild.next := node;
        node.prev := lastChild;
        lastChild := node;
        node.next := null;
      } else {
        firstChild := node;
        lastChild := node;
        node.prev := null;
        node.next := null;
      }
      node.parent := this;
    }

    /** Links a node that has no parent in at the front. */
    method AttachFirst(node: XMLNode, ghost s: seq<XMLNode>)
      requires Kids(this, s) && node.parent == null && node != this
      modifies this`firstChild, this`lastChild, node`parent, node`prev, node`next, s`prev
      ensures Kids(this, [node] + s)
    {
      Orphan(this, s, node);
      if firstChild != null {
        firstChild.prev := node;
        node.next := firstChild;
        firstChild := node;
        node.prev := null;
      } else {
        firstChild := node;
        lastChild := node;
        node.prev := null;
        node.next := null;
      }
      node.parent := this;
    }

    /** Links a node that has no parent in behind the j-th child, which is not the last. */
    method AttachAfter(anchor: XMLNode, node: XMLNode, ghost s: seq<XMLNode>, ghost j: nat)
      requires Kids(this, s) && node.parent == null && node != this && j + 1 < |s| && s[j] == anchor
      modifies node`parent, node`prev, node`next, s`prev, s`next
      ensures Kids(this, Insert(s, j, node))
    {
      Orphan(this, s, node);
      InsertOnce(s, j, node);
      hide Row, NoneTwice, Ends;
      LinkBetween(anchor, node, s, j);
      node.parent := this;
      assert Ends(this, Insert(s, j, node)) by { InsertEnds(this, s, j, node); }
    }

    // -------------------------------------------------------------- inserting, from wherever a node is

    /**
     Takes a node from its parent, if it has one. `t` are its siblings and itself, the i-th; `s` the children of this
     node.
     */
    method Release(node: XMLNode, ghost s: seq<XMLNode>, ghost t: seq<XMLNode>, ghost i: nat)
      requires Kids(this, s) && Placed(node, t, i) && (node.parent == this ==> t == s)
      modifies Above(node)`firstChild, Above(node)`lastChild, node`parent, t`prev, t`next
      ensures node.parent == null && Kids(this, Rest(s, old(node.parent) == this, i))
      ensures old(node.parent) != null ==> Kids(old(node.parent), Drop(t, i))
      ensures node.prev == old(node.prev) && node.next == old(node.next)
    {
      if node.parent != null {
        OtherKids(this, s, node.parent, t);
        hide Row, NoneTwice;
        node.parent.Unlink(node, t, i);
      }
    }

    method InsertEndChild(addThis: XMLNode, ghost s: seq<XMLNode>, ghost t: seq<XMLNode>, ghost i: nat)
      returns (r: XMLNode?)
      requires Kids(this, s) && Placed(addThis, t, i) && (addThis.parent == this ==> t == s) && addThis != this
      modifies this`firstChild, this`lastChild, Above(addThis)`firstChild, Above(addThis)`lastChild, addThis`parent,
        addThis`prev, addThis`next, t`prev, t`next, s`prev, s`next
      ensures r == if addThis.document == document then addThis else null
      ensures r == null ==> Kids(this, s)
      ensures r != null ==> Kids(this, Rest(s, old(addThis.parent) == this, i) + [addThis])
      ensures r != null && old(addThis.parent) != null && old(addThis.parent) != this ==>
                Kids(old(addThis.parent), Drop(t, i))
    {
      hide Kids, Placed;
      PlacedHere(addThis, s, t, i, this);
      if addThis.document != document {
        return null;
      }
      Release(addThis, s, t, i);
      ghost var rest, p := Rest(s, old(addThis.parent) == this, i), old(addThis.parent);
      if p != null && p != this {
        Elsewhere(this, rest, p, Drop(t, i), addThis);
      }
      AttachEnd(addThis, rest);
      return addThis;
    }

    method InsertFirstChild(addThis: XMLNode, ghost s: seq<XMLNode>, ghost t: seq<XMLNode>, ghost i: nat)
      returns (r: XMLNode?)
      requires Kids(this, s) && Placed(addThis, t, i) && (addThis.parent == this ==> t == s) && addThis != this
      modifies this`firstChild, this`lastChild, Above(addThis)`firstChild, Above(addThis)`lastChild, addThis`parent,
        addThis`prev, addThis`next, t`prev, t`next, s`prev, s`next
      ensures r == if addThis.document == document then addThis else null
      ensures r == null ==> Kids(this, s)
      ensures r != null ==> Kids(this, [addThis] + Rest(s, old(addThis.parent) == this, i))
      ensures r != null && old(addThis.parent) != null && old(addThis.parent) != this ==>
                Kids(old(addThis.parent), Drop(t, i))
    {
      hide Kids, Placed;
      PlacedHere(addThis, s, t, i, this);
      if addThis.document != document {
        return null;
      }
      Release(addThis, s, t, i);
      ghost var rest, p := Rest(s, old(addThis.parent) == this, i), old(addThis.parent);
      if p != null && p != this {
        Elsewhere(this, rest, p, Drop(t, i), addThis);
      }
      AttachFirst(addThis, rest);
      return addThis;
    }

    /** What linking a child behind itself comes to. */
    method LinkBehindItself(node: XMLNode, ghost s: seq<XMLNode>, ghost j: nat)
      requires j + 1 < |s| && node.next == s[j + 1] != node
      modifies node`parent, node`prev, node`next, s`prev
      ensures node.next == node
    {
      node.prev := node;
      node.next := node.next;
      node.next.prev := node;
      node.next := node;
      node.parent := this;
    }

    /**
     Behind the child `afterThis`, the j-th. Adding the last child behind the one before it is left to the caller not
     to do: the source then follows a null pointer. Adding a child behind itself spoils the list, unless it is the
     last.
     */
    method InsertAfterChild(afterThis: XMLNode, addThis: XMLNode, ghost s: seq<XMLNode>, ghost j: nat,
                            ghost t: seq<XMLNode>, ghost i: nat) returns (r: XMLNode?)
      requires Kids(this, s) && Placed(addThis, t, i) && (addThis.parent == this ==> t == s) && addThis != this
      requires afterThis.parent == this ==> j < |s| && s[j] == afterThis
      requires afterThis.parent == this && addThis.document == document ==>
                !(afterThis.next == addThis && addThis.next == null)
      modifies this`firstChild, this`lastChild, Above(addThis)`firstChild, Above(addThis)`lastChild, addThis`parent,
        addThis`prev, addThis`next, t`prev, t`next, s`prev, s`next
      ensures r == if addThis.document == document && old(afterThis.parent) == this then addThis else null
      ensures r == null ==> Kids(this, s)
      ensures r != null && addThis != afterThis ==>
                Kids(this, Behind(Rest(s, old(addThis.parent) == this, i),
                  Position(old(addThis.parent) == this, i, j), addThis))
      ensures r != null && addThis == afterThis ==>
                if old(afterThis.next) == null then Kids(this, s)
                else forall q: seq<XMLNode> :: Kids(this, q) ==> addThis !in q
      ensures r != null && old(addThis.parent) != null && old(addThis.parent) != this ==>
                Kids(old(addThis.parent), Drop(t, i))
    {
      if addThis.document != document {
        return null;
      }
      if afterThis.parent != this {
        return null;
      }
      ghost var among := addThis.parent == this;
      AfterPlace(this, s, j, among, i, addThis);
      if afterThis.next == null {
        r := InsertEndChild(addThis, s, t, i);
        return;
      }
      hide Row, NoneTwice, Ends;
      if afterThis == addThis {
        InsertBehindItself(addThis, s, j);
      } else {
        InsertMiddle(afterThis, addThis, s, j, t, i);
      }
      return addThis;
    }

    /** Behind another child that is not the last. */
    method InsertMiddle(afterThis: XMLNode, addThis: XMLNode, ghost s: seq<XMLNode>, ghost j: nat,
                        ghost t: seq<XMLNode>, ghost i: nat)
      requires Kids(this, s) && Placed(addThis, t, i) && (addThis.parent == this ==> t == s) && addThis != this
      requires j < |s| - 1 && s[j] == afterThis != addThis
      requires !(addThis.parent == this && i == j + 1 == |s| - 1)
      modifies this`firstChild, this`lastChild, Above(addThis)`firstChild, Above(addThis)`lastChild, addThis`parent,
        addThis`prev, addThis`next, t`prev, t`next, s`prev, s`next
      ensures Kids(this, Behind(Rest(s, old(addThis.parent) == this, i),
                           Position(old(addThis.parent) == this, i, j), addThis))
      ensures old(addThis.parent) != null && old(addThis.parent) != this ==> Kids(old(addThis.parent), Drop(t, i))
    {
      hide Kids, Behind, Insert, Position, Placed;
      PlacedHere(addThis, s, t, i, this);
      ghost var among := addThis.parent == this;
      ghost var rest, p := Rest(s, among, i), addThis.parent;
      MiddlePlace(this, s, j, among, i, addThis);
      Release(addThis, s, t, i);
      if p != null && p != this {
        Elsewhere(this, rest, p, Drop(t, i), addThis);
      }
      AttachAfter(afterThis, addThis, rest, Position(among, i, j));
    }

    /** Behind itself, which is not the last. */
    method InsertBehindItself(child: XMLNode, ghost s: seq<XMLNode>, ghost j: nat)
      requires Kids(this, s) && j < |s| - 1 && s[j] == child
      modifies this`firstChild, this`lastChild, child`parent, s`prev, s`next
      ensures forall q: seq<XMLNode> :: Kids(this, q) ==> child !in q
    {
      hide Kids;
      NextOther(this, s, j);
      assert child.parent == this by { Own(this, s, j); }
      child.parent.Unlink(child, s, j);
      LinkBehindItself(child, s, j);
      SelfLoop(this, child);
    }
  }

  /** Where things are before a node is put behind the j-th. */
  lemma AfterPlace(p: XMLNode, s: seq<XMLNode>, j: nat, among: bool, i: nat, node: XMLNode)
    requires Kids(p, s) && j < |s|
    requires if among then i < |s| && s[i] == node else node.parent != p
    ensures s[j].next == null <==> j == |s| - 1
    ensures j < |s| - 1 ==> s[j].next == s[j + 1]
    ensures s[j] == node <==> among && i == j
    ensures among && i == j + 1 == |s| - 1 ==> s[j].next == node && node.next == null
    ensures among && i == j == |s| - 1 ==> Rest(s, among, i) + [node] == s
    ensures var rest, k := Rest(s, among, i), Position(among, i, j);
            s[j] != node ==>
              && k < |rest| && rest[k] == s[j]
              && (j == |s| - 1 ==> Behind(rest, k, node) == rest + [node])
              && (j < |s| - 1 && !(among && i == j + 1 == |s| - 1) ==> k + 1 < |rest|)
  {
    hide Rest, Position, Behind, Kids;
    NextOf(p, s, j);
    Own(p, s, j);
    if among {
      NextOf(p, s, i);
      EachOnce(p, s, i, j);
    }
    if s[j] != node {
      PlaceInRest(s, j, among, i, node);
    }
    if among && i == |s| - 1 {
      LastAgain(s, i);
    }
  }

  lemma NextOf(p: XMLNode, s: seq<XMLNode>, j: nat)
    requires Kids(p, s) && j < |s|
    ensures s[j].next == if j == |s| - 1 then null else s[j + 1]
  {
  }

  lemma EachOnce(p: XMLNode, s: seq<XMLNode>, i: nat, j: nat)
    requires Kids(p, s) && i < |s| && j < |s|
    ensures s[i] == s[j] <==> i == j
  {
  }

  lemma PlaceInRest(s: seq<XMLNode>, j: nat, among: bool, i: nat, node: XMLNode)
    requires j < |s| && s[j] != node && (among ==> i < |s| && s[i] == node)
    ensures var rest, k := Rest(s, among, i), Position(among, i, j);
            && k < |rest| && rest[k] == s[j]
            && (j == |s| - 1 ==> Behind(rest, k, node) == rest + [node])
            && (j < |s| - 1 && !(among && i == j + 1 == |s| - 1) ==> k + 1 < |rest|)
  {
    hide Drop, Insert;
    if among {
      DropAt(s, i);
      assert i != j;
    }
    var rest, k := Rest(s, among, i), Position(among, i, j);
    if k == |rest| - 1 {
      InsertLast(rest, k, node);
    }
  }

  lemma InsertLast(rest: seq<XMLNode>, k: nat, node: XMLNode)
    requires k == |rest| - 1
    ensures Insert(rest, k, node) == rest + [node]
  {
    assert rest[..k + 1] == rest && rest[k + 1..] == [];
  }

  lemma LastAgain(s: seq<XMLNode>, i: nat)
    requires i == |s| - 1
    ensures Rest(s, true, i) + [s[i]] == s
  {
  }

  lemma PlacedHere(node: XMLNode, s: seq<XMLNode>, t: seq<XMLNode>, i: nat, p: XMLNode)
    requires Placed(node, t, i) && (node.parent == p ==> t == s)
    ensures node.parent == p ==> i < |s| && s[i] == node
    ensures node.parent != null ==> i < |t| && t[i] == node
  {
  }

  lemma MiddlePlace(p: XMLNode, s: seq<XMLNode>, j: nat, among: bool, i: nat, node: XMLNode)
    requires Kids(p, s) && j < |s| - 1 && s[j] != node && !(among && i == j + 1 == |s| - 1)
    requires if among then i < |s| && s[i] == node else node.parent != p
    ensures var rest, k := Rest(s, among, i), Position(among, i, j);
            k + 1 < |rest| && rest[k] == s[j] && Behind(rest, k, node) == Insert(rest, k, node)
  {
  }

  lemma Own(p: XMLNode, s: seq<XMLNode>, j: nat)
    requires Kids(p, s) && j < |s|
    ensures s[j].parent == p
  {
  }

  lemma NextOther(p: XMLNode, s: seq<XMLNode>, j: nat)
    requires Kids(p, s) && j + 1 < |s|
    ensures s[j].next == s[j + 1] != s[j]
  {
  }

  lemma SelfLoop(p: XMLNode, node: XMLNode)
    requires node.next == node
    ensures forall q: seq<XMLNode> :: Kids(p, q) ==> node !in q
  {
    forall q: seq<XMLNode> | Kids(p, q) ensures node !in q {
      NotSelfLinked(p, q, node);
    }
  }

  lemma NotSelfLinked(p: XMLNode, q: seq<XMLNode>, node: XMLNode)
    requires Kids(p, q) && node.next == node
    ensures node !in q
  {
    forall k | 0 <= k < |q| ensures q[k] != node {
      if k < |q| - 1 {
        assert q[k].next == q[k + 1] && q[k] != q[k + 1];
      }
    }
  }

  /** Where the j-th stands when the i-th has left. */
  ghost function Position(among: bool, i: nat, j: nat): nat {
    if among && i < j then j - 1 else j
  }

  /** `s` with a node behind its j-th; at the end, if there is none. */
  ghost function Behind(s: seq<XMLNode>, j: nat, node: XMLNode): seq<XMLNode> {
    if j < |s| then Insert(s, j, node) else s + [node]
  }

  /** The parent of a node, if it has one. */
  ghost function Above(node: XMLNode): set<XMLNode>
    reads node`parent
  {
    if node.parent == null then {} else {node.parent}
  }

  /** A node is the i-th of `t`, the children of its parent; or it has no parent, and `t` is empty. */
  ghost predicate Placed(node: XMLNode, t: seq<XMLNode>, i: nat)
    reads node`parent, Above(node)`firstChild, Above(node)`lastChild, t`parent, t`prev, t`next
  {
    if node.parent == null then t == [] else Kids(node.parent, t) && i < |t| && t[i] == node
  }

  /** What is left of `s` when its i-th leaves, if it is one of `s` that leaves. */
  ghost function Rest(s: seq<XMLNode>, among: bool, i: nat): seq<XMLNode> {
    if among && i < |s| then Drop(s, i) else s
  }

  /** The children of two parents are different nodes. */
  lemma OtherKids(p: XMLNode, s: seq<XMLNode>, q: XMLNode, t: seq<XMLNode>)
    requires Kids(p, s) && Kids(q, t)
    ensures p != q ==> forall j, k :: 0 <= j < |s| && 0 <= k < |t| ==> s[j] != t[k]
  {
  }

  lemma Elsewhere(p: XMLNode, s: seq<XMLNode>, q: XMLNode, t: seq<XMLNode>, node: XMLNode)
    requires Kids(p, s) && Kids(q, t) && p != q && node.parent == null
    ensures forall j, k :: 0 <= j < |s| && 0 <= k < |t| ==> s[j] != t[k]
    ensures forall k :: 0 <= k < |t| ==> t[k] != node
  {
  }

  /** `s` with a node behind its j-th. */
  function Insert(s: seq<XMLNode>, j: nat, node: XMLNode): seq<XMLNode>
    requires j < |s|
  {
    s[..j + 1] + [node] + s[j + 1..]
  }

  lemma InsertEnds(p: XMLNode, s: seq<XMLNode>, j: nat, node: XMLNode)
    requires Ends(p, s) && j + 1 < |s|
    ensures Ends(p, Insert(s, j, node))
  {
  }

  lemma InsertOnce(s: seq<XMLNode>, j: nat, node: XMLNode)
    requires NoneTwice(s) && j < |s| && forall k :: 0 <= k < |s| ==> s[k] != node
    ensures NoneTwice(Insert(s, j, node))
  {
  }

  method LinkBetween(anchor: XMLNode, node: XMLNode, ghost s: seq<XMLNode>, ghost j: nat)
    requires NoneTwice(s) && Row(s) && j + 1 < |s| && s[j] == anchor && forall k :: 0 <= k < |s| ==> s[k] != node
    modifies node`prev, node`next, s`prev, s`next
    ensures Row(Insert(s, j, node))
  {
    ghost var next, prev := RowPointers(s);
    hide Row;
    PointBetween(anchor, node, s, next, prev, j);
    RowInsert(s, next, prev, j, node);
  }

  method PointBetween(anchor: XMLNode, node: XMLNode, ghost s: seq<XMLNode>, ghost next: seq<XMLNode?>,
                      ghost prev: seq<XMLNode?>, ghost j: nat)
    requires NoneTwice(s) && Pointers(s, next, prev) && Links(s, next, prev) && j + 1 < |s| && s[j] == anchor
    requires forall k :: 0 <= k < |s| ==> s[k] != node
    modifies node`prev, node`next, s`prev, s`next
    ensures Pointers(s, next[j := node], prev[j + 1 := node]) && node.prev == s[j] && node.next == s[j + 1]
  {
    hide NoneTwice, Links;
    OnlyThere(s, j);
    OnlyThere(s, j + 1);
    NextInPlace(s, next, prev, j);
    node.prev := anchor;
    node.next := anchor.next;
    anchor.next.prev := node;
    anchor.next := node;
  }

  lemma NextInPlace(s: seq<XMLNode>, next: seq<XMLNode?>, prev: seq<XMLNode?>, j: nat)
    requires Pointers(s, next, prev) && Links(s, next, prev) && j + 1 < |s|
    ensures s[j].next == s[j + 1] && s[j + 1].prev == s[j]
  {
  }

  lemma RowInsert(s: seq<XMLNode>, next: seq<XMLNode?>, prev: seq<XMLNode?>, j: nat, node: XMLNode)
    requires Links(s, next, prev) && j + 1 < |s|
    requires Pointers(s, next[j := node], prev[j + 1 := node]) && node.prev == s[j] && node.next == s[j + 1]
    ensures Row(Insert(s, j, node))
  {
    var r := Insert(s, j, node);
    forall k | 0 <= k < |r| - 1 ensures r[k].next == r[k + 1] && r[k + 1].prev == r[k] {
      if k < j {
        assert r[k] == s[k] && r[k + 1] == s[k + 1];
      } else if k > j + 1 {
        assert r[k] == s[k - 1] && r[k + 1] == s[k];
      } else {
        assert r[j] == s[j] && r[j + 1] == node && r[j + 2] == s[j + 1];
      }
    }
  }

  lemma Orphan(p: XMLNode, s: seq<XMLNode>, node: XMLNode)
    requires Kids(p, s) && node.parent != p
    ensures forall k :: 0 <= k < |s| ==> s[k] != node
  {
  }

  // ---------------------------------------------------------------- rows of siblings

  /** With these pointers each one of `s` is linked, both ways, to the one after it, and the ends to nothing. */
  ghost predicate Links(s: seq<XMLNode>, next: seq<XMLNode?>, prev: seq<XMLNode?>) {
    && |next| == |prev| == |s|
    && (forall i :: 0 <= i < |s| - 1 ==> next[i] == s[i + 1])
    && (forall i :: 0 < i < |s| ==> prev[i] == s[i - 1])
    && (s != [] ==> prev[0] == null && next[|s| - 1] == null)
  }

  ghost predicate Pointers(s: seq<XMLNode>, next: seq<XMLNode?>, prev: seq<XMLNode?>)
    reads s`prev, s`next
  {
    && |next| == |prev| == |s|
    && forall i :: 0 <= i < |s| ==> s[i].next == next[i] && s[i].prev == prev[i]
  }

  ghost predicate Row(s: seq<XMLNode>)
    reads s`prev, s`next
  {
    && (forall i :: 0 <= i < |s| - 1 ==> s[i].next == s[i + 1])
    && (forall i :: 0 < i < |s| ==> s[i].prev == s[i - 1])
    && (s != [] ==> s[0].prev == null && s[|s| - 1].next == null)
  }

  ghost predicate Ends(p: XMLNode, s: seq<XMLNode>)
    reads p`firstChild, p`lastChild
  {
    && p.firstChild == (if s == [] then null else s[0])
    && p.lastChild == (if s == [] then null else s[|s| - 1])
  }

  ghost predicate Owned(p: XMLNode?, s: seq<XMLNode>)
    reads s`parent
  {
    forall i :: 0 <= i < |s| ==> s[i].parent == p
  }

  /** The children of `p`, in order. */
  ghost predicate Kids(p: XMLNode, s: seq<XMLNode>)
    reads p`firstChild, p`lastChild, s`parent, s`prev, s`next
  {
    NoneTwice(s) && Row(s) && Ends(p, s) && Owned(p, s)
  }

  // ---------------------------------------------------------------- pointers as values

  ghost function Nexts(s: seq<XMLNode>): (r: seq<XMLNode?>)
    reads s`next
    ensures |r| == |s| && forall i :: 0 <= i < |s| ==> r[i] == s[i].next
  {
    if s == [] then [] else [s[0].next] + Nexts(s[1..])
  }

  ghost function Prevs(s: seq<XMLNode>): (r: seq<XMLNode?>)
    reads s`prev
    ensures |r| == |s| && forall i :: 0 <= i < |s| ==> r[i] == s[i].prev
  {
    if s == [] then [] else [s[0].prev] + Prevs(s[1..])
  }

  lemma RowPointers(s: seq<XMLNode>) returns (next: seq<XMLNode?>, prev: seq<XMLNode?>)
    requires Row(s)
    ensures Pointers(s, next, prev) && Links(s, next, prev)
  {
    next, prev := Nexts(s), Prevs(s);
  }

  lemma RowMade(s: seq<XMLNode>, next: seq<XMLNode?>, prev: seq<XMLNode?>)
    requires Pointers(s, next, prev) && Links(s, next, prev)
    ensures Row(s)
  {
  }

  /** The pointers forward when the i-th is passed over, and those backward. */
  function Skipped(next: seq<XMLNode?>, i: nat): seq<XMLNode?>
    requires i < |next|
  {
    if i > 0 then next[i - 1 := next[i]] else next
  }

  function Bridged(prev: seq<XMLNode?>, i: nat): seq<XMLNode?>
    requires i < |prev|
  {
    if i + 1 < |prev| then prev[i + 1 := prev[i]] else prev
  }

  lemma RowSkip(s: seq<XMLNode>, next: seq<XMLNode?>, prev: seq<XMLNode?>, i: nat)
    requires Links(s, next, prev) && i < |s|
    ensures Links(Drop(s, i), Drop(Skipped(next, i), i), Drop(Bridged(prev, i), i))
  {
    hide Drop, Skipped, Bridged;
    SkipForward(s, next, i);
    SkipBackward(s, prev, i);
  }

  lemma DropAt<T>(s: seq<T>, i: nat)
    requires i < |s|
    ensures |Drop(s, i)| == |s| - 1
    ensures forall k {:trigger Drop(s, i)[k]} :: 0 <= k < i ==> Drop(s, i)[k] == s[k]
    ensures forall k {:trigger Drop(s, i)[k]} :: i <= k < |s| - 1 ==> Drop(s, i)[k] == s[k + 1]
  {
  }

  lemma SkippedAt(next: seq<XMLNode?>, i: nat)
    requires i < |next|
    ensures |Skipped(next, i)| == |next|
    ensures forall k {:trigger Skipped(next, i)[k]} ::
              0 <= k < |next| ==> Skipped(next, i)[k] == if k == i - 1 then next[i] else next[k]
  {
  }

  lemma BridgedAt(prev: seq<XMLNode?>, i: nat)
    requires i < |prev|
    ensures |Bridged(prev, i)| == |prev|
    ensures forall k {:trigger Bridged(prev, i)[k]} ::
              0 <= k < |prev| ==> Bridged(prev, i)[k] == if k == i + 1 then prev[i] else prev[k]
  {
  }

  lemma SkipForward(s: seq<XMLNode>, next: seq<XMLNode?>, i: nat)
    requires |next| == |s| > i && next[|s| - 1] == null
    requires forall k :: 0 <= k < |s| - 1 ==> next[k] == s[k + 1]
    ensures var t, after := Drop(s, i), Drop(Skipped(next, i), i);
            && |after| == |t| == |s| - 1
            && (t != [] ==> after[|t| - 1] == null)
            && forall k :: 0 <= k < |t| - 1 ==> after[k] == t[k + 1]
  {
    hide Drop, Skipped;
    DropAt(s, i);
    SkippedAt(next, i);
    DropAt(Skipped(next, i), i);
  }

  lemma SkipBackward(s: seq<XMLNode>, prev: seq<XMLNode?>, i: nat)
    requires |prev| == |s| > i && prev[0] == null
    requires forall k :: 0 < k < |s| ==> prev[k] == s[k - 1]
    ensures var t, before := Drop(s, i), Drop(Bridged(prev, i), i);
            && |before| == |t| == |s| - 1
            && (t != [] ==> before[0] == null)
            && forall k :: 0 < k < |t| ==> before[k] == t[k - 1]
  {
    hide Drop, Bridged;
    DropAt(s, i);
    BridgedAt(prev, i);
    DropAt(Bridged(prev, i), i);
  }

  lemma PointersDrop(s: seq<XMLNode>, next: seq<XMLNode?>, prev: seq<XMLNode?>, k: nat)
    requires Pointers(s, next, prev) && k < |s|
    ensures Pointers(Drop(s, k), Drop(next, k), Drop(prev, k))
  {
  }

  /** Where the ends of a row are when one is taken out. */
  lemma EndsAfter(s: seq<XMLNode>, i: nat)
    requires NoneTwice(s) && Row(s) && i < |s|
    ensures s[i] == s[0] <==> i == 0
    ensures s[i] == s[|s| - 1] <==> i == |s| - 1
    ensures i == 0 ==> s[0].next == if |s| == 1 then null else Drop(s, 0)[0]
    ensures i == |s| - 1 ==> s[i].prev == if |s| == 1 then null else Drop(s, i)[|s| - 2]
    ensures i > 0 ==> Drop(s, i)[0] == s[0]
    ensures i < |s| - 1 ==> Drop(s, i)[|s| - 2] == s[|s| - 1]
  {
  }

  /** What the pointers of a sibling lead to, and that it is nobody else. */
  lemma NeighboursOf(s: seq<XMLNode>, next: seq<XMLNode?>, prev: seq<XMLNode?>, i: nat)
    requires NoneTwice(s) && Pointers(s, next, prev) && Links(s, next, prev) && i < |s|
    ensures |next| == |prev| == |s|
    ensures s[i].prev == if i == 0 then null else s[i - 1]
    ensures s[i].next == if i == |s| - 1 then null else s[i + 1]
    ensures forall k :: 0 <= k < |s| && k != i ==> s[k] != s[i]
    ensures i > 0 ==> forall k :: 0 <= k < |s| && k != i - 1 ==> s[k] != s[i - 1]
    ensures i < |s| - 1 ==> forall k :: 0 <= k < |s| && k != i + 1 ==> s[k] != s[i + 1]
  {
    OnlyThere(s, i);
    if i > 0 {
      OnlyThere(s, i - 1);
    }
    if i < |s| - 1 {
      OnlyThere(s, i + 1);
    }
  }

  /** Joins the siblings on either side of a node. */
  method Relink(child: XMLNode, ghost s: seq<XMLNode>, ghost next: seq<XMLNode?>, ghost prev: seq<XMLNode?>,
                ghost i: nat)
    requires NoneTwice(s) && Pointers(s, next, prev) && Links(s, next, prev) && i < |s| && s[i] == child
    modifies s`prev, s`next
    ensures Pointers(s, Skipped(next, i), Bridged(prev, i))
    ensures child.prev == old(child.prev) && child.next == old(child.next)
  {
    hide NoneTwice, Links;
    NeighboursOf(s, next, prev, i);
    if child.prev != null {
      child.prev.next := child.next;
    }
    if child.next != null {
      child.next.prev := child.prev;
    }
  }

  /** Takes a node out of its row. */
  method Bypass(child: XMLNode, ghost s: seq<XMLNode>, ghost i: nat)
    requires NoneTwice(s) && Row(s) && i < |s| && s[i] == child
    modifies s`prev, s`next
    ensures Row(Drop(s, i)) && child.prev == old(child.prev) && child.next == old(child.next)
  {
    ghost var next, prev := RowPointers(s);
    RowSkip(s, next, prev, i);
    hide Row, Links, NoneTwice;
    Relink(child, s, next, prev, i);
    PointersDrop(s, Skipped(next, i), Bridged(prev, i), i);
    hide Pointers, Skipped, Bridged;
    RowMade(Drop(s, i), Drop(Skipped(next, i), i), Drop(Bridged(prev, i), i));
  }
}
