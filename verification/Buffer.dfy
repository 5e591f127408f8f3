/**
 The growing buffer that connections read into and parsers write to: of bytes, or of the characters of a text.
 */
module Buffers {

  class CBuffer<T(0)> {
    var base: array<T>
    var capacity: nat
    var loc: nat

    ghost predicate Valid()
      reads this
    {
      base.Length == capacity && loc <= capacity
    }

    ghost function Contents(): seq<T>
      requires Valid()
      reads this, base
    {
      base[..loc]
    }

    function Free(): int
      reads this
    {
      capacity - loc
    }

    constructor (size: nat)
      ensures Valid() && fresh(base) && capacity == size && Contents() == []
    {
      base := new T[size];
      capacity, loc := size, 0;
    }

    /** Reallocates; the bytes in use move to the new block. */
    method AddCapacity(more: nat)
      requires Valid()
      modifies this`base, this`capacity
      ensures Valid() && fresh(base) && capacity == old(capacity) + more && Contents() == old(Contents())
    {
      var block := new T[capacity + more];
      forall i | 0 <= i < loc {
        block[i] := base[i];
      }
      capacity := capacity + more;
      base := block;
    }

    /** Appends, growing to three times the capacity and the new bytes when there is no room. */
    method Append(bytes: seq<T>)
      requires Valid()
      modifies this, base
      ensures Valid() && Contents() == old(Contents()) + bytes
      ensures base == old(base) || fresh(base)
      ensures capacity == if old(loc) + |bytes| > old(capacity) then 3 * old(capacity) + |bytes| else old(capacity)
    {
      if loc + |bytes| > capacity {
        AddCapacity(capacity + |bytes| + capacity);
      }
      Fill(bytes);
      loc := loc + |bytes|;
    }

    /** Bytes written past the end of those in use: a copy, or the network filling the space offered to it. */
    method Fill(bytes: seq<T>)
      requires Valid() && loc + |bytes| <= capacity
      modifies base
      ensures base[..loc + |bytes|] == old(base[..loc]) + bytes
    {
      forall i | 0 <= i < |bytes| {
        base[loc + i] := bytes[i];
      }
    }

    /** Drops the bytes before `from`, moving the others to the front. */
    method KeepFrom(from: nat)
      requires Valid() && from <= loc
      modifies this`loc, base
      ensures Valid() && Contents() == old(Contents())[from..]
    {
      var n := loc - from;
      forall i | 0 <= i < n {
        base[i] := base[from + i];
      }
      loc := n;
    }
  }
}
