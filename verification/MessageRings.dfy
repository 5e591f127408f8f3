/**
 The rings behind the priority message queue, and one stretch of each queue operation under the
 lock: from taking it, or from waking up, to returning or waiting.
 */
module MessageRings {
  import opened MessageQueue

  class MsgQueue {
    const ppbuf: array<Item>
    const capacity: nat
    var datasize: nat
    var putloc: nat
    var getloc: nat
    var waitingputthreadnum: int

    ghost predicate Valid()
      reads this`datasize, this`putloc, this`getloc
    {
      && ppbuf.Length == capacity && datasize <= capacity
      && (capacity == 0 ==> putloc == getloc == 0)
      && (capacity > 0 ==> getloc < capacity && putloc == (getloc + datasize) % capacity)
    }

    /** The stored items, oldest first. */
    ghost function Contents(): (s: seq<Item>)
      requires Valid()
      reads this`datasize, this`putloc, this`getloc, ppbuf
    {
      if getloc + datasize <= capacity then ppbuf[getloc..getloc + datasize]
      else ppbuf[getloc..] + ppbuf[..getloc + datasize - capacity]
    }

    ghost function AsLane(): Lane
      requires Valid()
      reads this, ppbuf
    {
      Lane(Contents(), capacity, waitingputthreadnum)
    }

    constructor (size: nat)
      ensures Valid() && fresh(ppbuf) && AsLane() == Lane([], size, 0)
    {
      ppbuf := new Item[size];
      capacity := size;
      datasize, putloc, getloc, waitingputthreadnum := 0, 0, 0, 0;
    }

    lemma Sized()
      requires Valid()
      ensures |Contents()| == datasize
    {
    }

    predicate IsFull()
      reads this
    {
      capacity == datasize
    }

    predicate IsEmpty()
      reads this
    {
      datasize <= 0
    }

    method Store(item: Item)
      requires Valid() && !IsFull()
      modifies this`putloc, this`datasize, ppbuf
      ensures Valid() && waitingputthreadnum == old(waitingputthreadnum) && Contents() == old(Contents()) + [item]
    {
      PutPosition(getloc, datasize, capacity);
      ppbuf[putloc] := item;
      putloc := putloc + 1;
      datasize := datasize + 1;
      if putloc == capacity {
        putloc := 0;
      }
      PutPosition(getloc, datasize, capacity);
    }

    method Take() returns (item: Item)
      requires Valid() && !IsEmpty()
      modifies this`getloc, this`datasize
      ensures Valid() && [item] + Contents() == old(Contents())
    {
      PutPosition(getloc, datasize, capacity);
      item := ppbuf[getloc];
      getloc := getloc + 1;
      datasize := datasize - 1;
      if getloc == capacity {
        getloc := 0;
      }
      PutPosition(getloc, datasize, capacity);
    }
  }

  lemma PutPosition(getloc: nat, datasize: nat, capacity: nat)
    requires getloc < capacity && datasize <= capacity
    ensures (getloc + datasize) % capacity
         == if getloc + datasize < capacity then getloc + datasize else getloc + datasize - capacity
  {
    var n := getloc + datasize;
    assert n / capacity == if n < capacity then 0 else 1 by {
      if n >= capacity {
        assert n == capacity + (n - capacity);
      }
    }
    assert n == capacity * (n / capacity) + n % capacity;
  }

  class MsgQueuePrio {
    const high: MsgQueue
    const medium: MsgQueue
    const low: MsgQueue
    var waitinggetthreadnum: int

    ghost predicate Valid()
      reads this, high, medium, low
    {
      && high.Valid() && medium.Valid() && low.Valid()
      && high != medium && medium != low && high != low
      && high.ppbuf != medium.ppbuf && medium.ppbuf != low.ppbuf && high.ppbuf != low.ppbuf
    }

    function Queue(p: Priority): MsgQueue {
      match p case High => high case Medium => medium case Low => low
    }

    ghost function Model(): (m: Monitor)
      requires Valid()
      reads this, high, medium, low, high.ppbuf, medium.ppbuf, low.ppbuf
      ensures Total(m.lanes) && forall p: Priority :: m.lanes[p] == Queue(p).AsLane()
    {
      Monitor(PerPriority(high.AsLane(), medium.AsLane(), low.AsLane()), waitinggetthreadnum)
    }

    constructor (highSize: nat, mediumSize: nat, lowSize: nat)
      ensures Valid()
      ensures high.AsLane() == Lane([], highSize, 0) && medium.AsLane() == Lane([], mediumSize, 0)
      ensures low.AsLane() == Lane([], lowSize, 0)
      ensures waitinggetthreadnum == 0
    {
      high := new MsgQueue(highSize);
      medium := new MsgQueue(mediumSize);
      low := new MsgQueue(lowSize);
      waitinggetthreadnum := 0;
    }

    /** An operation on one queue leaves the others as they were. */
    twostate lemma OneQueue(p: Priority)
      requires old(Valid()) && Valid()
      requires forall q: Priority :: q != p ==> unchanged(Queue(q)) && unchanged(Queue(q).ppbuf)
      ensures Model().lanes == old(Model()).lanes[p := Queue(p).AsLane()]
    {
      hide MsgQueue.Contents;
      forall q: Priority | q != p ensures Queue(q).AsLane() == old(Queue(q).AsLane()) {}
    }

    method PutQ(item: Item, p: Priority) returns (r: PutResult)
      requires Valid()
      modifies high, medium, low, high.ppbuf, medium.ppbuf, low.ppbuf
      ensures Valid() && (Model(), r) == DoPut(old(Model()), item, p)
    {
      hide MsgQueue.Contents;
      var q := Queue(p);
      q.Sized();
      if q.IsFull() {
        q.waitingputthreadnum := q.waitingputthreadnum + 1;
        OneQueue(p);
        return Blocks;
      }
      q.Store(item);
      OneQueue(p);
      return Put(waitinggetthreadnum != 0);
    }

    method GetQ() returns (r: GetResult)
      requires Valid()
      modifies this, high, medium, low
      ensures Valid() && (Model(), r) == DoGet(old(Model()))
    {
      hide MsgQueue.Contents;
      var p;
      high.Sized();
      medium.Sized();
      low.Sized();
      if !high.IsEmpty() {
        p := High;
      } else if !medium.IsEmpty() {
        p := Medium;
      } else if !low.IsEmpty() {
        p := Low;
      } else {
        waitinggetthreadnum := waitinggetthreadnum + 1;
        return Waits;
      }
      var q := Queue(p);
      ghost var before := q.Contents();
      var item := q.Take();
      assert before[0] == item && before[1..] == q.Contents();
      OneQueue(p);
      return Got(item, p, q.waitingputthreadnum != 0);
    }

    method LeavePutWait(p: Priority)
      requires Valid()
      modifies high, medium, low
      ensures Valid() && Model() == LeavePut(old(Model()), p)
    {
      hide MsgQueue.Contents;
      var q := Queue(p);
      q.waitingputthreadnum := q.waitingputthreadnum - 1;
      OneQueue(p);
    }

    method LeaveGetWait()
      requires Valid()
      modifies this
      ensures Valid() && Model() == LeaveGet(old(Model()))
    {
      hide MsgQueue.Contents, MsgQueue.Valid, PerPriority;
      waitinggetthreadnum := waitinggetthreadnum - 1;
    }
  }
}
