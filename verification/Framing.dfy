/**
 A connection's input as a whole: bytes arrive in pieces, frames are taken off the front, the
 unfinished rest is kept.
 */
module Framing {
  import opened Thrift

  datatype Outcome = Pending | Broken(error: Decoded)

  /** The messages taken off the front of `s`, the bytes left over, and whether more may follow. */
  datatype Split = Split(messages: seq<Message>, rest: Bytes, outcome: Outcome)

  function DecodeAll(s: Bytes): (r: Split)
    ensures |r.rest| <= |s|
    decreases |s|
  {
    if s == [] then Split([], [], Pending)
    else
      match Decode(s)
      case Frame(m, n) =>
        var more := DecodeAll(s[n..]);
        Split([m] + more.messages, more.rest, more.outcome)
      case Incomplete => Split([], s, Pending)
      case error => Split([], s, Broken(error))
  }

  /**
   Every frame that comes to be taken off the front is long enough for its method; each begins where the size before
   says.
   */
  predicate AllCovered(s: Bytes)
    decreases |s|
  {
    s != [] ==>
      && SizeCoversMethod(s)
      && (PassesTests(s) ==> AllCovered(s[(FrameSize(s) + 4) % TWO_TO_THE_32..]))
  }

  /** A buffer is decoded without reading past its end exactly when its frames are long enough for their methods. */
  lemma {:induction false} ReadsPastBuffer(s: Bytes)
    requires |s| < TWO_TO_THE_32
    ensures DecodeAll(s).outcome == Broken(OutOfBounds) <==> !AllCovered(s)
    decreases |s|
  {
    hide Decode, SizeCoversMethod, PassesTests;
    if s != [] {
      ReadsPastEnd(s);
      if Decode(s).Frame? {
        ReadsPastBuffer(s[Decode(s).length..]);
      }
    }
  }

  function Concat(parts: seq<Bytes>): Bytes {
    if parts == [] then [] else parts[0] + Concat(parts[1..])
  }

  ghost predicate AllWellFormed(frames: seq<Bytes>) {
    forall i :: 0 <= i < |frames| ==> WellFormed(frames[i])
  }

  ghost function Messages(frames: seq<Bytes>): seq<Message>
    requires AllWellFormed(frames)
  {
    if frames == [] then [] else [MessageOf(frames[0])] + Messages(frames[1..])
  }

  // ---------------------------------------------------------------- one buffer full

  /**
   What `DecodeAll` does to the start of a stream of well-formed frames: `taken` frames leave, `held` is kept, which is
   less than the next frame.
   */
  datatype Progress = Progress(taken: nat, held: Bytes)

  ghost predicate Advances(s: Bytes, future: Bytes, todo: seq<Bytes>, tail: Bytes, p: Progress)
    requires AllWellFormed(todo)
  {
    && p.taken <= |todo|
    && DecodeAll(s) == Split(Messages(todo[..p.taken]), p.held, Pending)
    && p.held + future == Concat(todo[p.taken..]) + tail
    && (p.taken < |todo| ==> |p.held| < |todo[p.taken]|)
    && (p.taken == |todo| ==> p.held <= tail)
  }

  /** The last frame, of which only `tail` is sent. */
  ghost predicate StartOf(tail: Bytes, last: Bytes) {
    WellFormed(last) && |tail| < |last| && tail <= last
  }

  lemma {:induction false} Advance(s: Bytes, future: Bytes, todo: seq<Bytes>, tail: Bytes, last: Bytes)
    returns (p: Progress)
    requires AllWellFormed(todo) && StartOf(tail, last)
    requires s + future == Concat(todo) + tail
    ensures Advances(s, future, todo, tail, p)
    decreases |todo|
  {
    hide WellFormed, MessageOf, Decode;
    if todo == [] {
      OnlyTail(s, future, tail, last);
      p := Progress(0, s);
    } else if |s| < |todo[0]| {
      PartOfFrame(s, todo[0], future, Concat(todo[1..]) + tail);
      assert todo[..0] == [] && todo[0..] == todo;
      p := Progress(0, s);
    } else {
      var f, rest := todo[0], s[|todo[0]|..];
      FrontFrame(s, f, future, Concat(todo[1..]) + tail);
      var q := Advance(rest, future, todo[1..], tail, last);
      p := Progress(q.taken + 1, q.held);
      assert todo[..p.taken] == [f] + todo[1..][..q.taken];
      assert todo[p.taken..] == todo[1..][q.taken..];
    }
  }

  lemma OnlyTail(s: Bytes, future: Bytes, tail: Bytes, last: Bytes)
    requires StartOf(tail, last) && s + future == Concat([]) + tail
    ensures s <= tail && DecodeAll(s) == Split([], s, Pending)
  {
    assert Concat([]) + tail == tail;
    assert s == (s + future)[..|s|] == last[..|s|];
    PartIncomplete(last, |s|);
  }

  lemma PartOfFrame(s: Bytes, f: Bytes, future: Bytes, after: Bytes)
    requires WellFormed(f) && |s| < |f| && s + future == f + after
    ensures DecodeAll(s) == Split([], s, Pending)
  {
    assert s == (s + future)[..|s|] == f[..|s|];
    PartIncomplete(f, |s|);
  }

  lemma FrontFrame(s: Bytes, f: Bytes, future: Bytes, after: Bytes)
    requires WellFormed(f) && |s| >= |f| && s + future == f + after
    ensures s[|f|..] + future == after
    ensures var more := DecodeAll(s[|f|..]);
            DecodeAll(s) == Split([MessageOf(f)] + more.messages, more.rest, more.outcome)
  {
    hide DecodeAll, WellFormed, MessageOf;
    Front(s, f, future, after);
    TakeFrame(f, s[|f|..]);
  }

  lemma Front(s: Bytes, f: Bytes, future: Bytes, after: Bytes)
    requires |s| >= |f| && s + future == f + after
    ensures s == f + s[|f|..] && s[|f|..] + future == after
  {
    assert s[..|f|] == (s + future)[..|f|] == f;
    assert (s + future)[|f|..] == s[|f|..] + future;
    assert (f + after)[|f|..] == after;
  }

  lemma TakeFrame(f: Bytes, rest: Bytes)
    requires WellFormed(f)
    ensures var more := DecodeAll(rest);
            DecodeAll(f + rest) == Split([MessageOf(f)] + more.messages, more.rest, more.outcome)
  {
    FrameNotEmpty(f);
    hide Decode, WellFormed, MessageOf;
    FrameDecodes(f, rest);
    assert (f + rest)[|f|..] == rest;
  }

  // ---------------------------------------------------------------- a run of reads

  const MAX_PACKET_SIZE := 16 * 1024 * 1024
  const BUFFER_INIT_CAPACITY := 10240
  const LOW_WATER := 1024

  /**
   The largest frame of which no run of reads fills the buffer past the packet limit. A buffer outgrows the limit only
   once it holds this many bytes, as its capacity is doubled from the initial one.
   */
  const MAX_FRAME := 1024 * BUFFER_INIT_CAPACITY - LOW_WATER

  /** A connection's input: messages handed over, bytes kept, buffer size, and whether it is still open. */
  datatype Wire = Wire(delivered: seq<Message>, held: Bytes, capacity: nat, open: bool)

  function Grown(capacity: nat, loc: nat): nat {
    if capacity - loc <= LOW_WATER then capacity + capacity else capacity
  }

  /** What one completed read does. */
  function Receive(w: Wire, chunk: Bytes): Wire {
    if !w.open then w
    else if |w.held + chunk| > MAX_PACKET_SIZE then w.(open := false)
    else
      var s := DecodeAll(w.held + chunk);
      if s.outcome.Broken? then w.(delivered := w.delivered + s.messages, open := false)
      else Wire(w.delivered + s.messages, s.rest, Grown(w.capacity, |s.rest|), true)
  }

  function ReceiveAll(w: Wire, chunks: seq<Bytes>): Wire
    decreases |chunks|
  {
    if chunks == [] then w else ReceiveAll(Receive(w, chunks[0]), chunks[1..])
  }

  /** Every read delivers no more than was asked for: all but one byte of the free space. */
  ghost predicate Fits(w: Wire, chunks: seq<Bytes>)
    decreases |chunks|
  {
    chunks != [] ==> |chunks[0]| < w.capacity - |w.held| && Fits(Receive(w, chunks[0]), chunks[1..])
  }

  /** No read fills the buffer past the packet limit. */
  ghost predicate WithinLimit(w: Wire, chunks: seq<Bytes>)
    decreases |chunks|
  {
    chunks != [] ==> |w.held + chunks[0]| <= MAX_PACKET_SIZE && WithinLimit(Receive(w, chunks[0]), chunks[1..])
  }

  ghost predicate AtMost(n: nat, frames: seq<Bytes>) {
    forall i :: 0 <= i < |frames| ==> |frames[i]| <= n
  }

  /** Open, with room before each read. */
  ghost predicate Roomy(w: Wire) {
    w.open && LOW_WATER < w.capacity - |w.held|
  }

  const FRESH := Wire([], [], BUFFER_INIT_CAPACITY, true)

  /** What is still to come of a stream: frames, and the start of another. */
  ghost predicate Awaits(w: Wire, chunks: seq<Bytes>, todo: seq<Bytes>, tail: Bytes, last: Bytes) {
    && AllWellFormed(todo) && StartOf(tail, last)
    && w.held + Concat(chunks) == Concat(todo) + tail
    && (todo != [] ==> |w.held| < |todo[0]|)
    && (todo == [] ==> w.held <= tail)
  }

  /**
   What a run of reads comes to. Either no read overfills the buffer, and then all messages are delivered and the
   unfinished frame is kept; or one does, and the connection closes with the first of the messages delivered.
   */
  ghost predicate Delivers(w: Wire, chunks: seq<Bytes>, todo: seq<Bytes>, tail: Bytes)
    requires AllWellFormed(todo)
  {
    var r, all := ReceiveAll(w, chunks), w.delivered + Messages(todo);
    if WithinLimit(w, chunks) then Roomy(r) && r.delivered == all && r.held == tail
    else !r.open && r.delivered <= all
  }

  lemma {:induction false} RunDelivers(w: Wire, chunks: seq<Bytes>, todo: seq<Bytes>, tail: Bytes, last: Bytes)
    requires Roomy(w) && Fits(w, chunks) && Awaits(w, chunks, todo, tail, last)
    ensures Delivers(w, chunks, todo, tail)
    decreases |chunks|
  {
    hide DecodeAll, WellFormed, MessageOf, Advances;
    if chunks == [] {
      assert w.held + [] == w.held;
      AllReceived(w.held, todo, tail);
      assert w.delivered + [] == w.delivered;
    } else if |w.held + chunks[0]| > MAX_PACKET_SIZE {
      ClosedStays(Receive(w, chunks[0]), chunks[1..]);
    } else {
      RunContinues(w, chunks, todo, tail, last);
    }
  }

  lemma {:induction false} ClosedStays(w: Wire, chunks: seq<Bytes>)
    requires !w.open
    ensures ReceiveAll(w, chunks) == w
    decreases |chunks|
  {
    if chunks != [] {
      ClosedStays(w, chunks[1..]);
    }
  }

  lemma {:induction false} RunContinues(w: Wire, chunks: seq<Bytes>, todo: seq<Bytes>, tail: Bytes, last: Bytes)
    requires Roomy(w) && Fits(w, chunks) && Awaits(w, chunks, todo, tail, last)
    requires chunks != [] && |w.held + chunks[0]| <= MAX_PACKET_SIZE
    ensures Delivers(w, chunks, todo, tail)
    decreases |chunks|, 0
  {
    hide DecodeAll, WellFormed, MessageOf, Advances, Receive, Awaits, Roomy;
    var w' := Receive(w, chunks[0]);
    var p := StepTakes(w, chunks, todo, tail, last);
    RunDelivers(w', chunks[1..], todo[p.taken..], tail, last);
    MessagesSplit(todo, p.taken);
    JoinMessages(w.delivered, Messages(todo[..p.taken]), Messages(todo[p.taken..]));
  }

  /** One read that stays within the limit takes some frames and awaits the others. */
  lemma StepTakes(w: Wire, chunks: seq<Bytes>, todo: seq<Bytes>, tail: Bytes, last: Bytes) returns (p: Progress)
    requires Roomy(w) && Awaits(w, chunks, todo, tail, last)
    requires chunks != [] && |chunks[0]| < w.capacity - |w.held| && |w.held + chunks[0]| <= MAX_PACKET_SIZE
    ensures p.taken <= |todo| && AllWellFormed(todo[..p.taken]) && AllWellFormed(todo[p.taken..])
    ensures var w' := Receive(w, chunks[0]);
            && Roomy(w') && Awaits(w', chunks[1..], todo[p.taken..], tail, last)
            && w'.delivered == w.delivered + Messages(todo[..p.taken])
            && w'.capacity == Grown(w.capacity, |w'.held|)
  {
    hide DecodeAll, WellFormed, MessageOf, Advances, Receive;
    var c, future := chunks[0], Concat(chunks[1..]);
    assert (w.held + c) + future == w.held + (c + future);
    p := Advance(w.held + c, future, todo, tail, last);
    AdvancesMeans(w.held + c, future, todo, tail, p);
    ReceiveKeepsRoom(w, c, Messages(todo[..p.taken]), p.held);
  }

  lemma AdvancesMeans(s: Bytes, future: Bytes, todo: seq<Bytes>, tail: Bytes, p: Progress)
    requires AllWellFormed(todo) && Advances(s, future, todo, tail, p)
    ensures p.taken <= |todo| && AllWellFormed(todo[..p.taken]) && AllWellFormed(todo[p.taken..])
    ensures DecodeAll(s) == Split(Messages(todo[..p.taken]), p.held, Pending)
    ensures p.held + future == Concat(todo[p.taken..]) + tail
    ensures todo[p.taken..] != [] ==> |p.held| < |todo[p.taken..][0]|
    ensures todo[p.taken..] == [] ==> p.held <= tail
  {
    hide DecodeAll, Messages, WellFormed;
  }

  lemma ReceiveKeepsRoom(w: Wire, c: Bytes, messages: seq<Message>, held: Bytes)
    requires Roomy(w) && |c| < w.capacity - |w.held| && |w.held + c| <= MAX_PACKET_SIZE && |held| <= |w.held + c|
    requires DecodeAll(w.held + c) == Split(messages, held, Pending)
    ensures var r := Receive(w, c);
            && Roomy(r) && r.held == held && r.delivered == w.delivered + messages
            && r.capacity == Grown(w.capacity, |held|)
  {
    hide DecodeAll;
  }

  lemma JoinMessages(a: seq<Message>, b: seq<Message>, c: seq<Message>)
    ensures (a + b) + c == a + (b + c)
  {
  }

  lemma ConcatAtLeast(parts: seq<Bytes>)
    ensures parts != [] ==> |Concat(parts)| >= |parts[0]|
  {
  }

  lemma AllReceived(held: Bytes, todo: seq<Bytes>, tail: Bytes)
    requires held == Concat(todo) + tail
    requires todo != [] ==> |held| < |todo[0]|
    ensures todo == [] && held == tail
  {
    ConcatAtLeast(todo);
    assert Concat([]) + tail == tail;
  }

  lemma {:induction false} MessagesSplit(frames: seq<Bytes>, k: nat)
    requires AllWellFormed(frames) && k <= |frames|
    ensures Messages(frames) == Messages(frames[..k]) + Messages(frames[k..])
  {
    hide WellFormed, MessageOf;
    if k == 0 {
      assert frames[..0] == [] && frames[0..] == frames;
    } else {
      MessagesSplit(frames[1..], k - 1);
      JoinMessages([MessageOf(frames[0])], Messages(frames[1..][..k - 1]), Messages(frames[1..][k - 1..]));
      assert frames[1..][..k - 1] == frames[..k][1..] && frames[1..][k - 1..] == frames[k..];
    }
  }

  /**
   A frame that is neither a call nor a reply closes the connection. What stands before it in the buffer has been
   handed over, and nothing behind it is looked at.
   */
  lemma UnknownTypeCloses(w: Wire, chunk: Bytes, frames: seq<Bytes>, f: Fields, rest: Bytes)
    requires w.open && AllWellFormed(frames) && Fit(f) && f.kind !in {[0, 1], [0, 2], [0, 4]}
    requires w.held + chunk == Concat(frames) + (Laid(f) + rest) && |w.held + chunk| <= MAX_PACKET_SIZE
    ensures Receive(w, chunk) == w.(delivered := w.delivered + Messages(frames), open := false)
  {
    hide DecodeAll, WellFormed, MessageOf, Laid, Fit;
    StopsAtUnknown(frames, f, rest);
  }

  lemma {:induction false} StopsAtUnknown(frames: seq<Bytes>, f: Fields, rest: Bytes)
    requires AllWellFormed(frames) && Fit(f) && f.kind !in {[0, 1], [0, 2], [0, 4]}
    ensures DecodeAll(Concat(frames) + (Laid(f) + rest)) == Split(Messages(frames), Laid(f) + rest, Broken(Illegal))
  {
    hide Decode, WellFormed, MessageOf, Laid, Fit;
    var bad := Laid(f) + rest;
    if frames == [] {
      assert Concat(frames) + bad == bad;
      FieldsDecode(f, rest);
      LaidHead(f);
      assert DecodeAll(bad) == Split([], bad, Broken(Illegal));
    } else {
      assert Concat(frames) + bad == frames[0] + (Concat(frames[1..]) + bad);
      TakeFrame(frames[0], Concat(frames[1..]) + bad);
      StopsAtUnknown(frames[1..], f, rest);
    }
  }

  // ---------------------------------------------------------------- the packet limit

  /** A buffer that has been doubled ten times at most, holding part of a small frame. */
  ghost predicate Modest(w: Wire) {
    && |w.held| < MAX_FRAME
    && w.capacity in {10240, 20480, 40960, 81920, 163840, 327680, 655360, 1310720, 2621440, 5242880, 10485760}
  }

  lemma {:induction false} SmallFramesFit(w: Wire, chunks: seq<Bytes>, todo: seq<Bytes>, tail: Bytes, last: Bytes)
    requires Roomy(w) && Modest(w) && Fits(w, chunks) && Awaits(w, chunks, todo, tail, last)
    requires AtMost(MAX_FRAME, todo) && |last| <= MAX_FRAME
    ensures WithinLimit(w, chunks)
    decreases |chunks|
  {
    hide DecodeAll, WellFormed, MessageOf, Receive, Messages;
    if chunks != [] {
      var w' := Receive(w, chunks[0]);
      var p := StepTakes(w, chunks, todo, tail, last);
      assert forall i :: 0 <= i < |todo[p.taken..]| ==> todo[p.taken..][i] == todo[p.taken + i];
      SmallFramesFit(w', chunks[1..], todo[p.taken..], tail, last);
    }
  }

  /**
   However a stream of well-formed frames is cut into reads: unless a read fills the buffer past the packet limit, the
   same messages are delivered in the same order, exactly the unfinished frame stays in the buffer, and there is room
   for the next read; and otherwise the connection closes. With small frames no read does.
   */
  lemma SplitIndependence(chunks: seq<Bytes>, frames: seq<Bytes>, tail: Bytes, last: Bytes)
    requires AllWellFormed(frames) && StartOf(tail, last)
    requires Concat(chunks) == Concat(frames) + tail && Fits(FRESH, chunks)
    ensures var r := ReceiveAll(FRESH, chunks);
            && (r.open <==> WithinLimit(FRESH, chunks))
            && (r.open ==> Roomy(r) && r.delivered == Messages(frames) && r.held == tail)
            && r.delivered <= Messages(frames)
    ensures AtMost(MAX_FRAME, frames) && |last| <= MAX_FRAME ==> WithinLimit(FRESH, chunks)
  {
    hide DecodeAll, WellFormed, MessageOf, Receive, ReceiveAll, WithinLimit, Fits;
    assert [] + Concat(chunks) == Concat(chunks);
    if frames != [] {
      FrameNotEmpty(frames[0]);
    }
    RunDelivers(FRESH, chunks, frames, tail, last);
    assert [] + Messages(frames) == Messages(frames);
    if AtMost(MAX_FRAME, frames) && |last| <= MAX_FRAME {
      SmallFramesFit(FRESH, chunks, frames, tail, last);
    }
  }

  lemma FrameNotEmpty(f: Bytes)
    requires WellFormed(f)
    ensures f != []
  {
  }
}
