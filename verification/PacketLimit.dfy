/**
 The packet limit: how long frames may be for the limit never to be met, and what happens when they are longer.
 */
module PacketLimit {
  import opened Thrift
  import opened Framing

  /** A stream of well-formed frames, none longer than `n`, cut into reads that fit the buffer. */
  ghost predicate Stream(n: nat, chunks: seq<Bytes>, frames: seq<Bytes>, tail: Bytes, last: Bytes) {
    && AllWellFormed(frames) && AtMost(n, frames) && StartOf(tail, last) && |last| <= n
    && Concat(chunks) == Concat(frames) + tail && Fits(FRESH, chunks)
  }

  // ---------------------------------------------------------------- joining runs

  lemma {:induction false} ConcatJoin(a: seq<Bytes>, b: seq<Bytes>)
    ensures Concat(a + b) == Concat(a) + Concat(b)
  {
    if a == [] {
      assert [] + b == b;
    } else {
      ConcatJoin(a[1..], b);
      assert (a + b)[1..] == a[1..] + b;
    }
  }

  lemma {:induction false} RunJoin(w: Wire, a: seq<Bytes>, b: seq<Bytes>)
    ensures ReceiveAll(w, a + b) == ReceiveAll(ReceiveAll(w, a), b)
    ensures Fits(w, a + b) <==> Fits(w, a) && Fits(ReceiveAll(w, a), b)
    ensures WithinLimit(w, a + b) <==> WithinLimit(w, a) && WithinLimit(ReceiveAll(w, a), b)
    decreases |a|
  {
    hide Receive;
    if a == [] {
      assert [] + b == b;
    } else {
      RunJoin(Receive(w, a[0]), a[1..], b);
      assert (a + b)[0] == a[0] && (a + b)[1..] == a[1..] + b;
    }
  }

  // ---------------------------------------------------------------- a buffer that outgrows the limit

  /** A frame one byte too long. */
  function LongFrame(): (f: Bytes)
    ensures WellFormed(f) && |f| == MAX_FRAME + 1
  {
    var body: Bytes := seq(MAX_FRAME + 1 - HEAD - 4, _ => 0);
    var m := Message(Request, false, [], 0, body);
    EncodeDecode(m, []);
    EncodedHead(m);
    Encode(m)
  }

  /** A buffer all but full of the start of a frame, just doubled. */
  predicate Brim(w: Wire, f: Bytes) {
    && w.open && w.delivered == [] && |w.held| <= |f| && w.held == f[..|w.held|]
    && w.capacity == 2 * (|w.held| + LOW_WATER)
  }

  /** Reading as much again leaves the buffer in the same position, twice as large. */
  lemma Doubles(w: Wire, f: Bytes)
    requires WellFormed(f) && Brim(w, f) && 2 * |w.held| + LOW_WATER < |f| <= MAX_PACKET_SIZE
    ensures var n := 2 * |w.held| + LOW_WATER;
            var w' := Receive(w, f[|w.held|..n]);
            Fits(w, [f[|w.held|..n]]) && Brim(w', f) && |w'.held| == n
  {
    hide WellFormed, DecodeAll;
    var n := 2 * |w.held| + LOW_WATER;
    assert w.held + f[|w.held|..n] == f[..n];
    PartWaits(f, n);
  }

  lemma PartWaits(f: Bytes, n: nat)
    requires WellFormed(f) && n < |f|
    ensures DecodeAll(f[..n]) == Split([], f[..n], Pending)
  {
    hide Decode, WellFormed;
    PartIncomplete(f, n);
  }

  /** Held bytes from which doubling leads to the longest held start of a small frame. */
  predicate OnTheWay(n: nat) {
    n in {9216, 19456, 39936, 80896, 162816, 326656, 654336, 1309696, 2620416, 5241856, MAX_FRAME}
  }

  /** Reads that fill the buffer up each time until it has outgrown the limit. */
  lemma {:induction false} Fill(w: Wire, f: Bytes) returns (chunks: seq<Bytes>)
    requires WellFormed(f) && |f| == MAX_FRAME + 1 && Brim(w, f) && OnTheWay(|w.held|)
    ensures Fits(w, chunks) && WithinLimit(w, chunks) && Concat(chunks) == f[|w.held|..MAX_FRAME]
    ensures var r := ReceiveAll(w, chunks); Brim(r, f) && |r.held| == MAX_FRAME
    decreases MAX_FRAME - |w.held|
  {
    hide WellFormed, Receive;
    if |w.held| == MAX_FRAME {
      chunks := [];
    } else {
      var n := 2 * |w.held| + LOW_WATER;
      var c := f[|w.held|..n];
      Doubles(w, f);
      var more := Fill(Receive(w, c), f);
      chunks := [c] + more;
      assert c + f[n..MAX_FRAME] == f[|w.held|..MAX_FRAME];
    }
  }

  /** The reads up to the last byte but one of a frame one byte too long. */
  lemma FillFresh() returns (chunks: seq<Bytes>)
    ensures var f, r := LongFrame(), ReceiveAll(FRESH, chunks);
            && Fits(FRESH, chunks) && WithinLimit(FRESH, chunks) && Concat(chunks) == f[..MAX_FRAME]
            && r == Wire([], f[..MAX_FRAME], 2 * (MAX_FRAME + LOW_WATER), true)
  {
    hide LongFrame, WellFormed, DecodeAll;
    var f := LongFrame();
    var c := f[..9216];
    assert [] + c == c;
    PartWaits(f, 9216);
    var w := Receive(FRESH, c);
    assert Brim(w, f);
    hide Receive;
    var more := Fill(w, f);
    chunks := [c] + more;
    assert c + f[9216..MAX_FRAME] == f[..MAX_FRAME];
  }

  /** The rest of the first frame together with the second: more than a packet. */
  lemma Overfills(w: Wire, f: Bytes)
    requires |f| == MAX_FRAME + 1 && w == Wire([], f[..MAX_FRAME], 2 * (MAX_FRAME + LOW_WATER), true)
    ensures Fits(w, [f[MAX_FRAME..] + f]) && !WithinLimit(w, [f[MAX_FRAME..] + f])
  {
  }

  /** The rest of the first frame, and then the second: the buffer is emptied in between. */
  lemma Empties(w: Wire, f: Bytes)
    requires WellFormed(f) && |f| == MAX_FRAME + 1
    requires w == Wire([], f[..MAX_FRAME], 2 * (MAX_FRAME + LOW_WATER), true)
    ensures Fits(w, [f[MAX_FRAME..], f]) && WithinLimit(w, [f[MAX_FRAME..], f])
  {
    hide WellFormed, Decode;
    var w' := Receive(w, f[MAX_FRAME..]);
    assert w.held + f[MAX_FRAME..] == f + [];
    TakeFrame(f, []);
    assert w'.held == [] && w'.capacity == w.capacity;
    assert [f[MAX_FRAME..], f][1..] == [f] && [f][1..] == [];
    assert Fits(w', [f]) && WithinLimit(w', [f]);
  }

  lemma TwoFrames(f: Bytes)
    requires |f| == MAX_FRAME + 1
    ensures f[..MAX_FRAME] + Concat([f[MAX_FRAME..] + f]) == Concat([f, f]) + []
    ensures f[..MAX_FRAME] + Concat([f[MAX_FRAME..], f]) == Concat([f, f]) + []
  {
    assert [f, f][1..] == [f] && [f[MAX_FRAME..], f][1..] == [f];
    assert Concat([f]) == f + [] == f;
    assert f == f[..MAX_FRAME] + f[MAX_FRAME..];
  }

  /**
   Two frames one byte too long: cut one way they are both delivered, cut another way the connection closes. So the
   bound is sharp, and past it what is delivered does depend on how the stream is cut.
   */
  lemma LongFramesDepend() returns (frames: seq<Bytes>, good: seq<Bytes>, bad: seq<Bytes>)
    ensures Stream(MAX_FRAME + 1, good, frames, [], LongFrame()) && Stream(MAX_FRAME + 1, bad, frames, [], LongFrame())
    ensures WithinLimit(FRESH, good) && !WithinLimit(FRESH, bad)
    ensures ReceiveAll(FRESH, good).open && ReceiveAll(FRESH, good).delivered == Messages(frames)
    ensures !ReceiveAll(FRESH, bad).open
  {
    hide WellFormed, Decode, MessageOf, Messages, LongFrame, Receive, ReceiveAll, Fits, WithinLimit, Concat;
    var f := LongFrame();
    var fill := FillFresh();
    var w := ReceiveAll(FRESH, fill);
    frames := [f, f];
    good, bad := fill + [f[MAX_FRAME..], f], fill + [f[MAX_FRAME..] + f];
    Overfills(w, f);
    Empties(w, f);
    TwoFrames(f);
    RunJoin(FRESH, fill, [f[MAX_FRAME..], f]);
    RunJoin(FRESH, fill, [f[MAX_FRAME..] + f]);
    ConcatJoin(fill, [f[MAX_FRAME..], f]);
    ConcatJoin(fill, [f[MAX_FRAME..] + f]);
    SplitIndependence(good, frames, [], f);
    SplitIndependence(bad, frames, [], f);
  }

  /** No run of frames of at most `n` bytes meets the packet limit exactly when `n` is at most the bound. */
  lemma FrameBoundExact(n: nat)
    ensures n <= MAX_FRAME <==>
            forall chunks, frames, tail, last :: Stream(n, chunks, frames, tail, last) ==> WithinLimit(FRESH, chunks)
  {
    if n <= MAX_FRAME {
      forall chunks, frames, tail, last | Stream(n, chunks, frames, tail, last) ensures WithinLimit(FRESH, chunks) {
        hide WellFormed, Fits, WithinLimit, Concat;
        SplitIndependence(chunks, frames, tail, last);
      }
    } else {
      hide WellFormed, Fits, WithinLimit, Concat, LongFrame;
      var frames, good, bad := LongFramesDepend();
      assert Stream(n, bad, frames, [], LongFrame());
    }
  }
}
