/**
 The server side of an HTTP session: requests are numbered as they are read, and answers given in any order leave in
 the order of the requests (section 6.3.2 of RFC 7230).
 */
module HttpSession {
  import opened Wrappers

  /** Request numbers are 32 bits wide. */
  const WRAP := 0x1_0000_0000

  /** An answer, for the request numbered `no`. */
  datatype Answer = Answer(id: nat, no: nat, keepalive: bool)

  datatype Item = Item(no: nat, response: Option<Answer>)

  /** A message given to the connection, and whether it is to close after it. */
  datatype Handed = Handed(message: Answer, close: bool)

  datatype Pipeline = Pipeline(dwseq: nat, deque: seq<Item>, sent: seq<Handed>)

  function Hand(a: Answer): Handed {
    Handed(a, !a.keepalive)
  }

  const INITIAL := Pipeline(0, [], [])

  datatype Event = Read(request: bool) | SendBack(answer: Answer)

  function Take(s: Pipeline): Pipeline {
    var no := (s.dwseq + 1) % WRAP;
    s.(dwseq := no, deque := s.deque + [Item(no, None)])
  }

  /** Sends stored answers as long as the head of the queue has one. */
  function Flush(s: Pipeline): Pipeline
    decreases |s.deque|
  {
    if s.deque != [] && s.deque[0].response.Some? then
      Flush(s.(deque := s.deque[1..], sent := s.sent + [Hand(s.deque[0].response.value)]))
    else s
  }

  /** Position of the first item with a number, from `i` on, or the length. */
  function Search(deque: seq<Item>, i: nat, no: nat): (j: nat)
    requires i <= |deque|
    ensures i <= j <= |deque| && (j < |deque| ==> deque[j].no == no)
    decreases |deque| - i
  {
    if i == |deque| || deque[i].no == no then i else Search(deque, i + 1, no)
  }

  function Respond(s: Pipeline, a: Answer): Pipeline
    requires s.deque != []
  {
    if s.deque[0].no == a.no then
      Flush(s.(deque := s.deque[1..], sent := s.sent + [Hand(a)]))
    else
      var j := Search(s.deque, 1, a.no);
      if j < |s.deque| then s.(deque := s.deque[j := Item(a.no, Some(a))]) else s
  }

  /** Answering with no request outstanding reads the front of an empty queue. */
  predicate Possible(s: Pipeline, e: Event) {
    e.SendBack? ==> s.deque != []
  }

  function Next(s: Pipeline, e: Event): Pipeline
    requires Possible(s, e)
  {
    match e
    case Read(request) => if request then Take(s) else s
    case SendBack(a) => Respond(s, a)
  }

  // ---------------------------------------------------------------- the reference: which request was answered how

  /** Requests read, counted without wrapping, and the answers given to them so far. */
  datatype Book = Book(read: nat, answers: map<nat, Answer>)

  ghost predicate BookOk(b: Book) {
    forall k :: k in b.answers ==> 1 <= k <= b.read
  }

  /** How many requests, from the first, have all been answered, given that `k` have. */
  function PrefixFrom(b: Book, k: nat): (m: nat)
    requires k <= b.read
    ensures k <= m <= b.read && (m < b.read ==> m + 1 !in b.answers)
    ensures forall i :: k < i <= m ==> i in b.answers
    decreases b.read - k
  {
    if k < b.read && k + 1 in b.answers then PrefixFrom(b, k + 1) else k
  }

  function Prefix(b: Book): nat {
    PrefixFrom(b, 0)
  }

  /** The oldest request after `k` whose number, as sent on the wire, is `no`; or none, given by one more than all. */
  function Oldest(k: nat, read: nat, no: nat): (r: nat)
    requires 1 <= k <= read + 1
    ensures k <= r <= read + 1 && (r <= read ==> r % WRAP == no)
    decreases read - k
  {
    if k == read + 1 || k % WRAP == no then k else Oldest(k + 1, read, no)
  }

  function Enter(b: Book, e: Event): Book {
    match e
    case Read(request) => if request then b.(read := b.read + 1) else b
    case SendBack(a) =>
      var k := Oldest(Prefix(b) + 1, b.read, a.no);
      if k <= b.read then b.(answers := b.answers[k := a]) else b
  }

  function Get(b: Book, k: nat): Option<Answer> {
    if k in b.answers then Some(b.answers[k]) else None
  }

  /** The i-th message sent answers the i-th request, and the connection closes behind it unless that keeps it alive. */
  predicate InOrder(sent: seq<Handed>, b: Book, i: nat)
    requires i < |sent|
  {
    && i + 1 in b.answers
    && sent[i].message == b.answers[i + 1] && (sent[i].close <==> !b.answers[i + 1].keepalive)
  }

  /**
   The session holds what the book says: the answered prefix sent in order, the rest queued with the answers so far.
   */
  ghost predicate Agrees(s: Pipeline, b: Book) {
    && BookOk(b)
    && s.dwseq == b.read % WRAP
    && |s.sent| + |s.deque| == b.read
    && (forall i :: 0 <= i < |s.sent| ==> InOrder(s.sent, b, i))
    && forall i :: 0 <= i < |s.deque| ==> s.deque[i] == Item((|s.sent| + 1 + i) % WRAP, Get(b, |s.sent| + 1 + i))
  }

  ghost predicate HeadOpen(s: Pipeline) {
    s.deque != [] ==> s.deque[0].response.None?
  }

  ghost predicate Synced(s: Pipeline, b: Book) {
    Agrees(s, b) && HeadOpen(s)
  }

  lemma {:induction false} PrefixIs(b: Book, k: nat, m: nat)
    requires k <= m <= b.read && (m < b.read ==> m + 1 !in b.answers)
    requires forall i :: k < i <= m ==> i in b.answers
    ensures PrefixFrom(b, k) == m
    decreases m - k
  {
    if k < m {
      PrefixIs(b, k + 1, m);
    }
  }

  lemma SyncedPrefix(s: Pipeline, b: Book)
    requires Synced(s, b)
    ensures Prefix(b) == |s.sent|
  {
    assert s.deque != [] ==> s.deque[0] == Item((|s.sent| + 1 + 0) % WRAP, Get(b, |s.sent| + 1 + 0));
    forall i | 0 < i <= |s.sent| ensures i in b.answers {
      assert InOrder(s.sent, b, i - 1);
    }
    PrefixIs(b, 0, |s.sent|);
  }

  lemma TakeAgrees(s: Pipeline, b: Book)
    requires Synced(s, b)
    ensures Synced(Take(s), Enter(b, Read(true)))
  {
    var s', b' := Take(s), Enter(b, Read(true));
    NextNumber(b.read);
    forall i | 0 <= i < |s'.sent| ensures InOrder(s'.sent, b', i) {
      assert InOrder(s.sent, b, i);
    }
    forall i | 0 <= i < |s'.deque| ensures s'.deque[i] == Item((|s'.sent| + 1 + i) % WRAP, Get(b', |s'.sent| + 1 + i)) {
      if i < |s.deque| {
        assert s.deque[i] == Item((|s.sent| + 1 + i) % WRAP, Get(b, |s.sent| + 1 + i));
      }
    }
  }

  lemma NextNumber(n: nat)
    ensures (n % WRAP + 1) % WRAP == (n + 1) % WRAP
  {
  }

  /** Sending the head, now that it is answered. */
  lemma SendHead(s: Pipeline, b: Book)
    requires Agrees(s, b) && s.deque != [] && s.deque[0].response.Some?
    ensures Agrees(s.(deque := s.deque[1..], sent := s.sent + [Hand(s.deque[0].response.value)]), b)
  {
    var s' := s.(deque := s.deque[1..], sent := s.sent + [Hand(s.deque[0].response.value)]);
    assert s.deque[0] == Item((|s.sent| + 1 + 0) % WRAP, Get(b, |s.sent| + 1 + 0));
    forall i | 0 <= i < |s'.sent| ensures InOrder(s'.sent, b, i) {
      assert i < |s.sent| ==> InOrder(s.sent, b, i);
    }
    forall i | 0 <= i < |s'.deque| ensures s'.deque[i] == Item((|s'.sent| + 1 + i) % WRAP, Get(b, |s'.sent| + 1 + i)) {
      assert s.deque[i + 1] == Item((|s.sent| + 1 + (i + 1)) % WRAP, Get(b, |s.sent| + 1 + (i + 1)));
      assert |s'.sent| + 1 + i == |s.sent| + 1 + (i + 1);
    }
  }

  lemma {:induction false} FlushAgrees(s: Pipeline, b: Book)
    requires Agrees(s, b)
    ensures Synced(Flush(s), b)
    decreases |s.deque|
  {
    hide Agrees;
    if s.deque != [] && s.deque[0].response.Some? {
      SendHead(s, b);
      FlushAgrees(s.(deque := s.deque[1..], sent := s.sent + [Hand(s.deque[0].response.value)]), b);
    }
  }

  /** Looking through the queue and looking through the outstanding requests find the same one. */
  lemma {:induction false} SearchFinds(s: Pipeline, b: Book, i: nat, no: nat)
    requires Agrees(s, b) && i <= |s.deque|
    ensures |s.sent| + 1 + Search(s.deque, i, no) == Oldest(|s.sent| + 1 + i, b.read, no)
    decreases |s.deque| - i
  {
    if i < |s.deque| {
      assert s.deque[i].no == (|s.sent| + 1 + i) % WRAP;
      SearchFinds(s, b, i + 1, no);
    }
  }

  /** An answer written into the queue is an answer entered in the book. */
  lemma StoreAgrees(s: Pipeline, b: Book, j: nat, a: Answer)
    requires Agrees(s, b) && j < |s.deque| && s.deque[j].no == a.no
    ensures Agrees(s.(deque := s.deque[j := Item(a.no, Some(a))]), b.(answers := b.answers[|s.sent| + 1 + j := a]))
  {
    var k := |s.sent| + 1 + j;
    var s', b' := s.(deque := s.deque[j := Item(a.no, Some(a))]), b.(answers := b.answers[k := a]);
    forall i | 0 <= i < |s'.deque| ensures s'.deque[i] == Item((|s'.sent| + 1 + i) % WRAP, Get(b', |s'.sent| + 1 + i)) {
      assert s.deque[i] == Item((|s.sent| + 1 + i) % WRAP, Get(b, |s.sent| + 1 + i));
    }
    forall i | 0 <= i < |s'.sent| ensures InOrder(s'.sent, b', i) {
      assert InOrder(s.sent, b, i);
    }
  }

  lemma RespondAgrees(s: Pipeline, b: Book, a: Answer)
    requires Synced(s, b) && s.deque != []
    ensures Synced(Respond(s, a), Enter(b, SendBack(a)))
  {
    SyncedPrefix(s, b);
    SearchFinds(s, b, 0, a.no);
    hide Agrees, Flush, Oldest;
    var j := Search(s.deque, 0, a.no);
    if j < |s.deque| {
      StoreAgrees(s, b, j, a);
      if j == 0 {
        var stored := s.(deque := s.deque[0 := Item(a.no, Some(a))]);
        SendHead(stored, Enter(b, SendBack(a)));
        assert stored.deque[1..] == s.deque[1..];
        FlushAgrees(s.(deque := s.deque[1..], sent := s.sent + [Hand(a)]), Enter(b, SendBack(a)));
      }
    }
  }

  // ---------------------------------------------------------------- whole runs

  ghost predicate PossibleRun(s: Pipeline, events: seq<Event>)
    decreases |events|
  {
    events != [] ==> Possible(s, events[0]) && PossibleRun(Next(s, events[0]), events[1..])
  }

  ghost function Run(s: Pipeline, events: seq<Event>): Pipeline
    requires PossibleRun(s, events)
    decreases |events|
  {
    if events == [] then s else Run(Next(s, events[0]), events[1..])
  }

  function EnterAll(b: Book, events: seq<Event>): Book
    decreases |events|
  {
    if events == [] then b else EnterAll(Enter(b, events[0]), events[1..])
  }

  lemma {:induction false} RunAgrees(s: Pipeline, b: Book, events: seq<Event>)
    requires Synced(s, b) && PossibleRun(s, events)
    ensures Synced(Run(s, events), EnterAll(b, events))
    decreases |events|
  {
    hide Synced, Take, Respond, Enter;
    if events != [] {
      StepAgrees(s, b, events[0]);
      RunAgrees(Next(s, events[0]), Enter(b, events[0]), events[1..]);
    }
  }

  lemma StepAgrees(s: Pipeline, b: Book, e: Event)
    requires Synced(s, b) && Possible(s, e)
    ensures Synced(Next(s, e), Enter(b, e))
  {
    hide Synced, Take, Respond;
    match e
    case Read(request) => if request { TakeAgrees(s, b); }
    case SendBack(a) => RespondAgrees(s, b, a);
  }

  /**
   Whatever the interleaving of reads and answers: the messages sent are exactly the answers to the first m requests,
   in the order of the requests, where m counts the requests answered without a gap; and the oldest request still
   queued has no answer yet.
   */
  lemma AnswersLeaveInOrder(events: seq<Event>)
    requires PossibleRun(INITIAL, events)
    ensures var s, b := Run(INITIAL, events), EnterAll(Book(0, map[]), events);
            && |s.sent| == Prefix(b)
            && (forall i :: 0 <= i < |s.sent| ==> InOrder(s.sent, b, i))
            && |s.deque| == b.read - Prefix(b)
            && HeadOpen(s)
  {
    hide Run, EnterAll, PossibleRun;
    RunAgrees(INITIAL, Book(0, map[]), events);
    SyncedPrefix(Run(INITIAL, events), EnterAll(Book(0, map[]), events));
  }

  // ---------------------------------------------------------------- the session object

  class CHttpSession {
    var dwseq: nat
    var requestDeque: seq<Item>
    ghost var sent: seq<Handed>

    ghost function State(): Pipeline
      reads this
    {
      Pipeline(dwseq, requestDeque, sent)
    }

    constructor ()
      ensures State() == INITIAL
    {
      dwseq, requestDeque, sent := 0, [], [];
    }

    /** Numbers a request and queues it. */
    method OnRead(request: bool) returns (no: nat)
      modifies this
      ensures State() == Next(old(State()), Read(request))
      ensures request ==> no == dwseq && requestDeque == old(requestDeque) + [Item(no, None)]
    {
      no := 0;
      if request {
        dwseq := (dwseq + 1) % WRAP;
        no := dwseq;
        requestDeque := requestDeque + [Item(no, None)];
      }
    }

    method Send(a: Answer)
      modifies this`sent
      ensures sent == old(sent) + [Hand(a)]
    {
      sent := sent + [Handed(a, !a.keepalive)];
    }

    method DoSendBack(a: Answer)
      requires requestDeque != []
      modifies this
      ensures State() == Next(old(State()), SendBack(a))
    {
      if requestDeque[0].no == a.no {
        Send(a);
        requestDeque := requestDeque[1..];
        while requestDeque != [] && requestDeque[0].response.Some?
          invariant Flush(State()) == Next(old(State()), SendBack(a))
          decreases |requestDeque|
        {
          Send(requestDeque[0].response.value);
          requestDeque := requestDeque[1..];
        }
        return;
      }
      var i := 1;
      while i < |requestDeque|
        invariant 1 <= i <= |requestDeque| && State() == old(State())
        invariant Search(requestDeque, 1, a.no) == Search(requestDeque, i, a.no)
      {
        if requestDeque[i].no == a.no {
          requestDeque := requestDeque[i := Item(a.no, Some(a))];
          return;
        }
        i := i + 1;
      }
    }
  }
}
