/** The batched writer of `include/utils/bulk_writer.h`: enqueuing threads, one writer
    thread and the owner that starts and stops it.

    `Writer` is the object whose deque the critical sections update in place.  `State`,
    `Enabled` and `Next` are the protocol around them: every atomic access and every
    critical section is one action, and actions of different threads interleave freely. */
module BulkWriter {

  // ----- the deque operations, shared by the class and by the protocol -----

  /** The critical section of `enqueue`: drop the oldest row when full, then append. */
  function PushBounded<T>(queue: seq<T>, row: T, maxQueue: nat): (r: seq<T>)
    requires maxQueue >= 1
    ensures |r| == if |queue| >= maxQueue then |queue| else |queue| + 1
    ensures r == (queue + [row])[|queue| + 1 - |r|..]
  {
    (if |queue| >= maxQueue then queue[1..] else queue) + [row]
  }

  function PushAll<T>(queue: seq<T>, rows: seq<T>, maxQueue: nat): seq<T>
    requires maxQueue >= 1
    decreases rows
  {
    if rows == [] then queue else PushAll(PushBounded(queue, rows[0], maxQueue), rows[1..], maxQueue)
  }

  function Latest<T>(rows: seq<T>, n: nat): seq<T> {
    if |rows| <= n then rows else rows[|rows| - n..]
  }

  /** Back-pressure prefers recency: whatever is pushed onto a queue within its capacity,
      the queue is the latest `maxQueue` rows of everything it ever held. */
  lemma {:induction false} OverflowKeepsTheLatest<T>(queue: seq<T>, rows: seq<T>, maxQueue: nat)
    requires maxQueue >= 1 && |queue| <= maxQueue
    ensures PushAll(queue, rows, maxQueue) == Latest(queue + rows, maxQueue)
    decreases rows
  {
    if rows == [] {
      assert queue + rows == queue;
    } else {
      var next := PushBounded(queue, rows[0], maxQueue);
      OverflowKeepsTheLatest(next, rows[1..], maxQueue);
      HeadMoves(queue, rows);
      LatestAfterPush(queue, rows[0], rows[1..], maxQueue);
    }
  }

  lemma HeadMoves<T>(queue: seq<T>, rows: seq<T>)
    requires rows != []
    ensures queue + rows == queue + [rows[0]] + rows[1..]
  {
  }

  lemma LatestAfterPush<T>(queue: seq<T>, row: T, rest: seq<T>, maxQueue: nat)
    requires maxQueue >= 1 && |queue| <= maxQueue
    ensures Latest(PushBounded(queue, row, maxQueue) + rest, maxQueue) == Latest(queue + [row] + rest, maxQueue)
  {
    var d := |queue| + 1 - |PushBounded(queue, row, maxQueue)|;
    SuffixOfSum(queue + [row], d, rest);
  }

  lemma SuffixOfSum<T>(a: seq<T>, d: nat, b: seq<T>)
    requires d <= |a|
    ensures a[d..] + b == (a + b)[d..]
  {
  }

  class Writer<Row> {
    const batchSize: nat
    const maxQueue: nat
    var queue: seq<Row>
    var accepting: bool
    var dropCount: nat

    ghost predicate Valid() { maxQueue >= 1 }

    constructor (batchSize: nat, maxQueue: nat)
      requires maxQueue >= 1
      ensures Valid() && queue == [] && !accepting && dropCount == 0
      ensures this.batchSize == batchSize && this.maxQueue == maxQueue
    {
      this.batchSize, this.maxQueue := batchSize, maxQueue;
      queue, accepting, dropCount := [], false, 0;
    }

    /** `enqueue` run without interference; `notify` says whether a full batch is waiting. */
    method Enqueue(row: Row) returns (notify: bool)
      requires Valid()
      modifies this`queue, this`dropCount
      ensures !old(accepting) ==> queue == old(queue) && dropCount == old(dropCount) && !notify
      ensures old(accepting) ==>
                && queue == PushBounded(old(queue), row, maxQueue)
                && dropCount == old(dropCount) + (|old(queue)| + 1 - |queue|)
                && notify == (|queue| >= batchSize)
    {
      notify := false;
      if !accepting { return; }
      if |queue| >= maxQueue {
        queue := queue[1..];
        dropCount := dropCount + 1;
      }
      queue := queue + [row];
      notify := |queue| >= batchSize;
    }

    /** `batch.swap(queue_)`. */
    method TakeBatch() returns (batch: seq<Row>)
      modifies this`queue
      ensures batch == old(queue) && queue == []
    {
      batch, queue := queue, [];
    }

    /** The re-enqueue loop after a failed flush: rows go back to the front, last row first,
        so that the batch keeps its order and stays ahead of what arrived meanwhile. */
    method Requeue(batch: seq<Row>)
      modifies this`queue
      ensures queue == batch + old(queue)
    {
      var i := |batch|;
      while i > 0
        invariant 0 <= i <= |batch|
        invariant queue == batch[i..] + old(queue)
      {
        i := i - 1;
        queue := [batch[i]] + queue;
        assert batch[i..] == [batch[i]] + batch[i + 1..];
      }
      assert batch[0..] == batch;
    }
  }

  // ----- the protocol -----

  /** An accepted row, stamped with its place in the order of acceptance and with the
      `enqueue` call that brought it.  The stamps are bookkeeping: no action tests them. */
  datatype Entry<Row> = Entry(ticket: nat, call: nat, row: Row)

  /** The writer thread: not running, before the `running_` test, inside `wait_for`, or
      between the swap and the outcome of the flush. */
  datatype WriterPc<Row> = Parked | LoopTop | Waiting | Flushing(batch: seq<Entry<Row>>)

  /** The thread that calls `start` and `stop`, between their atomic accesses. */
  datatype OwnerPc<Row> =
    | Stopped | Starting | Spawning | Started | Closing | Signalled
    | Draining(remaining: seq<Entry<Row>>)

  datatype State<Row> = State(
    queue: seq<Entry<Row>>,
    running: bool,
    accepting: bool,
    dropCount: nat,
    writer: WriterPc<Row>,
    owner: OwnerPc<Row>,
    callers: map<nat, Row>,        // enqueue calls past the accepting test, not yet in the lock
    nextCall: nat,
    accepted: seq<Entry<Row>>,     // histories
    flushed: seq<Entry<Row>>,
    dropped: seq<Entry<Row>>,
    lost: seq<Entry<Row>>,
    failures: nat,                 // failed flushes since a batch was last disposed of
    closing: set<nat>              // calls past the test when `accepting_` was last cleared
  )

  datatype Action<Row> =
    | Begin | OpenGate | Spawn
    | Call(row: Row) | Push(call: nat)
    | TestRunning | WakeEmpty | Swap | FlushOk | FlushFailed | FlushThrew
    | CloseGate | Signal | JoinAndTake | DrainOk | DrainFailed

  function Init<Row>(): State<Row> {
    State([], false, false, 0, Parked, Stopped, map[], 0, [], [], [], [], 0, {})
  }

  predicate Enabled<Row>(s: State<Row>, a: Action<Row>) {
    match a
    case Begin => s.owner == Stopped && !s.running
    case OpenGate => s.owner == Starting
    case Spawn => s.owner == Spawning
    case Call(_) => true
    case Push(call) => call in s.callers
    case TestRunning => s.writer == LoopTop
    case WakeEmpty => s.writer == Waiting && s.queue == []
    case Swap => s.writer == Waiting && s.queue != []
    case FlushOk => s.writer.Flushing?
    case FlushFailed => s.writer.Flushing?
    case FlushThrew => s.writer.Flushing?
    case CloseGate => s.owner == Started
    case Signal => s.owner == Closing
    case JoinAndTake => s.owner == Signalled && s.writer == Parked
    case DrainOk => s.owner.Draining?
    case DrainFailed => s.owner.Draining?
  }

  function Next<Row>(maxQueue: nat, s: State<Row>, a: Action<Row>): State<Row>
    requires maxQueue >= 1 && Enabled(s, a)
  {
    match a
    case Begin => s.(running := true, owner := Starting)
    case OpenGate => s.(accepting := true, owner := Spawning)
    case Spawn => s.(writer := LoopTop, owner := Started)
    case Call(row) =>
      if s.accepting then s.(callers := s.callers[s.nextCall := row], nextCall := s.nextCall + 1) else s
    case Push(call) => PushStep(maxQueue, s, call)
    case TestRunning => s.(writer := if s.running then Waiting else Parked)
    case WakeEmpty => s.(writer := LoopTop)
    case Swap => s.(writer := Flushing(s.queue), queue := [])
    case FlushOk => s.(writer := LoopTop, flushed := s.flushed + s.writer.batch, failures := 0)
    case FlushFailed => s.(writer := LoopTop, queue := s.writer.batch + s.queue, failures := s.failures + 1)
    case FlushThrew => s.(writer := LoopTop, lost := s.lost + s.writer.batch, failures := 0)
    case CloseGate => s.(accepting := false, owner := Closing, closing := s.callers.Keys)
    case Signal => s.(running := false, owner := Signalled)
    case JoinAndTake => s.(owner := Draining(s.queue), queue := [], failures := 0)
    case DrainOk => s.(owner := Stopped, flushed := s.flushed + s.owner.remaining)
    case DrainFailed => s.(owner := Stopped, lost := s.lost + s.owner.remaining)
  }

  function PushStep<Row>(maxQueue: nat, s: State<Row>, call: nat): State<Row>
    requires maxQueue >= 1 && call in s.callers
  {
    var e := Entry(|s.accepted|, call, s.callers[call]);
    var full := |s.queue| >= maxQueue;
    s.(queue := PushBounded(s.queue, e, maxQueue),
       dropCount := if full then s.dropCount + 1 else s.dropCount,
       callers := s.callers - {call},
       accepted := s.accepted + [e],
       dropped := if full then s.dropped + [s.queue[0]] else s.dropped)
  }

  function Rows<Row>(entries: seq<Entry<Row>>): (r: seq<Row>)
    ensures |r| == |entries| && forall i :: 0 <= i < |r| ==> r[i] == entries[i].row
  {
    seq(|entries|, i requires 0 <= i < |entries| => entries[i].row)
  }

  /** Without their stamps, the steps on the queue are what `Writer` does to its fields. */
  lemma PushIsEnqueue<Row>(maxQueue: nat, s: State<Row>, call: nat)
    requires maxQueue >= 1 && call in s.callers
    ensures var t := PushStep(maxQueue, s, call);
            && Rows(t.queue) == PushBounded(Rows(s.queue), s.callers[call], maxQueue)
            && t.dropCount == s.dropCount + (|s.queue| + 1 - |t.queue|)
  {
    var t := PushStep(maxQueue, s, call);
    var r := PushBounded(Rows(s.queue), s.callers[call], maxQueue);
    assert |r| == |t.queue|;
    assert forall i :: 0 <= i < |r| ==> r[i] == Rows(t.queue)[i];
  }

  lemma FailedFlushIsRequeue<Row>(maxQueue: nat, s: State<Row>)
    requires maxQueue >= 1 && s.writer.Flushing?
    ensures Rows(Next(maxQueue, s, FlushFailed).queue) == Rows(s.writer.batch) + Rows(s.queue)
  {
  }

  ghost predicate ValidRun<Row>(maxQueue: nat, s: State<Row>, run: seq<Action<Row>>)
    requires maxQueue >= 1
    decreases run
  {
    run == [] || (Enabled(s, run[0]) && ValidRun(maxQueue, Next(maxQueue, s, run[0]), run[1..]))
  }

  ghost function After<Row>(maxQueue: nat, s: State<Row>, run: seq<Action<Row>>): State<Row>
    requires maxQueue >= 1 && ValidRun(maxQueue, s, run)
    decreases run
  {
    if run == [] then s else After(maxQueue, Next(maxQueue, s, run[0]), run[1..])
  }

  /** A run in which the owner never starts the writer again. */
  predicate NoRestart<Row>(run: seq<Action<Row>>) {
    forall i :: 0 <= i < |run| ==> !run[i].Begin?
  }

  /** Some run leads from o to s; unless `restarts`, one without a restart. */
  ghost predicate Leads<Row(!new)>(maxQueue: nat, o: State<Row>, s: State<Row>, restarts: bool)
    requires maxQueue >= 1
  {
    exists run: seq<Action<Row>> :: ValidRun(maxQueue, o, run) && (restarts || NoRestart(run)) && s == After(maxQueue, o, run)
  }

  ghost predicate Reachable<Row(!new)>(maxQueue: nat, s: State<Row>)
    requires maxQueue >= 1
  {
    Leads(maxQueue, Init(), s, true)
  }

  // ----- what every run keeps -----

  function InFlight<Row>(s: State<Row>): seq<Entry<Row>> {
    if s.writer.Flushing? then s.writer.batch else []
  }

  function Remaining<Row>(s: State<Row>): seq<Entry<Row>> {
    if s.owner.Draining? then s.owner.remaining else []
  }

  ghost predicate Increasing<Row>(es: seq<Entry<Row>>) {
    forall i, j :: 0 <= i < j < |es| ==> es[i].ticket < es[j].ticket
  }

  ghost predicate Ledger<Row>(s: State<Row>) {
    && s.dropCount == |s.dropped|
    && multiset(s.accepted) == Places(s)
    && (forall i :: 0 <= i < |s.accepted| ==> s.accepted[i].ticket == i)
  }

  /** Flushed and held rows in one line, oldest first. */
  function Line<Row>(s: State<Row>): seq<Entry<Row>> {
    s.flushed + InFlight(s) + Remaining(s) + s.queue
  }

  ghost predicate Ordered<Row>(s: State<Row>) {
    && Increasing(Line(s))
    && (forall e :: e in Line(s) ==> e.ticket < |s.accepted|)
  }

  ghost predicate Threads<Row>(s: State<Row>) {
    && (s.accepting <==> s.owner == Spawning || s.owner == Started)
    && (s.running <==> s.owner == Starting || s.owner == Spawning || s.owner == Started || s.owner == Closing)
    && (s.owner.Stopped? || s.owner.Starting? || s.owner.Spawning? || s.owner.Draining? ==> s.writer == Parked)
  }

  /** The final drain has taken the queue and `start` has not reopened it. */
  predicate Drained<Row>(s: State<Row>) {
    s.owner.Draining? || s.owner.Stopped? || s.owner.Starting?
  }

  ghost predicate Stragglers<Row>(s: State<Row>) {
    && (forall c :: c in s.callers ==> c < s.nextCall)
    && (!s.accepting ==> s.callers.Keys <= s.closing)
    && (Drained(s) ==> forall e :: e in s.queue ==> e.call in s.closing)
    && (Drained(s) ==> |s.queue| + |s.callers.Keys| <= |s.closing|)
  }

  ghost predicate Bounded<Row>(maxQueue: nat, s: State<Row>) {
    && |InFlight(s)| <= (s.failures + 1) * maxQueue
    && |s.queue| <= (if s.writer.Flushing? then maxQueue else (s.failures + 1) * maxQueue)
  }

  ghost predicate Inv<Row>(maxQueue: nat, s: State<Row>) {
    Ledger(s) && Ordered(s) && Threads(s) && Stragglers(s) && Bounded(maxQueue, s)
  }

  lemma Appended<Row>(es: seq<Entry<Row>>, e: Entry<Row>)
    requires Increasing(es) && forall x :: x in es ==> x.ticket < e.ticket
    ensures Increasing(es + [e])
  {
    assert forall i :: 0 <= i < |es| ==> (es + [e])[i] in es;
  }

  lemma TakenOut<Row>(xs: seq<Entry<Row>>, ys: seq<Entry<Row>>, zs: seq<Entry<Row>>)
    requires Increasing(xs + ys + zs)
    ensures Increasing(xs + zs)
    ensures forall e :: e in xs + zs ==> e in xs + ys + zs
  {
    var all := xs + ys + zs;
    assert forall i :: 0 <= i < |xs + zs| ==> (xs + zs)[i] == all[if i < |xs| then i else i + |ys|];
  }

  lemma PushKeepsOrder<Row>(maxQueue: nat, s: State<Row>, call: nat)
    requires maxQueue >= 1 && call in s.callers && Ordered(s)
    ensures Ordered(PushStep(maxQueue, s, call))
  {
    var t := PushStep(maxQueue, s, call);
    var e := Entry(|s.accepted|, call, s.callers[call]);
    var front := s.flushed + InFlight(s) + Remaining(s);
    var kept := if |s.queue| >= maxQueue then s.queue[1..] else s.queue;
    if |s.queue| >= maxQueue {
      assert Line(s) == front + [s.queue[0]] + kept;
      TakenOut(front, [s.queue[0]], kept);
    }
    Appended(front + kept, e);
    assert Line(t) == (front + kept) + [e];
    assert forall x :: x in Line(t) ==> x == e || x in front + kept;
  }

  /** Taking, flushing and putting back leave the line as it is. */
  lemma LineKept<Row>(maxQueue: nat, s: State<Row>, a: Action<Row>)
    requires maxQueue >= 1 && Enabled(s, a) && Threads(s) && !a.Push? && !a.FlushThrew? && !a.DrainFailed?
    ensures Line(Next(maxQueue, s, a)) == Line(s)
  {
    var t := Next(maxQueue, s, a);
    match a
    case Swap => assert InFlight(t) == s.queue && Remaining(s) == [];
    case FlushOk => assert Remaining(s) == [];
    case FlushFailed => assert Remaining(s) == [];
    case JoinAndTake => assert Remaining(t) == s.queue;
    case DrainOk => assert InFlight(s) == [];
    case _ => assert InFlight(t) == InFlight(s) && Remaining(t) == Remaining(s);
  }

  lemma StepKeepsOrder<Row>(maxQueue: nat, s: State<Row>, a: Action<Row>)
    requires maxQueue >= 1 && Enabled(s, a) && Ordered(s) && Threads(s)
    ensures Ordered(Next(maxQueue, s, a))
  {
    var t := Next(maxQueue, s, a);
    if a.Push? {
      PushKeepsOrder(maxQueue, s, a.call);
    } else if a.FlushThrew? {
      assert Line(s) == s.flushed + s.writer.batch + s.queue && Line(t) == s.flushed + s.queue;
      TakenOut(s.flushed, s.writer.batch, s.queue);
    } else if a.DrainFailed? {
      assert Line(s) == s.flushed + s.owner.remaining + s.queue && Line(t) == s.flushed + s.queue;
      TakenOut(s.flushed, s.owner.remaining, s.queue);
    } else {
      LineKept(maxQueue, s, a);
    }
  }

  lemma PushKeepsLedger<Row>(maxQueue: nat, s: State<Row>, call: nat)
    requires maxQueue >= 1 && call in s.callers && Ledger(s)
    ensures Ledger(PushStep(maxQueue, s, call))
  {
    var t := PushStep(maxQueue, s, call);
    PushTotal(maxQueue, s, call);
    PushParts(maxQueue, s, call);
  }

  /** All places a row can be in. */
  ghost function Places<Row>(s: State<Row>): multiset<Entry<Row>> {
    Six(multiset(s.flushed), multiset(s.dropped), multiset(s.lost), multiset(InFlight(s)), multiset(Remaining(s)),
        multiset(s.queue))
  }

  lemma PushTotal<Row>(maxQueue: nat, s: State<Row>, call: nat)
    requires maxQueue >= 1 && call in s.callers
    ensures Places(PushStep(maxQueue, s, call)) == Places(s) + multiset{Entry(|s.accepted|, call, s.callers[call])}
  {
    var t := PushStep(maxQueue, s, call);
    var e := Entry(|s.accepted|, call, s.callers[call]);
    PushMoves(s.queue, e, maxQueue, s.dropped);
    PushParts(maxQueue, s, call);
    Added(multiset(s.flushed), multiset(s.dropped), multiset(s.lost), multiset(InFlight(s)), multiset(Remaining(s)),
          multiset(s.queue), multiset(t.dropped), multiset(t.queue), multiset{e});
  }

  /** What a push leaves alone, and what it accepts. */
  lemma PushParts<Row>(maxQueue: nat, s: State<Row>, call: nat)
    requires maxQueue >= 1 && call in s.callers
    ensures var t := PushStep(maxQueue, s, call);
            && InFlight(t) == InFlight(s) && Remaining(t) == Remaining(s) && t.flushed == s.flushed && t.lost == s.lost
            && t.accepted == s.accepted + [Entry(|s.accepted|, call, s.callers[call])]
            && multiset(t.accepted) == multiset(s.accepted) + multiset{Entry(|s.accepted|, call, s.callers[call])}
            && t.dropCount - s.dropCount == |t.dropped| - |s.dropped|
  {
  }

  /** A push that overflows moves the oldest row to the dropped ones. */
  lemma PushMoves<T>(queue: seq<T>, row: T, maxQueue: nat, dropped: seq<T>)
    requires maxQueue >= 1
    ensures var more := if |queue| >= maxQueue then dropped + [queue[0]] else dropped;
            multiset(more) + multiset(PushBounded(queue, row, maxQueue)) == multiset(dropped) + multiset(queue) + multiset{row}
  {
    if |queue| >= maxQueue {
      assert queue == [queue[0]] + queue[1..];
      assert multiset(queue) == multiset{queue[0]} + multiset(queue[1..]);
    }
  }

  ghost function Six<T>(flushed: multiset<T>, dropped: multiset<T>, lost: multiset<T>, batch: multiset<T>,
                        remaining: multiset<T>, queue: multiset<T>): multiset<T> {
    flushed + dropped + lost + batch + remaining + queue
  }

  lemma Added<T>(flushed: multiset<T>, dropped: multiset<T>, lost: multiset<T>, batch: multiset<T>, remaining: multiset<T>,
                 queue: multiset<T>, dropped': multiset<T>, queue': multiset<T>, row: multiset<T>)
    requires dropped' + queue' == dropped + queue + row
    ensures Six(flushed, dropped', lost, batch, remaining, queue') == Six(flushed, dropped, lost, batch, remaining, queue) + row
  {
    EndsTogether(flushed, dropped', lost, batch, remaining, queue');
    EndsTogether(flushed, dropped, lost, batch, remaining, queue);
  }

  lemma EndsTogether<T>(a: multiset<T>, b: multiset<T>, c: multiset<T>, d: multiset<T>, e: multiset<T>, f: multiset<T>)
    ensures Six(a, b, c, d, e, f) == (a + c + d + e) + (b + f)
  {
  }

  /** A batch can go to the flushed rows, to the lost ones, or to the front of the queue. */
  lemma BatchGoes<T>(a: multiset<T>, b: multiset<T>, c: multiset<T>, d: multiset<T>, e: multiset<T>, f: multiset<T>)
    ensures Six(a + d, b, c, multiset{}, e, f) == Six(a, b, c, d, e, f)
    ensures Six(a, b, c + d, multiset{}, e, f) == Six(a, b, c, d, e, f)
    ensures Six(a, b, c, multiset{}, e, d + f) == Six(a, b, c, d, e, f)
    ensures Six(a, b, c, f, e, multiset{}) == Six(a, b, c, multiset{}, e, f)
  {
  }

  lemma DrainGoes<T>(a: multiset<T>, b: multiset<T>, c: multiset<T>, d: multiset<T>, e: multiset<T>, f: multiset<T>)
    ensures Six(a + e, b, c, d, multiset{}, f) == Six(a, b, c, d, e, f)
    ensures Six(a, b, c + e, d, multiset{}, f) == Six(a, b, c, d, e, f)
    ensures Six(a, b, c, d, f, multiset{}) == Six(a, b, c, d, multiset{}, f)
  {
  }

  lemma BatchKeepsPlaces<Row>(maxQueue: nat, s: State<Row>, a: Action<Row>)
    requires maxQueue >= 1 && Enabled(s, a)
    requires a.Swap? || a.FlushOk? || a.FlushFailed? || a.FlushThrew?
    ensures Places(Next(maxQueue, s, a)) == Places(s)
  {
    var t := Next(maxQueue, s, a);
    assert Remaining(t) == Remaining(s) && t.dropped == s.dropped;
    BatchGoes(multiset(s.flushed), multiset(s.dropped), multiset(s.lost), multiset(InFlight(s)), multiset(Remaining(s)),
              multiset(s.queue));
    match a
    case Swap => assert InFlight(t) == s.queue && t.queue == [] && InFlight(s) == [];
    case FlushOk => assert multiset(t.flushed) == multiset(s.flushed) + multiset(InFlight(s)) && InFlight(t) == [];
    case FlushFailed => assert multiset(t.queue) == multiset(InFlight(s)) + multiset(s.queue) && InFlight(t) == [];
    case FlushThrew => assert multiset(t.lost) == multiset(s.lost) + multiset(InFlight(s)) && InFlight(t) == [];
  }

  lemma DrainKeepsPlaces<Row>(maxQueue: nat, s: State<Row>, a: Action<Row>)
    requires maxQueue >= 1 && Enabled(s, a) && (a.JoinAndTake? || a.DrainOk? || a.DrainFailed?)
    ensures Places(Next(maxQueue, s, a)) == Places(s)
  {
    var t := Next(maxQueue, s, a);
    assert InFlight(t) == InFlight(s) && t.dropped == s.dropped;
    DrainGoes(multiset(s.flushed), multiset(s.dropped), multiset(s.lost), multiset(InFlight(s)), multiset(Remaining(s)),
              multiset(s.queue));
    match a
    case JoinAndTake => assert Remaining(t) == s.queue && t.queue == [] && Remaining(s) == [];
    case DrainOk => assert multiset(t.flushed) == multiset(s.flushed) + multiset(Remaining(s)) && Remaining(t) == [];
    case DrainFailed => assert multiset(t.lost) == multiset(s.lost) + multiset(Remaining(s)) && Remaining(t) == [];
  }

  lemma StepKeepsLedger<Row>(maxQueue: nat, s: State<Row>, a: Action<Row>)
    requires maxQueue >= 1 && Enabled(s, a) && Ledger(s) && Threads(s)
    ensures Ledger(Next(maxQueue, s, a))
  {
    if a.Push? {
      PushKeepsLedger(maxQueue, s, a.call);
    } else if a.Swap? || a.FlushOk? || a.FlushFailed? || a.FlushThrew? {
      BatchKeepsPlaces(maxQueue, s, a);
    } else if a.JoinAndTake? || a.DrainOk? || a.DrainFailed? {
      DrainKeepsPlaces(maxQueue, s, a);
    } else {
      var t := Next(maxQueue, s, a);
      assert InFlight(t) == InFlight(s) && Remaining(t) == Remaining(s);
    }
  }

  lemma SubsetSize(small: set<nat>, big: set<nat>)
    requires small <= big
    ensures |small| <= |big|
  {
    assert big == small + (big - small);
  }

  lemma PushedFrom<T>(queue: seq<T>, row: T, maxQueue: nat)
    requires maxQueue >= 1
    ensures forall x :: x in PushBounded(queue, row, maxQueue) ==> x in queue || x == row
  {
    var kept := if |queue| >= maxQueue then queue[1..] else queue;
    assert forall x :: x in kept ==> x in queue;
  }

  lemma PushKeepsStragglers<Row>(maxQueue: nat, s: State<Row>, call: nat)
    requires maxQueue >= 1 && call in s.callers && Threads(s) && Stragglers(s)
    ensures Stragglers(PushStep(maxQueue, s, call))
  {
    var t := PushStep(maxQueue, s, call);
    var e := Entry(|s.accepted|, call, s.callers[call]);
    assert t.callers.Keys == s.callers.Keys - {call};
    assert |t.callers.Keys| == |s.callers.Keys| - 1;
    assert t.queue == PushBounded(s.queue, e, maxQueue);
    PushedFrom(s.queue, e, maxQueue);
  }

  lemma StepKeepsStragglers<Row>(maxQueue: nat, s: State<Row>, a: Action<Row>)
    requires maxQueue >= 1 && Enabled(s, a) && Threads(s) && Stragglers(s)
    ensures Stragglers(Next(maxQueue, s, a))
  {
    var t := Next(maxQueue, s, a);
    match a
    case Push(call) => PushKeepsStragglers(maxQueue, s, call);
    case JoinAndTake => SubsetSize(t.callers.Keys, t.closing);
    case _ =>
  }

  lemma StepKeepsBound<Row>(maxQueue: nat, s: State<Row>, a: Action<Row>)
    requires maxQueue >= 1 && Enabled(s, a) && Bounded(maxQueue, s) && Threads(s)
    ensures Bounded(maxQueue, Next(maxQueue, s, a))
  {
    assert (s.failures + 1) * maxQueue >= maxQueue;
    assert (s.failures + 2) * maxQueue == (s.failures + 1) * maxQueue + maxQueue;
  }

  lemma StepKeepsThreads<Row>(maxQueue: nat, s: State<Row>, a: Action<Row>)
    requires maxQueue >= 1 && Enabled(s, a) && Threads(s)
    ensures Threads(Next(maxQueue, s, a))
  {
  }

  lemma StepKeepsInv<Row>(maxQueue: nat, s: State<Row>, a: Action<Row>)
    requires maxQueue >= 1 && Enabled(s, a) && Inv(maxQueue, s)
    ensures Inv(maxQueue, Next(maxQueue, s, a))
  {
    StepKeepsThreads(maxQueue, s, a);
    StepKeepsLedger(maxQueue, s, a);
    StepKeepsOrder(maxQueue, s, a);
    StepKeepsStragglers(maxQueue, s, a);
    StepKeepsBound(maxQueue, s, a);
  }

  lemma {:induction false} RunKeepsInv<Row>(maxQueue: nat, s: State<Row>, run: seq<Action<Row>>)
    requires maxQueue >= 1 && ValidRun(maxQueue, s, run) && Inv(maxQueue, s)
    ensures Inv(maxQueue, After(maxQueue, s, run))
    decreases run
  {
    if run != [] {
      StepKeepsInv(maxQueue, s, run[0]);
      RunKeepsInv(maxQueue, Next(maxQueue, s, run[0]), run[1..]);
    }
  }

  lemma ReachableInv<Row(!new)>(maxQueue: nat, s: State<Row>)
    requires maxQueue >= 1 && Reachable(maxQueue, s)
    ensures Inv(maxQueue, s)
  {
    var run: seq<Action<Row>> :| ValidRun(maxQueue, Init(), run) && s == After(maxQueue, Init(), run);
    RunKeepsInv(maxQueue, Init(), run);
  }

  // ----- main results -----

  /** Conservation: every accepted row is flushed, dropped, lost or still held, each exactly
      once, and the drop counter is the number of rows dropped. */
  lemma EveryRowAccountedFor<Row(!new)>(maxQueue: nat, s: State<Row>)
    requires maxQueue >= 1 && Reachable(maxQueue, s)
    ensures multiset(s.flushed + s.dropped + s.lost + InFlight(s) + Remaining(s) + s.queue) == multiset(s.accepted)
    ensures |s.accepted| == |s.flushed| + s.dropCount + |s.lost| + |InFlight(s)| + |Remaining(s)| + |s.queue|
  {
    ReachableInv(maxQueue, s);
    var all := s.flushed + s.dropped + s.lost + InFlight(s) + Remaining(s) + s.queue;
    assert multiset(all) == multiset(s.accepted);
    assert |all| == |multiset(all)| == |multiset(s.accepted)| == |s.accepted|;
  }

  /** Flushed rows, then held rows, are a subsequence of the accepted rows: entry k is
      accepted row number `ticket`, and tickets strictly increase, so order is kept and no
      row is flushed twice. */
  lemma FlushedAndHeldAreSubsequence<Row(!new)>(maxQueue: nat, s: State<Row>)
    requires maxQueue >= 1 && Reachable(maxQueue, s)
    ensures forall i, j :: 0 <= i < j < |Line(s)| ==> Line(s)[i].ticket < Line(s)[j].ticket
    ensures forall e :: e in Line(s) ==> e.ticket < |s.accepted| && e == s.accepted[e.ticket]
  {
    ReachableInv(maxQueue, s);
    forall e | e in Line(s) ensures e.ticket < |s.accepted| && e == s.accepted[e.ticket] {
      assert e in multiset(s.accepted);
      assert e in s.accepted;
    }
  }

  /** Once the shutdown drain has taken the queue, whatever is in it came from an `enqueue`
      call that had passed its check before `accepting_` was cleared, and at most one row per
      such call can be stranded there. */
  lemma OnlyStragglersAfterDrain<Row(!new)>(maxQueue: nat, s: State<Row>)
    requires maxQueue >= 1 && Reachable(maxQueue, s) && Drained(s)
    ensures forall e :: e in s.queue ==> e.call in s.closing
    ensures s.callers.Keys <= s.closing && |s.queue| + |s.callers| <= |s.closing|
  {
    ReachableInv(maxQueue, s);
    assert |s.callers| == |s.callers.Keys|;
  }

  /** A row can be stranded, whatever the row. */
  lemma StrandedRowExists<Row(!new)>(maxQueue: nat, row: Row) returns (s: State<Row>)
    requires maxQueue >= 1
    ensures Reachable(maxQueue, s) && s.owner == Stopped && |s.queue| == 1 && s.queue[0].row == row
  {
    s := Start(maxQueue);
    s := Do(maxQueue, s, Call(row));
    s := Do(maxQueue, s, CloseGate);
    s := Do(maxQueue, s, Signal);
    s := Do(maxQueue, s, TestRunning);
    s := Do(maxQueue, s, JoinAndTake);
    s := Do(maxQueue, s, DrainOk);
    s := Do(maxQueue, s, Push(0));
  }

  /** Queue bound: after k consecutive failed flushes at most (k+1)*max_queue rows. */
  lemma QueueBound<Row(!new)>(maxQueue: nat, s: State<Row>)
    requires maxQueue >= 1 && Reachable(maxQueue, s)
    ensures |s.queue| <= (s.failures + 1) * maxQueue
    ensures s.writer.Flushing? ==> |s.queue| <= maxQueue && |s.writer.batch| <= (s.failures + 1) * maxQueue
  {
    ReachableInv(maxQueue, s);
    assert (s.failures + 1) * maxQueue >= maxQueue;
  }

  /** A flush that succeeds or throws restores the intended bound at once. */
  lemma DisposedBatchRestoresBound<Row(!new)>(maxQueue: nat, s: State<Row>, a: Action<Row>)
    requires maxQueue >= 1 && Reachable(maxQueue, s) && Enabled(s, a) && (a.FlushOk? || a.FlushThrew?)
    ensures |Next(maxQueue, s, a).queue| <= maxQueue && Next(maxQueue, s, a).failures == 0
  {
    ReachableInv(maxQueue, s);
  }

  /** A woken writer takes the whole queue if there is anything in it; nothing else it could do
      then leads it on. */
  lemma WokenWriterTakesAll<Row(!new)>(maxQueue: nat, s: State<Row>, a: Action<Row>)
    requires maxQueue >= 1 && Reachable(maxQueue, s) && s.writer == Waiting && s.queue != []
    requires Enabled(s, a) && Next(maxQueue, s, a).writer != s.writer
    ensures Next(maxQueue, s, a).writer == Flushing(s.queue) && Next(maxQueue, s, a).queue == []
  {
    ReachableInv(maxQueue, s);
  }

  // ----- runs put together -----

  lemma RunOne<Row>(maxQueue: nat, s: State<Row>, a: Action<Row>)
    requires maxQueue >= 1 && Enabled(s, a)
    ensures ValidRun(maxQueue, s, [a]) && After(maxQueue, s, [a]) == Next(maxQueue, s, a)
  {
    assert [a][1..] == [];
    assert ValidRun(maxQueue, Next(maxQueue, s, a), []);
  }

  lemma {:induction false} Concat<Row>(maxQueue: nat, s: State<Row>, first: seq<Action<Row>>, second: seq<Action<Row>>)
    requires maxQueue >= 1 && ValidRun(maxQueue, s, first)
    requires ValidRun(maxQueue, After(maxQueue, s, first), second)
    ensures ValidRun(maxQueue, s, first + second)
    ensures After(maxQueue, s, first + second) == After(maxQueue, After(maxQueue, s, first), second)
    decreases first
  {
    if first == [] {
      assert first + second == second;
    } else {
      assert (first + second)[1..] == first[1..] + second;
      Concat(maxQueue, Next(maxQueue, s, first[0]), first[1..], second);
    }
  }

  lemma Stay<Row(!new)>(maxQueue: nat, s: State<Row>, restarts: bool)
    requires maxQueue >= 1
    ensures Leads(maxQueue, s, s, restarts)
  {
    var run: seq<Action<Row>> := [];
    assert ValidRun(maxQueue, s, run) && NoRestart(run) && After(maxQueue, s, run) == s;
  }

  /** Take one more step of a run. */
  lemma Go<Row(!new)>(maxQueue: nat, o: State<Row>, s: State<Row>, restarts: bool, a: Action<Row>) returns (t: State<Row>)
    requires maxQueue >= 1 && Leads(maxQueue, o, s, restarts) && Enabled(s, a) && (restarts || !a.Begin?)
    ensures Leads(maxQueue, o, t, restarts) && t == Next(maxQueue, s, a)
  {
    t := Next(maxQueue, s, a);
    RunOne(maxQueue, s, a);
    var run: seq<Action<Row>> :| ValidRun(maxQueue, o, run) && (restarts || NoRestart(run)) && s == After(maxQueue, o, run);
    Concat(maxQueue, o, run, [a]);
  }

  lemma Do<Row(!new)>(maxQueue: nat, s: State<Row>, a: Action<Row>) returns (t: State<Row>)
    requires maxQueue >= 1 && Reachable(maxQueue, s) && Enabled(s, a)
    ensures Reachable(maxQueue, t) && t == Next(maxQueue, s, a)
  {
    t := Go(maxQueue, Init(), s, true, a);
  }

  lemma Start<Row(!new)>(maxQueue: nat) returns (s: State<Row>)
    requires maxQueue >= 1
    ensures Reachable(maxQueue, s)
    ensures s == Init<Row>().(running := true, accepting := true, writer := LoopTop, owner := Started)
  {
    s := Init();
    Stay(maxQueue, s, true);
    s := Do(maxQueue, s, Begin);
    s := Do(maxQueue, s, OpenGate);
    s := Do(maxQueue, s, Spawn);
  }

  /** Enqueue the same row n times while there is room. */
  lemma {:induction false} Fill<Row(!new)>(maxQueue: nat, s: State<Row>, row: Row, n: nat) returns (t: State<Row>)
    requires maxQueue >= 1 && Reachable(maxQueue, s) && s.accepting && |s.queue| + n <= maxQueue
    ensures Reachable(maxQueue, t) && |t.queue| == |s.queue| + n
    ensures t.accepting && t.running == s.running && t.writer == s.writer && t.owner == s.owner
    ensures t.failures == s.failures
    decreases n
  {
    if n == 0 {
      t := s;
    } else {
      t := Do(maxQueue, s, Call(row));
      t := Do(maxQueue, t, Push(s.nextCall));
      t := Fill(maxQueue, t, row, n - 1);
    }
  }

  /** The bound (k+1)*max_queue is attained, for every k. */
  lemma {:induction false} BoundAttained<Row(!new)>(maxQueue: nat, row: Row, k: nat) returns (s: State<Row>)
    requires maxQueue >= 1
    ensures Reachable(maxQueue, s) && s.failures == k && |s.queue| == (k + 1) * maxQueue
    ensures s.writer == Waiting && s.accepting && s.running
    decreases k
  {
    if k == 0 {
      s := Start(maxQueue);
      s := Do(maxQueue, s, TestRunning);
      s := Fill(maxQueue, s, row, maxQueue);
    } else {
      s := BoundAttained(maxQueue, row, k - 1);
      assert k * maxQueue >= 1;
      s := Do(maxQueue, s, Swap);
      s := Fill(maxQueue, s, row, maxQueue);
      s := Do(maxQueue, s, FlushFailed);
      s := Do(maxQueue, s, TestRunning);
      assert (k + 1) * maxQueue == k * maxQueue + maxQueue;
    }
  }

  /** The configured `max_queue` bounds the queue after k consecutive failures exactly when
      k is zero. */
  lemma ConfiguredBoundHoldsIffNoFailure<Row(!new)>(maxQueue: nat, row: Row, k: nat)
    requires maxQueue >= 1
    ensures (forall s: State<Row> :: Reachable(maxQueue, s) && s.failures == k ==> |s.queue| <= maxQueue) <==> k == 0
  {
    if k == 0 {
      forall s: State<Row> | Reachable(maxQueue, s) && s.failures == k ensures |s.queue| <= maxQueue {
        QueueBound(maxQueue, s);
      }
    } else {
      var s := BoundAttained(maxQueue, row, k);
      assert (k + 1) * maxQueue >= 2 * maxQueue;
    }
  }

  // ----- exactly when a row can be stranded -----

  /** However a `stop` that has just cleared `accepting_` goes on, the queue is empty when the
      writer is stopped. */
  ghost predicate NothingStranded<Row(!new)>(maxQueue: nat, closing: State<Row>)
    requires maxQueue >= 1
  {
    forall t :: Leads(maxQueue, closing, t, false) && t.owner == Stopped ==> t.queue == []
  }

  /** Stopping, with no call past its check. */
  ghost predicate ClosedTight<Row>(s: State<Row>) {
    && !s.accepting && s.callers == map[] && Threads(s)
    && (s.owner == Closing || s.owner == Signalled || ((s.owner.Draining? || s.owner == Stopped) && s.queue == []))
  }

  lemma {:induction false} StaysTight<Row>(maxQueue: nat, s: State<Row>, run: seq<Action<Row>>)
    requires maxQueue >= 1 && ClosedTight(s) && ValidRun(maxQueue, s, run) && NoRestart(run)
    ensures ClosedTight(After(maxQueue, s, run))
    decreases run
  {
    if run != [] {
      assert ClosedTight(Next(maxQueue, s, run[0]));
      StaysTight(maxQueue, Next(maxQueue, s, run[0]), run[1..]);
    }
  }

  /** Once told to stop, the writer thread can always reach its end without another row. */
  lemma WriterEnds<Row(!new)>(maxQueue: nat, o: State<Row>, s: State<Row>) returns (t: State<Row>)
    requires maxQueue >= 1 && Leads(maxQueue, o, s, false) && !s.running
    ensures Leads(maxQueue, o, t, false) && t.writer == Parked
    ensures t.owner == s.owner && t.running == s.running && t.callers == s.callers
  {
    t := s;
    if t.writer == Waiting {
      t := Go(maxQueue, o, t, false, if t.queue == [] then WakeEmpty else Swap);
    }
    if t.writer.Flushing? { t := Go(maxQueue, o, t, false, FlushThrew); }
    if t.writer == LoopTop { t := Go(maxQueue, o, t, false, TestRunning); }
  }

  /** One straggler is enough: it pushes after the drain. */
  lemma StragglerStranded<Row(!new)>(maxQueue: nat, s: State<Row>, call: nat) returns (t: State<Row>)
    requires maxQueue >= 1 && s.owner == Closing && call in s.callers
    ensures Leads(maxQueue, s, t, false) && t.owner == Stopped && |t.queue| == 1 && t.queue[0].row == s.callers[call]
  {
    Stay(maxQueue, s, false);
    t := Go(maxQueue, s, s, false, Signal);
    t := WriterEnds(maxQueue, s, t);
    t := Go(maxQueue, s, t, false, JoinAndTake);
    t := Go(maxQueue, s, t, false, DrainOk);
    t := Go(maxQueue, s, t, false, Push(call));
  }

  /** A `stop` can strand no row if and only if no `enqueue` call is past its check, and not yet
      in the lock, when `accepting_` is cleared. */
  lemma NothingStrandedIff<Row(!new)>(maxQueue: nat, s: State<Row>)
    requires maxQueue >= 1 && Reachable(maxQueue, s) && s.owner == Started
    ensures NothingStranded(maxQueue, Next(maxQueue, s, CloseGate)) <==> s.callers == map[]
  {
    ReachableInv(maxQueue, s);
    var closing := Next(maxQueue, s, CloseGate);
    if s.callers == map[] {
      forall t | Leads(maxQueue, closing, t, false) && t.owner == Stopped ensures t.queue == [] {
        var run: seq<Action<Row>> :| ValidRun(maxQueue, closing, run) && NoRestart(run) && t == After(maxQueue, closing, run);
        StaysTight(maxQueue, closing, run);
      }
    } else {
      var call :| call in s.callers;
      var t := StragglerStranded(maxQueue, closing, call);
    }
  }
}
