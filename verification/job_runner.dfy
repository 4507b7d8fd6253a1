/** The bounded job queue of `include/utils/background_job_runner.h`: any number of
    submitting threads, a fixed crew of workers, and a graceful drain.

    `stopping_` is set without the mutex, so it may flip while a submitter holds the mutex
    between its tests and its push.  The mutex is therefore part of the state. */
module JobRunner {
  import opened Common

  function Max(a: nat, b: nat): nat { if a >= b then a else b }

  // ----- the object, run by one thread at a time -----

  datatype Fields<Job> = Fields(jobs: seq<Job>, stopping: bool, submittedTotal: nat, droppedTotal: nat, peak: nat)

  /** What one submission does to the fields. */
  function Offered<Job>(maxQueue: nat, f: Fields<Job>, job: Job): Fields<Job> {
    if f.stopping || |f.jobs| >= maxQueue then f.(droppedTotal := f.droppedTotal + 1)
    else f.(jobs := f.jobs + [job], submittedTotal := f.submittedTotal + 1, peak := Max(f.peak, |f.jobs| + 1))
  }

  class Runner<Job> {
    const maxQueueSize: nat
    var jobs: seq<Job>
    var stopping: bool
    var submittedTotal: nat
    var droppedTotal: nat
    var peakQueueDepth: nat

    ghost predicate Valid() reads this {
      |jobs| <= maxQueueSize && |jobs| <= peakQueueDepth <= maxQueueSize
    }

    function Abs(): Fields<Job> reads this {
      Fields(jobs, stopping, submittedTotal, droppedTotal, peakQueueDepth)
    }

    constructor (maxQueueSize: nat)
      ensures Valid() && jobs == [] && !stopping && this.maxQueueSize == maxQueueSize
      ensures submittedTotal == droppedTotal == peakQueueDepth == 0
    {
      this.maxQueueSize := maxQueueSize;
      jobs, stopping := [], false;
      submittedTotal, droppedTotal, peakQueueDepth := 0, 0, 0;
    }

    /** `submit`; an empty function object is `None`. */
    method Submit(job: Option<Job>) returns (accepted: bool)
      requires Valid()
      modifies this`jobs, this`submittedTotal, this`droppedTotal, this`peakQueueDepth
      ensures Valid()
      ensures accepted <==> job.Some? && !stopping && |old(jobs)| < maxQueueSize
      ensures accepted ==>
                && jobs == old(jobs) + [job.value] && submittedTotal == old(submittedTotal) + 1
                && droppedTotal == old(droppedTotal) && peakQueueDepth == Max(old(peakQueueDepth), |jobs|)
      ensures !accepted ==>
                && jobs == old(jobs) && submittedTotal == old(submittedTotal)
                && peakQueueDepth == old(peakQueueDepth)
                && droppedTotal == old(droppedTotal) + (if job.Some? then 1 else 0)
      ensures stopping == old(stopping)
      ensures job.Some? ==> Abs() == Offered(maxQueueSize, old(Abs()), job.value)
    {
      if job.None? { return false; }
      if stopping || |jobs| >= maxQueueSize {
        droppedTotal := droppedTotal + 1;
        return false;
      }
      jobs := jobs + [job.value];
      submittedTotal := submittedTotal + 1;
      if |jobs| > peakQueueDepth { peakQueueDepth := |jobs|; }
      accepted := true;
    }

    /** What a woken worker does inside the mutex: take the oldest job, or learn that it may go. */
    method TakeOrLeave() returns (job: Option<Job>, leave: bool)
      requires Valid()
      modifies this`jobs
      ensures Valid()
      ensures old(jobs) != [] ==> job == Some(old(jobs)[0]) && jobs == old(jobs)[1..] && !leave
      ensures old(jobs) == [] ==> job == None && jobs == [] && leave == stopping
    {
      if jobs == [] { return None, stopping; }
      job, leave := Some(jobs[0]), false;
      jobs := jobs[1..];
    }
  }

  // ----- the protocol -----

  datatype WorkerPc<Job> = Idle | Busy(job: Job) | Gone

  /** `Submitting` is a submitter inside the mutex, past both tests, before its push. */
  datatype Lock<Job> = Free | Submitting(job: Job)

  datatype State<Job> = State(
    jobs: seq<Job>,
    stopping: bool,
    lock: Lock<Job>,
    workers: seq<WorkerPc<Job>>,
    submittedTotal: nat,
    droppedTotal: nat,
    peak: nat,
    accepted: seq<Job>,     // histories: pushed, taken by a worker, run to the end, refused
    started: seq<Job>,
    finished: seq<Job>,
    refused: seq<Job>
  )

  datatype Action<Job> =
    | Submit(job: Job) | Append | Stop
    | Take(worker: nat) | Leave(worker: nat) | Finish(worker: nat)

  function Init<Job>(crew: nat): State<Job> {
    State([], false, Free, seq(crew, _ => Idle), 0, 0, 0, [], [], [], [])
  }

  predicate Enabled<Job>(s: State<Job>, a: Action<Job>) {
    match a
    case Submit(_) => s.lock.Free?
    case Append => s.lock.Submitting?
    case Stop => true
    case Take(w) => s.lock.Free? && w < |s.workers| && s.workers[w].Idle? && s.jobs != []
    case Leave(w) => s.lock.Free? && w < |s.workers| && s.workers[w].Idle? && s.jobs == [] && s.stopping
    case Finish(w) => w < |s.workers| && s.workers[w].Busy?
  }

  function Next<Job>(maxQueue: nat, s: State<Job>, a: Action<Job>): State<Job>
    requires Enabled(s, a)
  {
    match a
    case Submit(job) =>
      if s.stopping || |s.jobs| >= maxQueue
      then s.(droppedTotal := s.droppedTotal + 1, refused := s.refused + [job])
      else s.(lock := Submitting(job))
    case Append =>
      var jobs := s.jobs + [s.lock.job];
      s.(jobs := jobs, lock := Free, accepted := s.accepted + [s.lock.job],
         submittedTotal := s.submittedTotal + 1, peak := Max(s.peak, |jobs|))
    case Stop => s.(stopping := true)
    case Take(w) =>
      s.(jobs := s.jobs[1..], started := s.started + [s.jobs[0]], workers := s.workers[w := Busy(s.jobs[0])])
    case Leave(w) => s.(workers := s.workers[w := Gone])
    case Finish(w) =>
      s.(finished := s.finished + [s.workers[w].job], workers := s.workers[w := Idle])
  }

  function FieldsOf<Job>(s: State<Job>): Fields<Job> {
    Fields(s.jobs, s.stopping, s.submittedTotal, s.droppedTotal, s.peak)
  }

  /** A stop may come between the tests and the push of a submission; the job still goes in. */
  lemma SubmissionIsOffer<Job>(maxQueue: nat, s: State<Job>, job: Job, stopBetween: bool)
    requires s.lock.Free?
    ensures var decided := Next(maxQueue, s, Submit(job));
            var before := if stopBetween && decided.lock.Submitting? then Next(maxQueue, decided, Stop) else decided;
            var after := if before.lock.Submitting? then Next(maxQueue, before, Append) else before;
            FieldsOf(after) == Offered(maxQueue, FieldsOf(s), job).(stopping := after.stopping)
            && (after.jobs == s.jobs <==> s.stopping || |s.jobs| >= maxQueue)
  {
  }

  ghost predicate ValidRun<Job>(maxQueue: nat, s: State<Job>, run: seq<Action<Job>>)
    decreases run
  {
    run == [] || (Enabled(s, run[0]) && ValidRun(maxQueue, Next(maxQueue, s, run[0]), run[1..]))
  }

  ghost function After<Job>(maxQueue: nat, s: State<Job>, run: seq<Action<Job>>): State<Job>
    requires ValidRun(maxQueue, s, run)
    decreases run
  {
    if run == [] then s else After(maxQueue, Next(maxQueue, s, run[0]), run[1..])
  }

  /** The greatest queue depth met along a run. */
  ghost function Deepest<Job>(maxQueue: nat, s: State<Job>, run: seq<Action<Job>>): nat
    requires ValidRun(maxQueue, s, run)
    decreases run
  {
    if run == [] then |s.jobs|
    else Max(|s.jobs|, Deepest(maxQueue, Next(maxQueue, s, run[0]), run[1..]))
  }

  // ----- what every run keeps -----

  function BusyJobs<Job>(workers: seq<WorkerPc<Job>>): multiset<Job> {
    if workers == [] then multiset{} else One(workers[0]) + BusyJobs(workers[1..])
  }

  function One<Job>(pc: WorkerPc<Job>): multiset<Job> {
    if pc.Busy? then multiset{pc.job} else multiset{}
  }

  lemma {:induction false} BusyUpdate<Job>(workers: seq<WorkerPc<Job>>, w: nat, pc: WorkerPc<Job>, job: Job)
    requires w < |workers|
    ensures BusyJobs(workers[w := pc])[job] + One(workers[w])[job] == BusyJobs(workers)[job] + One(pc)[job]
    decreases workers
  {
    var changed := workers[w := pc];
    if w == 0 {
      assert changed[1..] == workers[1..];
    } else {
      assert changed[1..] == workers[1..][w - 1 := pc];
      BusyUpdate(workers[1..], w - 1, pc, job);
    }
  }

  lemma {:induction false} BusyIffSomeWorker<Job>(workers: seq<WorkerPc<Job>>, job: Job)
    ensures job in BusyJobs(workers) <==> Busy(job) in workers
    decreases workers
  {
    if workers != [] {
      BusyIffSomeWorker(workers[1..], job);
    }
  }

  lemma {:induction false} NobodyBusy<Job>(workers: seq<WorkerPc<Job>>)
    requires forall w :: 0 <= w < |workers| ==> !workers[w].Busy?
    ensures BusyJobs(workers) == multiset{}
    decreases workers
  {
    if workers != [] {
      assert forall w :: 0 <= w < |workers[1..]| ==> workers[1..][w] == workers[w + 1];
      NobodyBusy(workers[1..]);
    }
  }

  predicate SomeoneGone<Job>(s: State<Job>) {
    exists w :: 0 <= w < |s.workers| && s.workers[w].Gone?
  }

  predicate AllGone<Job>(s: State<Job>) {
    forall w :: 0 <= w < |s.workers| ==> s.workers[w].Gone?
  }

  ghost predicate Counters<Job>(maxQueue: nat, s: State<Job>) {
    && s.accepted == s.started + s.jobs
    && s.submittedTotal == |s.accepted| && s.droppedTotal == |s.refused|
    && |s.jobs| + (if s.lock.Submitting? then 1 else 0) <= maxQueue
    && |s.jobs| <= s.peak <= maxQueue
  }

  ghost predicate Inv<Job(!new)>(maxQueue: nat, s: State<Job>) {
    && Counters(maxQueue, s)
    && (forall job :: Balanced(s, job))
    && (SomeoneGone(s) ==> s.stopping && s.jobs == [] && s.lock.Free?)
  }

  lemma InitInv<Job(!new)>(maxQueue: nat, crew: nat)
    ensures Inv<Job>(maxQueue, Init(crew))
  {
    NobodyBusy<Job>(seq(crew, _ => Idle));
  }

  lemma StepKeepsCounters<Job>(maxQueue: nat, s: State<Job>, a: Action<Job>)
    requires Counters(maxQueue, s) && Enabled(s, a)
    ensures Counters(maxQueue, Next(maxQueue, s, a))
  {
    match a
    case Append => assert s.started + (s.jobs + [s.lock.job]) == (s.started + s.jobs) + [s.lock.job];
    case Take(_) => assert s.started + s.jobs == (s.started + [s.jobs[0]]) + s.jobs[1..];
    case _ =>
  }

  /** One job's count: started as often as finished or running. */
  ghost predicate Balanced<Job>(s: State<Job>, job: Job) {
    multiset(s.started)[job] == multiset(s.finished)[job] + BusyJobs(s.workers)[job]
  }

  lemma AppendCount<T>(list: seq<T>, x: T, y: T)
    ensures multiset(list + [x])[y] == multiset(list)[y] + multiset{x}[y]
  {
  }

  lemma TakeKeepsBalance<Job>(maxQueue: nat, s: State<Job>, w: nat, job: Job)
    requires Balanced(s, job) && Enabled(s, Take(w))
    ensures Balanced(Next(maxQueue, s, Take(w)), job)
  {
    BusyUpdate(s.workers, w, Busy(s.jobs[0]), job);
    AppendCount(s.started, s.jobs[0], job);
  }

  lemma FinishKeepsBalance<Job>(maxQueue: nat, s: State<Job>, w: nat, job: Job)
    requires Balanced(s, job) && Enabled(s, Finish(w))
    ensures Balanced(Next(maxQueue, s, Finish(w)), job)
  {
    BusyUpdate(s.workers, w, Idle, job);
    AppendCount(s.finished, s.workers[w].job, job);
  }

  lemma StepKeepsBalance<Job>(maxQueue: nat, s: State<Job>, a: Action<Job>, job: Job)
    requires Balanced(s, job) && Enabled(s, a)
    ensures Balanced(Next(maxQueue, s, a), job)
  {
    if a.Take? {
      TakeKeepsBalance(maxQueue, s, a.worker, job);
    } else if a.Finish? {
      FinishKeepsBalance(maxQueue, s, a.worker, job);
    } else if a.Leave? {
      BusyUpdate(s.workers, a.worker, Gone, job);
    }
  }

  /** Nobody comes back, and only `Leave` makes a worker go. */
  lemma StepKeepsGone<Job>(maxQueue: nat, s: State<Job>, a: Action<Job>)
    requires Enabled(s, a)
    ensures SomeoneGone(s) ==> SomeoneGone(Next(maxQueue, s, a))
    ensures SomeoneGone(Next(maxQueue, s, a)) ==> SomeoneGone(s) || a.Leave?
  {
    var t := Next(maxQueue, s, a);
    if SomeoneGone(s) {
      var g :| 0 <= g < |s.workers| && s.workers[g].Gone?;
      assert t.workers[g].Gone?;
    }
    if SomeoneGone(t) && !a.Leave? {
      var g :| 0 <= g < |t.workers| && t.workers[g].Gone?;
      assert s.workers[g].Gone?;
    }
  }

  lemma StepKeepsInv<Job(!new)>(maxQueue: nat, s: State<Job>, a: Action<Job>)
    requires Inv(maxQueue, s) && Enabled(s, a)
    ensures Inv(maxQueue, Next(maxQueue, s, a))
    ensures SomeoneGone(s) ==> SomeoneGone(Next(maxQueue, s, a))
  {
    StepKeepsCounters(maxQueue, s, a);
    forall job ensures Balanced(Next(maxQueue, s, a), job) { StepKeepsBalance(maxQueue, s, a, job); }
    StepKeepsGone(maxQueue, s, a);
  }

  lemma {:induction false} RunKeepsInv<Job(!new)>(maxQueue: nat, s: State<Job>, run: seq<Action<Job>>)
    requires Inv(maxQueue, s) && ValidRun(maxQueue, s, run)
    ensures Inv(maxQueue, After(maxQueue, s, run))
    ensures SomeoneGone(s) ==> SomeoneGone(After(maxQueue, s, run))
    decreases run
  {
    if run != [] {
      StepKeepsInv(maxQueue, s, run[0]);
      RunKeepsInv(maxQueue, Next(maxQueue, s, run[0]), run[1..]);
    }
  }

  // ----- main results: `run` is any interleaving from a fresh runner with `crew` workers -----

  /** Jobs are started in the order they were accepted, each once: the accepted jobs are the
      started ones followed by the queue.  A submission is counted exactly once, as submitted
      or as dropped, and the queue never exceeds its limit. */
  lemma FifoAndCounters<Job(!new)>(maxQueue: nat, crew: nat, run: seq<Action<Job>>)
    requires ValidRun(maxQueue, Init(crew), run)
    ensures var s := After(maxQueue, Init(crew), run);
            && s.accepted == s.started + s.jobs
            && s.submittedTotal == |s.started| + |s.jobs| && s.droppedTotal == |s.refused|
            && |s.jobs| <= maxQueue
  {
    InitInv<Job>(maxQueue, crew);
    RunKeepsInv(maxQueue, Init(crew), run);
  }

  lemma {:induction false} PeakAlong<Job>(maxQueue: nat, s: State<Job>, run: seq<Action<Job>>)
    requires ValidRun(maxQueue, s, run) && |s.jobs| <= s.peak
    ensures After(maxQueue, s, run).peak == Max(s.peak, Deepest(maxQueue, s, run))
    decreases run
  {
    if run != [] {
      PeakAlong(maxQueue, Next(maxQueue, s, run[0]), run[1..]);
    }
  }

  /** The peak counter is exactly the greatest depth the queue ever had. */
  lemma PeakIsGreatestDepth<Job>(maxQueue: nat, crew: nat, run: seq<Action<Job>>)
    requires ValidRun(maxQueue, Init(crew), run)
    ensures After(maxQueue, Init(crew), run).peak == Deepest(maxQueue, Init(crew), run)
  {
    PeakAlong(maxQueue, Init(crew), run);
  }

  /** Once one worker has left, the queue is empty and stays empty, whatever happens next;
      a job accepted in the race with `shutdown` is not stranded. */
  lemma DrainIsFinal<Job(!new)>(maxQueue: nat, crew: nat, run: seq<Action<Job>>, more: seq<Action<Job>>)
    requires ValidRun(maxQueue, Init(crew), run)
    requires SomeoneGone(After(maxQueue, Init(crew), run))
    requires ValidRun(maxQueue, After(maxQueue, Init(crew), run), more)
    ensures var s := After(maxQueue, After(maxQueue, Init(crew), run), more);
            s.jobs == [] && s.started == s.accepted
    ensures After(maxQueue, After(maxQueue, Init(crew), run), more).accepted
            == After(maxQueue, Init(crew), run).accepted
  {
    InitInv<Job>(maxQueue, crew);
    RunKeepsInv(maxQueue, Init(crew), run);
    RunKeepsInv(maxQueue, After(maxQueue, Init(crew), run), more);
    NothingAcceptedAfterDrain(maxQueue, After(maxQueue, Init(crew), run), more);
  }

  lemma {:induction false} NothingAcceptedAfterDrain<Job(!new)>(maxQueue: nat, s: State<Job>, run: seq<Action<Job>>)
    requires Inv(maxQueue, s) && SomeoneGone(s) && ValidRun(maxQueue, s, run)
    ensures After(maxQueue, s, run).accepted == s.accepted
    decreases run
  {
    if run != [] {
      StepKeepsInv(maxQueue, s, run[0]);
      NothingAcceptedAfterDrain(maxQueue, Next(maxQueue, s, run[0]), run[1..]);
    }
  }

  /** When all workers have left, every accepted job was started once, in order of
      acceptance, and has run to its end. */
  lemma AllGoneMeansAllDone<Job(!new)>(maxQueue: nat, crew: nat, run: seq<Action<Job>>)
    requires ValidRun(maxQueue, Init(crew), run) && crew >= 1
    requires AllGone(After(maxQueue, Init(crew), run))
    ensures var s := After(maxQueue, Init(crew), run);
            s.started == s.accepted && multiset(s.finished) == multiset(s.accepted)
  {
    InitInv<Job>(maxQueue, crew);
    RunKeepsInv(maxQueue, Init(crew), run);
    var s := After(maxQueue, Init(crew), run);
    CrewSize(maxQueue, Init(crew), run);
    assert s.workers[0].Gone?;
    NobodyBusy(s.workers);
    assert forall job :: Balanced(s, job) ==> multiset(s.finished)[job] == multiset(s.accepted)[job];
  }

  lemma {:induction false} CrewSize<Job>(maxQueue: nat, s: State<Job>, run: seq<Action<Job>>)
    requires ValidRun(maxQueue, s, run)
    ensures |After(maxQueue, s, run).workers| == |s.workers|
    decreases run
  {
    if run != [] {
      CrewSize(maxQueue, Next(maxQueue, s, run[0]), run[1..]);
    }
  }
}
