/** Export jobs from creation to a terminal status (`src/api/export_controller.cpp`): the
    job table composed with the runner that executes the jobs.

    Request threads insert a job and then submit it; workers run `processExportJob`; each
    critical section of either mutex is one action.  `Escape` is an exception that leaves
    `processExportJob` (the directory creation at line 170 stands outside its `try`). */
module ExportJobs {
  import R = JobRunner
  import opened ExportTable

  type Id = nat

  datatype State = State(
    runner: R.State<Id>,
    table: map<Id, Status>,
    inserted: set<Id>,     // requests that stored a job and have not tried to submit it
    rejected: set<Id>,     // requests whose submission was refused, before `markJobFailed`
    begun: set<Id>,        // running jobs whose worker has set "processing"
    escaped: set<Id>,      // jobs whose run ended with an exception
    used: set<Id>          // every id ever drawn
  )

  datatype Action =
    | Create(id: Id, evicted: set<Id>)
    | SkipSubmit(id: Id)
    | Submit(id: Id) | Append | Stop
    | MarkRejected(id: Id)
    | Take(worker: nat) | Leave(worker: nat)
    | SetProcessing(worker: nat)
    | Complete(worker: nat, ok: bool)
    | Escape(worker: nat)

  function Init(crew: nat): State {
    State(R.Init(crew), map[], {}, {}, {}, {}, {})
  }

  predicate RunningAt(s: State, w: nat) {
    w < |s.runner.workers| && s.runner.workers[w].Busy?
  }

  function JobAt(s: State, w: nat): Id
    requires RunningAt(s, w)
  {
    s.runner.workers[w].job
  }

  ghost predicate Enabled(s: State, a: Action) {
    match a
    case Create(id, evicted) => id !in s.used && EvictionAllowed(s.table, evicted)
    case SkipSubmit(id) => id in s.inserted
    case Submit(id) => id in s.inserted && R.Enabled(s.runner, R.Submit(id))
    case Append => R.Enabled<Id>(s.runner, R.Append)
    case Stop => R.Enabled<Id>(s.runner, R.Stop)
    case MarkRejected(id) => id in s.rejected
    case Take(w) => R.Enabled<Id>(s.runner, R.Take(w))
    case Leave(w) => R.Enabled<Id>(s.runner, R.Leave(w))
    case SetProcessing(w) => RunningAt(s, w) && JobAt(s, w) !in s.begun
    case Complete(w, _) => RunningAt(s, w) && JobAt(s, w) in s.begun
    case Escape(w) => RunningAt(s, w)
  }

  /** Every write of a status is guarded by a lookup. */
  function SetIfPresent(table: map<Id, Status>, id: Id, status: Status): map<Id, Status> {
    if id in table then table[id := status] else table
  }

  function Next(maxQueue: nat, s: State, a: Action): State
    requires Enabled(s, a)
  {
    match a
    case Create(id, evicted) =>
      var kept := s.table - evicted;
      if |kept| >= MAX_JOBS then s.(table := kept, used := s.used + {id})
      else s.(table := kept[id := Queued], used := s.used + {id}, inserted := s.inserted + {id})
    case SkipSubmit(id) => s.(inserted := s.inserted - {id}, rejected := s.rejected + {id})
    case Submit(id) =>
      var r := R.Next(maxQueue, s.runner, R.Submit(id));
      if r.lock.Submitting? then s.(runner := r, inserted := s.inserted - {id})
      else s.(runner := r, inserted := s.inserted - {id}, rejected := s.rejected + {id})
    case Append => s.(runner := R.Next(maxQueue, s.runner, R.Append))
    case Stop => s.(runner := R.Next(maxQueue, s.runner, R.Stop))
    case MarkRejected(id) =>
      s.(table := SetIfPresent(s.table, id, Failed), rejected := s.rejected - {id})
    case Take(w) => s.(runner := R.Next(maxQueue, s.runner, R.Take(w)))
    case Leave(w) => s.(runner := R.Next(maxQueue, s.runner, R.Leave(w)))
    case SetProcessing(w) =>
      s.(table := SetIfPresent(s.table, JobAt(s, w), Processing), begun := s.begun + {JobAt(s, w)})
    case Complete(w, ok) =>
      s.(table := SetIfPresent(s.table, JobAt(s, w), if ok then Done else Failed),
         begun := s.begun - {JobAt(s, w)}, runner := R.Next(maxQueue, s.runner, R.Finish(w)))
    case Escape(w) =>
      s.(begun := s.begun - {JobAt(s, w)}, escaped := s.escaped + {JobAt(s, w)},
         runner := R.Next(maxQueue, s.runner, R.Finish(w)))
  }

  ghost predicate ValidRun(maxQueue: nat, s: State, run: seq<Action>)
    decreases run
  {
    run == [] || (Enabled(s, run[0]) && ValidRun(maxQueue, Next(maxQueue, s, run[0]), run[1..]))
  }

  ghost function After(maxQueue: nat, s: State, run: seq<Action>): State
    requires ValidRun(maxQueue, s, run)
    decreases run
  {
    if run == [] then s else After(maxQueue, Next(maxQueue, s, run[0]), run[1..])
  }

  // ----- the steps are what the object does -----

  /** The create handler's critical section on `Table` is one `Create` step on the map from id to
      status, which evicts what the two passes of pruning have taken out. */
  lemma CreateIsStep(maxQueue: nat, s: State, jobs: seq<ExportJob>, kept: seq<ExportJob>, job: ExportJob,
                     now: int, atAge: FileTimes, rounds: Rounds)
    requires KeyOrdered(jobs) && CappedFrom(DropStale(jobs, atAge, now), kept, rounds, 0)
    requires s.table == TableOf(jobs) && job.id !in s.used && job.status == Queued
    requires forall i :: 0 <= i < |jobs| ==> jobs[i].id != job.id
    ensures var a := Create(job.id, TableOf(jobs).Keys - TableOf(kept).Keys);
            && Enabled(s, a)
            && Next(maxQueue, s, a).table == TableOf(if |kept| < 200 then Inserted(kept, job) else kept)
            && (job.id in Next(maxQueue, s, a).inserted <==> |kept| < 200 || job.id in s.inserted)
  {
    PruneIsAllowedEviction(jobs, kept, now, atAge, rounds);
    StillAbsent(jobs, kept, now, atAge, rounds, job.id);
    InsertedTable(kept, job);
  }

  // ----- who is responsible for a job -----

  function Bit(b: bool): nat { if b then 1 else 0 }

  function InRunner(r: R.State<Id>, id: Id): nat {
    Bit(r.lock == R.Submitting(id)) + multiset(r.jobs)[id] + R.BusyJobs(r.workers)[id]
  }

  /** How many parties still have to act on the job: its request, the queue, or a worker. */
  function Owners(s: State, id: Id): nat {
    Bit(id in s.inserted) + Bit(id in s.rejected) + InRunner(s.runner, id)
  }

  /** At most one party owns a job; an owned job is in the table and active; a job in the
      table that nobody owns is terminal unless its run escaped. */
  ghost predicate JobInv(s: State, id: Id) {
    Consistent(Owners(s, id), R.BusyJobs(s.runner.workers)[id], ViewOf(s, id))
  }

  /** What the state says about one job; `Missing` is a job not in the table. */
  datatype View = View(used: bool, entry: Entry, begun: bool, escaped: bool)

  datatype Entry = Missing | Present(status: Status)

  function ViewOf(s: State, id: Id): View {
    View(id in s.used, if id in s.table then Present(s.table[id]) else Missing, id in s.begun, id in s.escaped)
  }

  predicate Consistent(owners: nat, busy: nat, v: View) {
    && owners <= 1
    && (owners == 1 ==> v.used && v.entry == Present(if v.begun then Processing else Queued) && !v.escaped)
    && (v.begun ==> busy == 1)
    && (v.escaped ==> v.used && v.entry.Present? && !Terminal(v.entry.status))
    && (v.entry.Present? ==> v.used)
    && (v.entry.Present? && owners == 0 && !v.escaped ==> Terminal(v.entry.status))
  }

  ghost predicate Inv(maxQueue: nat, s: State) {
    && R.Inv(maxQueue, s.runner)
    && |s.table| <= MAX_JOBS
    && forall id :: JobInv(s, id)
  }

  lemma WorkerOwns(s: State, w: nat)
    requires RunningAt(s, w)
    ensures R.BusyJobs(s.runner.workers)[JobAt(s, w)] >= 1
  {
    R.BusyIffSomeWorker(s.runner.workers, JobAt(s, w));
    assert R.Busy(JobAt(s, w)) == s.runner.workers[w];
  }

  /** Appending moves the job from the submitter to the queue, taking from the queue to a
      worker; the number of its owners does not change. */
  lemma AppendMoves(maxQueue: nat, r: R.State<Id>, id: Id)
    requires r.lock.Submitting?
    ensures InRunner(R.Next(maxQueue, r, R.Append), id) == InRunner(r, id)
  {
    assert multiset(r.jobs + [r.lock.job])[id] == multiset(r.jobs)[id] + multiset{r.lock.job}[id];
  }

  lemma TakeMoves(maxQueue: nat, r: R.State<Id>, w: nat, id: Id)
    requires R.Enabled<Id>(r, R.Take(w))
    ensures var t := R.Next(maxQueue, r, R.Take(w));
            && InRunner(t, id) == InRunner(r, id)
            && R.BusyJobs(t.workers)[id] >= R.BusyJobs(r.workers)[id]
  {
    R.BusyUpdate(r.workers, w, R.Busy(r.jobs[0]), id);
    HeadCount(r.jobs, id);
  }

  lemma HeadCount(jobs: seq<Id>, id: Id)
    requires jobs != []
    ensures multiset(jobs)[id] == Bit(jobs[0] == id) + multiset(jobs[1..])[id]
  {
    assert jobs == [jobs[0]] + jobs[1..];
    assert multiset(jobs) == multiset{jobs[0]} + multiset(jobs[1..]);
  }

  lemma LeaveMoves(maxQueue: nat, r: R.State<Id>, w: nat, id: Id)
    requires R.Enabled<Id>(r, R.Leave(w))
    ensures R.BusyJobs(R.Next(maxQueue, r, R.Leave(w)).workers)[id] == R.BusyJobs(r.workers)[id]
  {
    R.BusyUpdate(r.workers, w, R.Gone, id);
  }

  lemma FinishMoves(maxQueue: nat, r: R.State<Id>, w: nat, id: Id)
    requires R.Enabled<Id>(r, R.Finish(w))
    ensures R.BusyJobs(R.Next(maxQueue, r, R.Finish(w)).workers)[id]
            == R.BusyJobs(r.workers)[id] - Bit(r.workers[w].job == id)
  {
    R.BusyUpdate(r.workers, w, R.Idle, id);
  }

  function RunnerAction(a: Action): R.Action<Id>
    requires a.Submit? || a.Append? || a.Stop? || a.Take? || a.Leave? || a.Complete? || a.Escape?
  {
    match a
    case Submit(id) => R.Submit(id)
    case Append => R.Append
    case Stop => R.Stop
    case Take(w) => R.Take(w)
    case Leave(w) => R.Leave(w)
    case Complete(w, _) => R.Finish(w)
    case Escape(w) => R.Finish(w)
  }

  /** A submission hands the job over to the runner, or back to its request as refused. */
  lemma SubmitKeepsJob(maxQueue: nat, s: State, a: Action, id: Id)
    requires Enabled(s, a) && JobInv(s, id) && a.Submit?
    ensures JobInv(Next(maxQueue, s, a), id)
  {
    var t := Next(maxQueue, s, a);
    assert t.runner.workers == s.runner.workers && t.runner.jobs == s.runner.jobs && s.runner.lock.Free?;
    assert ViewOf(t, id) == ViewOf(s, id);
    if id == a.id {
      assert id in s.inserted && id !in t.inserted && id !in s.rejected;
      assert t.runner.lock == R.Submitting(id) <==> id !in t.rejected;
    } else {
      assert t.runner.lock != R.Submitting(id);
    }
    assert Owners(t, id) == Owners(s, id);
  }

  lemma AppendKeepsJob(maxQueue: nat, s: State, id: Id)
    requires Enabled(s, Append) && JobInv(s, id)
    ensures JobInv(Next(maxQueue, s, Append), id)
  {
    var t := Next(maxQueue, s, Append);
    assert t.runner.workers == s.runner.workers && ViewOf(t, id) == ViewOf(s, id);
    AppendMoves(maxQueue, s.runner, id);
  }

  lemma StopKeepsJob(maxQueue: nat, s: State, id: Id)
    requires Enabled(s, Stop) && JobInv(s, id)
    ensures JobInv(Next(maxQueue, s, Stop), id)
  {
    var t := Next(maxQueue, s, Stop);
    assert t.runner == s.runner.(stopping := true) && ViewOf(t, id) == ViewOf(s, id);
  }

  lemma WorkerStepKeepsJob(maxQueue: nat, s: State, a: Action, id: Id)
    requires Enabled(s, a) && JobInv(s, id) && (a.Take? || a.Leave?)
    ensures JobInv(Next(maxQueue, s, a), id)
  {
    if a.Take? {
      TakeMoves(maxQueue, s.runner, a.worker, id);
    } else {
      LeaveMoves(maxQueue, s.runner, a.worker, id);
    }
  }

  /** A finishing worker gives up the job it owned and no other. */
  lemma EndMoves(maxQueue: nat, s: State, a: Action, id: Id)
    requires Enabled(s, a) && JobInv(s, id) && (a.Complete? || a.Escape?)
    ensures var t := Next(maxQueue, s, a);
            && Owners(t, id) == Owners(s, id) - Bit(JobAt(s, a.worker) == id)
            && R.BusyJobs(t.runner.workers)[id] == R.BusyJobs(s.runner.workers)[id] - Bit(JobAt(s, a.worker) == id)
            && (JobAt(s, a.worker) == id ==> Owners(s, id) == 1)
  {
    WorkerOwns(s, a.worker);
    FinishMoves(maxQueue, s.runner, a.worker, id);
  }

  lemma EndView(maxQueue: nat, s: State, a: Action, id: Id)
    requires Enabled(s, a) && (a.Complete? || a.Escape?)
    ensures var v, w := ViewOf(s, id), ViewOf(Next(maxQueue, s, a), id);
            w == if JobAt(s, a.worker) != id then v
                 else if a.Escape? then v.(begun := false, escaped := true)
                 else v.(begun := false,
                         entry := if v.entry == Missing then Missing else Present(if a.ok then Done else Failed))
  {
  }

  lemma EndKeepsJob(maxQueue: nat, s: State, a: Action, id: Id)
    requires Enabled(s, a) && JobInv(s, id) && (a.Complete? || a.Escape?)
    ensures JobInv(Next(maxQueue, s, a), id)
  {
    EndMoves(maxQueue, s, a, id);
    EndView(maxQueue, s, a, id);
  }

  lemma CreateKeepsJob(maxQueue: nat, s: State, a: Action, id: Id)
    requires Enabled(s, a) && JobInv(s, id) && a.Create?
    ensures JobInv(Next(maxQueue, s, a), id)
  {
    var t := Next(maxQueue, s, a);
    assert t.runner == s.runner && t.rejected == s.rejected;
    if id != a.id {
      assert Owners(t, id) == Owners(s, id);
    }
  }

  /** A refused request keeps its job until it has marked it failed. */
  lemma RefusalKeepsJob(maxQueue: nat, s: State, a: Action, id: Id)
    requires Enabled(s, a) && JobInv(s, id) && (a.SkipSubmit? || a.MarkRejected?)
    ensures JobInv(Next(maxQueue, s, a), id)
  {
    var t := Next(maxQueue, s, a);
    assert t.runner == s.runner;
    if id != a.id {
      assert Owners(t, id) == Owners(s, id) && ViewOf(t, id) == ViewOf(s, id);
    }
  }

  lemma ProcessingKeepsJob(maxQueue: nat, s: State, a: Action, id: Id)
    requires Enabled(s, a) && JobInv(s, id) && a.SetProcessing?
    ensures JobInv(Next(maxQueue, s, a), id)
  {
    var t := Next(maxQueue, s, a);
    WorkerOwns(s, a.worker);
    assert Owners(t, id) == Owners(s, id);
    if id != JobAt(s, a.worker) {
      assert ViewOf(t, id) == ViewOf(s, id);
    }
  }

  lemma StepKeepsJob(maxQueue: nat, s: State, a: Action, id: Id)
    requires Enabled(s, a) && JobInv(s, id)
    ensures JobInv(Next(maxQueue, s, a), id)
  {
    if a.Submit? {
      SubmitKeepsJob(maxQueue, s, a, id);
    } else if a.Append? {
      AppendKeepsJob(maxQueue, s, id);
    } else if a.Stop? {
      StopKeepsJob(maxQueue, s, id);
    } else if a.Take? || a.Leave? {
      WorkerStepKeepsJob(maxQueue, s, a, id);
    } else if a.Complete? || a.Escape? {
      EndKeepsJob(maxQueue, s, a, id);
    } else if a.Create? {
      CreateKeepsJob(maxQueue, s, a, id);
    } else if a.SetProcessing? {
      ProcessingKeepsJob(maxQueue, s, a, id);
    } else {
      RefusalKeepsJob(maxQueue, s, a, id);
    }
  }

  lemma StepKeepsTableSize(maxQueue: nat, s: State, a: Action)
    requires Enabled(s, a) && |s.table| <= MAX_JOBS
    ensures |Next(maxQueue, s, a).table| <= MAX_JOBS
  {
    var t := Next(maxQueue, s, a);
    if a.Create? {
      var kept := s.table - a.evicted;
      SmallerMap(kept, s.table);
      OneMore(kept, a.id, Queued);
    } else {
      SmallerMap(t.table, s.table);
    }
  }

  lemma OneMore(table: map<Id, Status>, id: Id, status: Status)
    ensures |table[id := status]| <= |table| + 1
  {
    assert table[id := status].Keys == table.Keys + {id};
    assert |table.Keys + {id}| <= |table.Keys| + 1;
  }

  lemma {:induction false} SmallerMap(small: map<Id, Status>, big: map<Id, Status>)
    requires small.Keys <= big.Keys
    ensures |small| <= |big|
  {
    assert big.Keys == small.Keys + (big.Keys - small.Keys);
    assert |big.Keys| == |small.Keys| + |big.Keys - small.Keys|;
  }

  lemma StepKeepsInv(maxQueue: nat, s: State, a: Action)
    requires Inv(maxQueue, s) && Enabled(s, a)
    ensures Inv(maxQueue, Next(maxQueue, s, a))
  {
    StepKeepsTableSize(maxQueue, s, a);
    forall id ensures JobInv(Next(maxQueue, s, a), id) {
      StepKeepsJob(maxQueue, s, a, id);
    }
    if a.Submit? || a.Append? || a.Stop? || a.Take? || a.Leave? || a.Complete? || a.Escape? {
      R.StepKeepsInv(maxQueue, s.runner, RunnerAction(a));
    }
  }

  lemma InitInv(maxQueue: nat, crew: nat)
    ensures Inv(maxQueue, Init(crew))
  {
    R.InitInv<Id>(maxQueue, crew);
    R.NobodyBusy<Id>(seq(crew, _ => R.Idle));
  }

  lemma {:induction false} RunKeepsInv(maxQueue: nat, s: State, run: seq<Action>)
    requires Inv(maxQueue, s) && ValidRun(maxQueue, s, run)
    ensures Inv(maxQueue, After(maxQueue, s, run))
    decreases run
  {
    if run != [] {
      StepKeepsInv(maxQueue, s, run[0]);
      RunKeepsInv(maxQueue, Next(maxQueue, s, run[0]), run[1..]);
    }
  }

  // ----- main results, for every interleaving from an empty table -----

  ghost predicate Reachable(maxQueue: nat, crew: nat, s: State) {
    exists run :: ValidRun(maxQueue, Init(crew), run) && s == After(maxQueue, Init(crew), run)
  }

  lemma ReachableInv(maxQueue: nat, crew: nat, s: State)
    requires Reachable(maxQueue, crew, s)
    ensures Inv(maxQueue, s)
  {
    var run :| ValidRun(maxQueue, Init(crew), run) && s == After(maxQueue, Init(crew), run);
    InitInv(maxQueue, crew);
    RunKeepsInv(maxQueue, Init(crew), run);
  }

  lemma TableStaysBounded(maxQueue: nat, crew: nat, s: State)
    requires Reachable(maxQueue, crew, s)
    ensures |s.table| <= 200
  {
    ReachableInv(maxQueue, crew, s);
  }

  /** A job somebody still has to act on is in the table, so no eviction ever took it and the
      lookups that guard every status write always succeed. */
  lemma ActiveJobsAreNeverEvicted(maxQueue: nat, crew: nat, s: State)
    requires Reachable(maxQueue, crew, s)
    ensures forall id :: id in s.inserted || id in s.rejected ==> id in s.table
    ensures forall w :: RunningAt(s, w) ==> JobAt(s, w) in s.table
    ensures forall id :: id in s.runner.jobs ==> id in s.table && s.table[id] == Queued
  {
    ReachableInv(maxQueue, crew, s);
    forall id | id in s.inserted || id in s.rejected ensures id in s.table { assert JobInv(s, id); }
    forall w | RunningAt(s, w) ensures JobAt(s, w) in s.table {
      WorkerOwns(s, w);
      assert JobInv(s, JobAt(s, w));
    }
    forall id | id in s.runner.jobs ensures id in s.table && s.table[id] == Queued {
      assert JobInv(s, id);
      assert multiset(s.runner.jobs)[id] >= 1;
    }
  }

  /** A running job is neither being submitted nor queued, and no request still holds it. */
  lemma RunningJobIsNowhereElse(maxQueue: nat, crew: nat, s: State, w: nat)
    requires Reachable(maxQueue, crew, s) && RunningAt(s, w)
    ensures var id := JobAt(s, w);
            id !in s.runner.jobs && s.runner.lock != R.Submitting(id) && id !in s.inserted && id !in s.rejected
  {
    ReachableInv(maxQueue, crew, s);
    var id := JobAt(s, w);
    assert JobInv(s, id);
    WorkerOwns(s, w);
    assert id in s.runner.jobs ==> multiset(s.runner.jobs)[id] >= 1;
  }

  /** No two workers run the same job. */
  lemma OneOwner(maxQueue: nat, crew: nat, s: State, v: nat, w: nat)
    requires Reachable(maxQueue, crew, s) && RunningAt(s, v) && RunningAt(s, w) && v != w
    ensures JobAt(s, v) != JobAt(s, w) && JobAt(s, v) !in s.runner.jobs && JobAt(s, v) !in s.inserted
  {
    ReachableInv(maxQueue, crew, s);
    RunningJobIsNowhereElse(maxQueue, crew, s, v);
    assert JobInv(s, JobAt(s, v));
    if JobAt(s, w) == JobAt(s, v) {
      TwoBusy(s.runner.workers, v, w);
    }
  }

  /** A queued job is queued once, and is neither being submitted nor with a request. */
  lemma QueuedJobIsQueuedOnce(maxQueue: nat, crew: nat, s: State, id: Id)
    requires Reachable(maxQueue, crew, s) && id in s.runner.jobs
    ensures multiset(s.runner.jobs)[id] == 1
    ensures s.runner.lock != R.Submitting(id) && id !in s.inserted && id !in s.rejected
  {
    ReachableInv(maxQueue, crew, s);
    assert JobInv(s, id);
    assert multiset(s.runner.jobs)[id] >= 1;
  }

  lemma TwoBusy(workers: seq<R.WorkerPc<Id>>, v: nat, w: nat)
    requires v < |workers| && w < |workers| && v != w && workers[v].Busy? && workers[v] == workers[w]
    ensures R.BusyJobs(workers)[workers[v].job] >= 2
  {
    var others := workers[v := R.Idle];
    R.BusyUpdate(workers, v, R.Idle, workers[v].job);
    R.BusyIffSomeWorker(others, workers[v].job);
    assert others[w] == workers[w];
  }

  predicate StatusMayMove(from: Status, to: Status) {
    || from == to
    || (from == Queued && (to == Processing || to == Failed))
    || (from == Processing && (to == Done || to == Failed))
  }

  /** The job whose status an action writes. */
  function Written(s: State, a: Action): Id
    requires a.MarkRejected? || ((a.SetProcessing? || a.Complete?) && RunningAt(s, a.worker))
  {
    if a.MarkRejected? then a.id else JobAt(s, a.worker)
  }

  lemma WriterOwnsJob(s: State, a: Action)
    requires Enabled(s, a) && (a.MarkRejected? || a.SetProcessing? || a.Complete?)
    requires JobInv(s, Written(s, a))
    ensures Written(s, a) in s.table
    ensures s.table[Written(s, a)] == if a.Complete? then Processing else Queued
  {
    if !a.MarkRejected? {
      WorkerOwns(s, a.worker);
    }
  }

  ghost predicate StatusStep(s: State, a: Action, t: State, id: Id) {
    && (id in s.table && id in t.table ==> StatusMayMove(s.table[id], t.table[id]))
    && (id in s.table && id !in t.table ==> a.Create? && Terminal(s.table[id]))
    && (id !in s.table && id in t.table ==> a.Create? && a.id == id && id !in s.used && t.table[id] == Queued)
  }

  lemma StatusStepHolds(maxQueue: nat, s: State, a: Action, id: Id)
    requires Enabled(s, a) && JobInv(s, id)
    requires a.MarkRejected? || a.SetProcessing? || a.Complete? ==> JobInv(s, Written(s, a))
    ensures StatusStep(s, a, Next(maxQueue, s, a), id)
  {
    if a.MarkRejected? || a.SetProcessing? || a.Complete? {
      WriterOwnsJob(s, a);
    }
  }

  /** The status machine: a step may move Queued to Processing or Failed and Processing to
      Done or Failed, so a terminal status never changes; only an eviction removes an entry,
      and only a terminal one; an id absent from the table appears only when it is freshly
      drawn, so an evicted job is never re-inserted. */
  lemma StatusMachine(maxQueue: nat, crew: nat, s: State, a: Action, id: Id)
    requires Reachable(maxQueue, crew, s) && Enabled(s, a)
    ensures StatusStep(s, a, Next(maxQueue, s, a), id)
    ensures var t := Next(maxQueue, s, a);
            id in s.table && id in t.table && t.table[id] != s.table[id] ==>
              || (s.table[id] == Queued && (t.table[id] == Processing || t.table[id] == Failed))
              || (s.table[id] == Processing && (t.table[id] == Done || t.table[id] == Failed))
    ensures var t := Next(maxQueue, s, a);
            id in s.table && id !in t.table ==> s.table[id] == Done || s.table[id] == Failed
  {
    ReachableInv(maxQueue, crew, s);
    StatusStepHolds(maxQueue, s, a, id);
  }

  /** All workers have left and no request is between its insertion and its answer. */
  predicate Drained(s: State) {
    R.AllGone(s.runner) && s.inserted == {} && s.rejected == {}
  }

  /** After the drain a job in the table is terminal exactly when its run did not escape; so
      every remaining job is done or failed if and only if no run escaped. */
  lemma DrainedJobsAreTerminal(maxQueue: nat, crew: nat, s: State)
    requires Reachable(maxQueue, crew, s) && crew >= 1 && Drained(s)
    ensures forall id :: id in s.table ==> (Terminal(s.table[id]) <==> id !in s.escaped)
    ensures (forall id :: id in s.table ==> s.table[id] == Done || s.table[id] == Failed) <==> s.escaped == {}
  {
    ReachableInv(maxQueue, crew, s);
    NobodyOwnsAfterDrain(maxQueue, crew, s);
    forall id | id in s.table ensures Terminal(s.table[id]) <==> id !in s.escaped {
      assert JobInv(s, id) && Owners(s, id) == 0;
    }
    if s.escaped != {} {
      var id :| id in s.escaped;
      assert JobInv(s, id) && !Terminal(s.table[id]);
    }
  }

  lemma NobodyOwnsAfterDrain(maxQueue: nat, crew: nat, s: State)
    requires Reachable(maxQueue, crew, s) && crew >= 1 && Drained(s)
    ensures forall id :: Owners(s, id) == 0
  {
    ReachableInv(maxQueue, crew, s);
    var run :| ValidRun(maxQueue, Init(crew), run) && s == After(maxQueue, Init(crew), run);
    CrewSize(maxQueue, Init(crew), run);
    assert s.runner.workers[0].Gone?;
    R.NobodyBusy(s.runner.workers);
  }

  lemma RunnerKeepsCrew(maxQueue: nat, r: R.State<Id>, a: R.Action<Id>)
    requires R.Enabled(r, a)
    ensures |R.Next(maxQueue, r, a).workers| == |r.workers|
  {
  }

  lemma StepKeepsCrew(maxQueue: nat, s: State, a: Action)
    requires Enabled(s, a)
    ensures |Next(maxQueue, s, a).runner.workers| == |s.runner.workers|
  {
    if a.Submit? || a.Append? || a.Stop? || a.Take? || a.Leave? || a.Complete? || a.Escape? {
      RunnerKeepsCrew(maxQueue, s.runner, RunnerAction(a));
    }
  }

  lemma {:induction false} CrewSize(maxQueue: nat, s: State, run: seq<Action>)
    requires ValidRun(maxQueue, s, run)
    ensures |After(maxQueue, s, run).runner.workers| == |s.runner.workers|
    decreases run
  {
    if run != [] {
      StepKeepsCrew(maxQueue, s, run[0]);
      CrewSize(maxQueue, Next(maxQueue, s, run[0]), run[1..]);
    }
  }

  lemma {:induction false} ExtendRun(maxQueue: nat, s: State, run: seq<Action>, a: Action)
    requires ValidRun(maxQueue, s, run) && Enabled(After(maxQueue, s, run), a)
    ensures ValidRun(maxQueue, s, run + [a])
    ensures After(maxQueue, s, run + [a]) == Next(maxQueue, After(maxQueue, s, run), a)
    decreases run
  {
    if run == [] {
      assert ([] + [a])[1..] == [];
      assert ValidRun(maxQueue, Next(maxQueue, s, a), []);
    } else {
      assert (run + [a])[1..] == run[1..] + [a];
      ExtendRun(maxQueue, Next(maxQueue, s, run[0]), run[1..], a);
    }
  }

  lemma Do(maxQueue: nat, crew: nat, s: State, a: Action) returns (t: State)
    requires Reachable(maxQueue, crew, s) && Enabled(s, a)
    ensures Reachable(maxQueue, crew, t) && t == Next(maxQueue, s, a)
  {
    var run :| ValidRun(maxQueue, Init(crew), run) && s == After(maxQueue, Init(crew), run);
    ExtendRun(maxQueue, Init(crew), run, a);
    t := Next(maxQueue, s, a);
  }

  /** What an escape leaves behind is final: whatever happens next, the job keeps its active
      status and its place in the table. */
  lemma EscapedJobNeverMoves(maxQueue: nat, crew: nat, s: State, a: Action, id: Id)
    requires Reachable(maxQueue, crew, s) && Enabled(s, a) && id in s.escaped
    ensures var t := Next(maxQueue, s, a);
            id in t.escaped && id in s.table && id in t.table && t.table[id] == s.table[id] && !Terminal(t.table[id])
  {
    ReachableInv(maxQueue, crew, s);
    assert JobInv(s, id);
    if a.MarkRejected? || a.SetProcessing? || a.Complete? {
      assert JobInv(s, Written(s, a));
      WriterOwnsJob(s, a);
      if !a.MarkRejected? { WorkerOwns(s, a.worker); }
    }
  }

  lemma {:induction false} EscapedJobStaysForever(maxQueue: nat, crew: nat, s: State, run: seq<Action>, id: Id)
    requires Reachable(maxQueue, crew, s) && id in s.escaped && ValidRun(maxQueue, s, run)
    ensures var t := After(maxQueue, s, run);
            id in s.table && id in t.table && t.table[id] == s.table[id] && !Terminal(s.table[id])
    decreases run
  {
    ReachableInv(maxQueue, crew, s);
    assert JobInv(s, id);
    if run != [] {
      EscapedJobNeverMoves(maxQueue, crew, s, run[0], id);
      var t := Do(maxQueue, crew, s, run[0]);
      EscapedJobStaysForever(maxQueue, crew, t, run[1..], id);
    }
  }

  /** Such a job there can be, with any number of workers: a run that ends fully drained with
      one job, still "queued". */
  lemma EscapedJobStaysQueued(maxQueue: nat, crew: nat) returns (s: State)
    requires maxQueue >= 1 && crew >= 1
    ensures Reachable(maxQueue, crew, s) && Drained(s) && s.table == map[0 := Queued] && s.escaped == {0}
  {
    s := OneJobEscaped(maxQueue, crew);
    s := AllLeave(maxQueue, crew, s, crew);
  }

  /** The first n workers leave a stopped and empty runner. */
  lemma {:induction false} AllLeave(maxQueue: nat, crew: nat, s: State, n: nat) returns (t: State)
    requires Reachable(maxQueue, crew, s) && n <= crew == |s.runner.workers|
    requires s.runner.stopping && s.runner.lock.Free? && s.runner.jobs == []
    requires forall w :: 0 <= w < crew ==> s.runner.workers[w].Idle?
    ensures Reachable(maxQueue, crew, t) && |t.runner.workers| == crew
    ensures t == s.(runner := s.runner.(workers := t.runner.workers))
    ensures forall w :: 0 <= w < crew ==> t.runner.workers[w] == if w < n then R.Gone else R.Idle
    decreases n
  {
    if n == 0 {
      t := s;
    } else {
      t := AllLeave(maxQueue, crew, s, n - 1);
      t := Do(maxQueue, crew, t, Leave(n - 1));
    }
  }

  /** The only worker that is not idle is worker 0. */
  predicate OthersIdle(workers: seq<R.WorkerPc<Id>>, first: R.WorkerPc<Id>) {
    workers != [] && workers[0] == first && forall w :: 0 < w < |workers| ==> workers[w].Idle?
  }

  lemma OneJobEscaped(maxQueue: nat, crew: nat) returns (s: State)
    requires maxQueue >= 1 && crew >= 1
    ensures Reachable(maxQueue, crew, s) && s.table == map[0 := Queued] && s.inserted == {} && s.rejected == {}
    ensures s.escaped == {0} && s.runner.lock.Free? && s.runner.jobs == [] && s.runner.stopping
    ensures |s.runner.workers| == crew && OthersIdle(s.runner.workers, R.Idle)
  {
    s := OneJobRunning(maxQueue, crew);
    var before := s.runner;
    s := Do(maxQueue, crew, s, Escape(0));
    assert s.runner == R.Next(maxQueue, before, R.Finish(0));
  }

  lemma OneJobRunning(maxQueue: nat, crew: nat) returns (s: State)
    requires maxQueue >= 1 && crew >= 1
    ensures Reachable(maxQueue, crew, s) && s.table == map[0 := Queued] && s.inserted == {} && s.rejected == {}
    ensures s.escaped == {} && s.runner.lock.Free? && s.runner.jobs == [] && s.runner.stopping
    ensures |s.runner.workers| == crew && OthersIdle(s.runner.workers, R.Busy(0))
  {
    s := OneJobSubmitted(maxQueue, crew);
    s := Do(maxQueue, crew, s, Stop);
    var before := s.runner;
    assert before.jobs == [0] && before.stopping;
    s := Do(maxQueue, crew, s, Take(0));
    assert s.runner == R.Next(maxQueue, before, R.Take(0));
  }

  lemma OneJobStored(maxQueue: nat, crew: nat) returns (s: State)
    requires maxQueue >= 1 && crew >= 1
    ensures Reachable(maxQueue, crew, s) && s.runner == R.Init(crew) && s.inserted == {0}
    ensures s.table == map[0 := Queued] && s.rejected == {} && s.escaped == {}
  {
    s := Init(crew);
    assert ValidRun(maxQueue, s, []) && After(maxQueue, s, []) == s;
    assert EvictionAllowed(s.table, {});
    s := Do(maxQueue, crew, s, Create(0, {}));
  }

  lemma OneJobSubmitted(maxQueue: nat, crew: nat) returns (s: State)
    requires maxQueue >= 1 && crew >= 1
    ensures Reachable(maxQueue, crew, s) && s.table == map[0 := Queued] && s.inserted == {} && s.rejected == {}
    ensures s.escaped == {} && s.runner.lock.Free? && s.runner.jobs == [0]
    ensures |s.runner.workers| == crew && OthersIdle(s.runner.workers, R.Idle)
  {
    s := OneJobStored(maxQueue, crew);
    var stored := s.runner;
    s := Do(maxQueue, crew, s, Submit(0));
    assert s.runner == stored.(lock := R.Submitting(0)) && s.inserted == {};
    s := Do(maxQueue, crew, s, Append);
  }
}
