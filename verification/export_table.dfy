/** The job table of `src/api/export_controller.cpp` and the pruning that keeps it bounded.

    The table is the key-ordered `std::map`; a job id ("export_" and 32 hexadecimal digits)
    is a number, so key order is numeric order.  File modification times come from outside:
    a map from path to time, where an absent path is a failed lookup. */
module ExportTable {
  import opened Common

  const MAX_JOBS: nat := 200
  const MAX_AGE_SECONDS: int := 24 * 3600

  datatype Status = Queued | Processing | Done | Failed

  datatype ExportJob = ExportJob(id: nat, status: Status, outputPath: string, errorMessage: string)

  type FileTimes = map<string, int>

  predicate Terminal(status: Status) { status.Done? || status.Failed? }

  predicate Finished(job: ExportJob) { Terminal(job.status) }

  ghost predicate KeyOrdered(jobs: seq<ExportJob>) {
    forall i, j :: 0 <= i < j < |jobs| ==> jobs[i].id < jobs[j].id
  }

  /** First pass: a finished job goes when its output is gone or more than a day old. */
  predicate Stale(job: ExportJob, times: FileTimes, now: int) {
    Finished(job) && (job.outputPath !in times || now - times[job.outputPath] > MAX_AGE_SECONDS)
  }

  function DropStale(jobs: seq<ExportJob>, times: FileTimes, now: int): seq<ExportJob> {
    if jobs == [] then []
    else (if Stale(jobs[0], times, now) then [] else [jobs[0]]) + DropStale(jobs[1..], times, now)
  }

  function Without(jobs: seq<ExportJob>, i: nat): seq<ExportJob>
    requires i < |jobs|
  {
    jobs[..i] + jobs[i + 1..]
  }

  /** `b` is evicted no later than `c`: its output is gone, or is at least as old. */
  predicate NoYounger(b: ExportJob, c: ExportJob, times: FileTimes) {
    b.outputPath !in times || (c.outputPath in times && times[b.outputPath] <= times[c.outputPath])
  }

  /** The victim of one round of the second pass: a finished job no younger than any other. */
  ghost predicate IsVictim(jobs: seq<ExportJob>, v: int, times: FileTimes) {
    && 0 <= v < |jobs| && Finished(jobs[v])
    && forall i :: 0 <= i < |jobs| && Finished(jobs[i]) ==> NoYounger(jobs[v], jobs[i], times)
  }

  /** The scan order breaks ties: the victim with the least key. */
  ghost predicate FirstVictim(jobs: seq<ExportJob>, v: int, times: FileTimes) {
    IsVictim(jobs, v, times) && forall i :: 0 <= i < v ==> !IsVictim(jobs, i, times)
  }

  /** The scan of lines 75 to 83: the first finished job whose output is gone, otherwise the
      first of those with the least time; -1 when no job is finished. */
  method FindVictim(jobs: seq<ExportJob>, times: FileTimes) returns (oldest: int)
    ensures oldest == -1 <==> forall i :: 0 <= i < |jobs| ==> jobs[i].status == Queued || jobs[i].status == Processing
    ensures oldest != -1 ==> FirstVictim(jobs, oldest, times)
    ensures oldest != -1 ==>
        && 0 <= oldest < |jobs| && (jobs[oldest].status == Done || jobs[oldest].status == Failed)
        && forall i :: 0 <= i < |jobs| && (jobs[i].status == Done || jobs[i].status == Failed) ==>
             jobs[oldest].outputPath in times ==>
               jobs[i].outputPath in times && times[jobs[oldest].outputPath] <= times[jobs[i].outputPath]
  {
    oldest := -1;
    var oldestTime := 0;
    for it := 0 to |jobs|
      invariant -1 <= oldest < it
      invariant oldest == -1 <==> forall i :: 0 <= i < it ==> !Finished(jobs[i])
      invariant oldest != -1 ==>
          && Finished(jobs[oldest]) && jobs[oldest].outputPath in times
          && oldestTime == times[jobs[oldest].outputPath]
      invariant forall i :: 0 <= i < it && Finished(jobs[i]) ==>
          jobs[i].outputPath in times && oldestTime <= times[jobs[i].outputPath]
      invariant forall i :: 0 <= i < oldest && Finished(jobs[i]) ==> oldestTime < times[jobs[i].outputPath]
    {
      if !Finished(jobs[it]) { continue; }
      if jobs[it].outputPath !in times { return it; }
      var t := times[jobs[it].outputPath];
      if oldest == -1 || t < oldestTime { oldest, oldestTime := it, t; }
    }
  }

  /** What each round of the second pass sees of the file system, which may change from one
      round to the next. */
  type Rounds = nat -> FileTimes

  /** Rounds of the second pass, from the n-th on: from `before`, evict victims until below the
      cap or until only active jobs are left. */
  ghost predicate CappedFrom(before: seq<ExportJob>, after: seq<ExportJob>, rounds: Rounds, n: nat)
    decreases |before|
  {
    if |before| < MAX_JOBS || (forall i :: 0 <= i < |before| ==> !Finished(before[i])) then
      after == before
    else
      exists v :: FirstVictim(before, v, rounds(n)) && CappedFrom(Without(before, v), after, rounds, n + 1)
  }

  class Table {
    var jobs: seq<ExportJob>

    ghost predicate Valid() reads this { KeyOrdered(jobs) && |jobs| <= MAX_JOBS }

    constructor ()
      ensures Valid() && jobs == []
    {
      jobs := [];
    }

    /** First loop of `pruneOldExportJobsLocked`. */
    method DropStaleJobs(now: int, times: FileTimes)
      modifies this
      ensures jobs == DropStale(old(jobs), times, now)
      ensures forall j :: j in jobs <==>
          j in old(jobs) && (j.status == Queued || j.status == Processing
                             || (j.outputPath in times && now - times[j.outputPath] <= 86400))
    {
      DropStaleKeeps(jobs, times, now);
      var i := 0;
      while i < |jobs|
        invariant 0 <= i <= |jobs|
        invariant jobs[..i] + DropStale(jobs[i..], times, now) == DropStale(old(jobs), times, now)
        decreases |jobs| - i
      {
        ScanStep(jobs, i, times, now);
        if Stale(jobs[i], times, now) {
          jobs := Without(jobs, i);
        } else {
          i := i + 1;
        }
      }
      assert jobs[..i] == jobs;
    }

    /** Second loop: while the table is full, erase the oldest finished job. */
    method EvictOldest(rounds: Rounds)
      requires KeyOrdered(jobs)
      modifies this
      ensures CappedFrom(old(jobs), jobs, rounds, 0)
    {
      var n: nat := 0;
      while |jobs| >= MAX_JOBS
        invariant KeyOrdered(jobs)
        invariant forall after :: CappedFrom(jobs, after, rounds, n) ==> CappedFrom(old(jobs), after, rounds, 0)
        decreases |jobs|
      {
        var oldest := FindVictim(jobs, rounds(n));
        if oldest == -1 { break; }
        ghost var was := jobs;
        jobs := Without(jobs, oldest);
        WithoutKeeps(was, oldest);
        assert FirstVictim(was, oldest, rounds(n));
        n := n + 1;
      }
      assert CappedFrom(jobs, jobs, rounds, n);
    }

    /** `pruneOldExportJobsLocked`; `atAge` and `rounds` are what the first loop and the rounds
        of the second see of the file system. */
    method Prune(now: int, atAge: FileTimes, rounds: Rounds)
      requires Valid()
      modifies this
      ensures Valid()
      ensures CappedFrom(DropStale(old(jobs), atAge, now), jobs, rounds, 0)
    {
      DropStaleJobs(now, atAge);
      DropStaleKeeps(old(jobs), atAge, now);
      EvictOldest(rounds);
      CappedKeeps(DropStale(old(jobs), atAge, now), jobs, rounds, 0);
    }

    /** The create handler's critical section: prune, refuse when still full, else insert. */
    method Create(job: ExportJob, now: int, atAge: FileTimes, rounds: Rounds) returns (stored: bool)
      requires Valid() && forall i :: 0 <= i < |jobs| ==> jobs[i].id != job.id
      modifies this
      ensures Valid()
      ensures exists kept ::
                && KeyOrdered(kept) && CappedFrom(DropStale(old(jobs), atAge, now), kept, rounds, 0)
                && stored == (|kept| < 200)
                && jobs == if stored then Inserted(kept, job) else kept
    {
      Prune(now, atAge, rounds);
      ghost var kept := jobs;
      if |jobs| >= MAX_JOBS { return false; }
      StillAbsent(old(jobs), jobs, now, atAge, rounds, job.id);
      InsertJob(job);
      stored := true;
      assert jobs == Inserted(kept, job);
    }

    method InsertJob(job: ExportJob)
      requires KeyOrdered(jobs) && forall k :: 0 <= k < |jobs| ==> jobs[k].id != job.id
      modifies this
      ensures KeyOrdered(jobs) && jobs == Inserted(old(jobs), job) && |jobs| == |old(jobs)| + 1
    {
      var i := 0;
      while i < |jobs| && jobs[i].id < job.id
        invariant 0 <= i <= |jobs|
        invariant forall k :: 0 <= k < i ==> jobs[k].id < job.id
      {
        i := i + 1;
      }
      assert PlaceFor(jobs, i, job.id);
      InsertedAt(jobs, i, job);
      InsertKeepsOrder(jobs, i, job);
      jobs := Insert(jobs, i, job);
    }

    /** The status writes, each under the lock: `markJobFailed` and those of
        `processExportJob`.  An absent id is ignored and never inserted again. */
    method SetStatus(id: nat, change: Change)
      requires Valid()
      modifies this
      ensures Valid()
      ensures |jobs| == |old(jobs)|
      ensures forall k :: 0 <= k < |jobs| && jobs[k].id == id ==>
          && jobs[k].id == old(jobs)[k].id
          && jobs[k].status == (match change case Start => Processing case Complete(_) => Done case Fail(_) => Failed)
          && jobs[k].outputPath == (match change case Complete(path) => path case _ => old(jobs)[k].outputPath)
          && jobs[k].errorMessage == (match change case Fail(message) => message case _ => old(jobs)[k].errorMessage)
      ensures forall k :: 0 <= k < |jobs| ==>
          jobs[k] == if old(jobs)[k].id == id then Changed(old(jobs)[k], change) else old(jobs)[k]
      ensures TableOf(jobs) == if id in TableOf(old(jobs)) then TableOf(old(jobs))[id := StatusAfter(change)]
                               else TableOf(old(jobs))
    {
      ghost var was := jobs;
      for i := 0 to |jobs|
        invariant jobs == was
        invariant forall k :: 0 <= k < i ==> jobs[k].id != id
      {
        if jobs[i].id == id {
          jobs := jobs[i := Changed(jobs[i], change)];
          UpdatedTable(was, i, jobs[i]);
          return;
        }
      }
      NoSuchId(jobs, id);
    }
  }

  /** What is written besides the status: the output path of a completed job, the message of
      a failed one. */
  datatype Change = Start | Complete(outputPath: string) | Fail(message: string)

  function StatusAfter(change: Change): Status {
    match change case Start => Processing case Complete(_) => Done case Fail(_) => Failed
  }

  function Changed(job: ExportJob, change: Change): ExportJob {
    match change
    case Start => job.(status := Processing)
    case Complete(path) => job.(status := Done, outputPath := path)
    case Fail(message) => job.(status := Failed, errorMessage := message)
  }

  // ----- what pruning keeps -----

  /** One round of the first pass leaves what the scan will have kept unchanged. */
  lemma ScanStep(jobs: seq<ExportJob>, i: nat, times: FileTimes, now: int)
    requires i < |jobs|
    ensures var all := jobs[..i] + DropStale(jobs[i..], times, now);
            if Stale(jobs[i], times, now)
            then Without(jobs, i)[..i] + DropStale(Without(jobs, i)[i..], times, now) == all
            else jobs[..i + 1] + DropStale(jobs[i + 1..], times, now) == all
  {
    assert jobs[i..][1..] == jobs[i + 1..] && jobs[i..][0] == jobs[i];
    if Stale(jobs[i], times, now) {
      assert Without(jobs, i)[..i] == jobs[..i] && Without(jobs, i)[i..] == jobs[i + 1..];
    } else {
      Associative(jobs[..i], [jobs[i]], DropStale(jobs[i + 1..], times, now));
      assert jobs[..i + 1] == jobs[..i] + [jobs[i]];
    }
  }

  lemma {:induction false} DropStaleFilters(jobs: seq<ExportJob>, times: FileTimes, now: int, j: ExportJob)
    ensures j in DropStale(jobs, times, now) <==> j in jobs && !Stale(j, times, now)
    decreases jobs
  {
    if jobs != [] {
      DropStaleFilters(jobs[1..], times, now, j);
      assert j in jobs <==> j == jobs[0] || j in jobs[1..];
    }
  }

  lemma {:induction false} DropStaleOrdered(jobs: seq<ExportJob>, times: FileTimes, now: int)
    requires KeyOrdered(jobs)
    ensures KeyOrdered(DropStale(jobs, times, now))
    decreases jobs
  {
    if jobs != [] {
      DropStaleOrdered(jobs[1..], times, now);
      forall j | j in DropStale(jobs[1..], times, now) ensures jobs[0].id < j.id {
        DropStaleFilters(jobs[1..], times, now, j);
      }
    }
  }

  lemma {:induction false} DropStaleShrinks(jobs: seq<ExportJob>, times: FileTimes, now: int)
    ensures |DropStale(jobs, times, now)| <= |jobs|
    decreases jobs
  {
    if jobs != [] {
      DropStaleShrinks(jobs[1..], times, now);
    }
  }

  /** The first pass keeps exactly the active jobs, and the finished ones whose output is there
      and at most a day old. */
  lemma DropStaleKeeps(jobs: seq<ExportJob>, times: FileTimes, now: int)
    ensures forall j :: j in DropStale(jobs, times, now) <==> j in jobs && !Stale(j, times, now)
    ensures forall j :: j in DropStale(jobs, times, now) <==>
        j in jobs && (j.status == Queued || j.status == Processing
                      || (j.outputPath in times && now - times[j.outputPath] <= 86400))
    ensures |DropStale(jobs, times, now)| <= |jobs|
    ensures KeyOrdered(jobs) ==> KeyOrdered(DropStale(jobs, times, now))
  {
    forall j { DropStaleFilters(jobs, times, now, j); }
    DropStaleShrinks(jobs, times, now);
    if KeyOrdered(jobs) { DropStaleOrdered(jobs, times, now); }
  }

  lemma WithoutKeeps(jobs: seq<ExportJob>, v: nat)
    requires v < |jobs| && KeyOrdered(jobs)
    ensures KeyOrdered(Without(jobs, v))
    ensures forall j :: j in Without(jobs, v) <==> j in jobs && j != jobs[v]
  {
    var before, after := jobs[..v], jobs[v + 1..];
    assert jobs == before + ([jobs[v]] + after);
    assert forall j :: j in before ==> j.id < jobs[v].id;
    assert forall j :: j in after ==> jobs[v].id < j.id;
    OrderedWithout(jobs, v);
  }

  lemma OrderedWithout(jobs: seq<ExportJob>, v: nat)
    requires v < |jobs| && KeyOrdered(jobs)
    ensures KeyOrdered(Without(jobs, v))
  {
    var w := Without(jobs, v);
    forall i, j | 0 <= i < j < |w| ensures w[i].id < w[j].id {
      assert w[i] == jobs[if i < v then i else i + 1] && w[j] == jobs[if j < v then j else j + 1];
    }
  }

  /** In some round from the n-th on, b is evicted no later than c. */
  ghost predicate NoYoungerOnce(b: ExportJob, c: ExportJob, rounds: Rounds, n: nat) {
    exists m: nat :: m >= n && NoYounger(b, c, rounds(m))
  }

  /** The second pass removes finished jobs only, each with the oldest output in the round that
      evicts it, and no more of them than the cap demands. */
  lemma {:induction false} CappedKeeps(before: seq<ExportJob>, after: seq<ExportJob>, rounds: Rounds, n: nat)
    requires KeyOrdered(before) && CappedFrom(before, after, rounds, n)
    ensures KeyOrdered(after) && |after| <= |before|
    ensures forall j :: j in after ==> j in before
    ensures forall j :: j in before && j !in after ==> Finished(j)
    ensures forall j, k :: j in before && j !in after && k in after && Finished(k) ==> NoYoungerOnce(j, k, rounds, n)
    ensures |after| < 200 || forall j :: j in after ==> j.status == Queued || j.status == Processing
    ensures if |before| < 200 then after == before else |after| >= 199
    decreases |before|
  {
    if |before| < MAX_JOBS || (forall i :: 0 <= i < |before| ==> !Finished(before[i])) {
    } else {
      var v :| FirstVictim(before, v, rounds(n)) && CappedFrom(Without(before, v), after, rounds, n + 1);
      WithoutKeeps(before, v);
      CappedKeeps(Without(before, v), after, rounds, n + 1);
      forall j, k | j in before && j !in after && k in after && Finished(k) ensures NoYoungerOnce(j, k, rounds, n) {
        if j == before[v] {
          assert k in before && NoYounger(j, k, rounds(n));
        } else {
          assert NoYoungerOnce(j, k, rounds, n + 1);
          var m: nat :| m >= n + 1 && NoYounger(j, k, rounds(m));
        }
      }
    }
  }

  // ----- the table as a map from id to status -----

  ghost function TableOf(jobs: seq<ExportJob>): map<nat, Status>
    decreases jobs
  {
    if jobs == [] then map[] else TableOf(jobs[1..])[jobs[0].id := jobs[0].status]
  }

  lemma {:induction false} Lookup(jobs: seq<ExportJob>, id: nat) returns (i: nat)
    requires id in TableOf(jobs)
    ensures i < |jobs| && jobs[i].id == id && TableOf(jobs)[id] == jobs[i].status
    decreases jobs
  {
    if jobs[0].id == id {
      i := 0;
    } else {
      i := Lookup(jobs[1..], id);
      i := i + 1;
    }
  }

  lemma {:induction false} Present(jobs: seq<ExportJob>, i: nat)
    requires KeyOrdered(jobs) && i < |jobs|
    ensures jobs[i].id in TableOf(jobs) && TableOf(jobs)[jobs[i].id] == jobs[i].status
    decreases jobs
  {
    if i > 0 {
      assert jobs[0].id < jobs[i].id && jobs[1..][i - 1] == jobs[i];
      Present(jobs[1..], i - 1);
    }
  }

  lemma SameEntry(xs: seq<ExportJob>, ys: seq<ExportJob>, id: nat)
    requires KeyOrdered(ys) && id in TableOf(xs)
    requires forall j :: j in xs && j.id == id ==> j in ys
    ensures id in TableOf(ys) && TableOf(ys)[id] == TableOf(xs)[id]
  {
    var i := Lookup(xs, id);
    var k :| 0 <= k < |ys| && ys[k] == xs[i];
    Present(ys, k);
  }

  /** What one pruning may do to the table: evict finished jobs only, and end below the cap
      unless only active jobs are left. */
  ghost predicate EvictionAllowed(table: map<nat, Status>, evicted: set<nat>) {
    && (forall id :: id in evicted ==> id in table && Terminal(table[id]))
    && (|table - evicted| < MAX_JOBS || forall id :: id in table - evicted ==> !Terminal(table[id]))
  }

  lemma {:induction false} TableSize(jobs: seq<ExportJob>)
    requires KeyOrdered(jobs)
    ensures |TableOf(jobs)| == |jobs|
    decreases jobs
  {
    if jobs != [] {
      TableSize(jobs[1..]);
      if jobs[0].id in TableOf(jobs[1..]) {
        var i := Lookup(jobs[1..], jobs[0].id);
        assert false;
      }
    }
  }

  lemma SubTable(jobs: seq<ExportJob>, kept: seq<ExportJob>)
    requires KeyOrdered(jobs) && forall j :: j in kept ==> j in jobs
    ensures TableOf(kept) == TableOf(jobs) - (TableOf(jobs).Keys - TableOf(kept).Keys)
  {
    forall id | id in TableOf(kept) ensures id in TableOf(jobs) && TableOf(jobs)[id] == TableOf(kept)[id] {
      SameEntry(kept, jobs, id);
    }
  }

  lemma OnlyFinishedLeave(jobs: seq<ExportJob>, kept: seq<ExportJob>, id: nat)
    requires KeyOrdered(kept) && forall j :: j in jobs && j !in kept ==> Finished(j)
    requires id in TableOf(jobs) && id !in TableOf(kept)
    ensures Terminal(TableOf(jobs)[id])
  {
    var i := Lookup(jobs, id);
    if jobs[i] in kept {
      var k :| 0 <= k < |kept| && kept[k] == jobs[i];
      Present(kept, k);
      assert false;
    }
  }

  /** What both passes of pruning leave: a part of the table from which only finished jobs are
      missing, and with only active jobs if it is still full. */
  ghost predicate PrunedFrom(jobs: seq<ExportJob>, kept: seq<ExportJob>) {
    && KeyOrdered(kept) && |kept| <= |jobs|
    && (forall j :: j in kept ==> j in jobs)
    && (forall j :: j in jobs && j !in kept ==> Finished(j))
    && (|kept| < MAX_JOBS || forall j :: j in kept ==> !Finished(j))
  }

  lemma BothPasses(jobs: seq<ExportJob>, kept: seq<ExportJob>, now: int, atAge: FileTimes, rounds: Rounds)
    requires KeyOrdered(jobs) && CappedFrom(DropStale(jobs, atAge, now), kept, rounds, 0)
    ensures PrunedFrom(jobs, kept)
  {
    var young := DropStale(jobs, atAge, now);
    DropStaleKeeps(jobs, atAge, now);
    CappedKeeps(young, kept, rounds, 0);
    forall j | j in jobs && j !in kept ensures Finished(j) {
      if j !in young { assert Stale(j, atAge, now); }
    }
  }

  lemma PrunedIsAllowed(jobs: seq<ExportJob>, kept: seq<ExportJob>)
    requires KeyOrdered(jobs) && PrunedFrom(jobs, kept)
    ensures |TableOf(kept)| == |kept|
    ensures var evicted := TableOf(jobs).Keys - TableOf(kept).Keys;
            TableOf(kept) == TableOf(jobs) - evicted && EvictionAllowed(TableOf(jobs), evicted)
  {
    SubTable(jobs, kept);
    forall id | id in TableOf(jobs) && id !in TableOf(kept) ensures Terminal(TableOf(jobs)[id]) {
      OnlyFinishedLeave(jobs, kept, id);
    }
    TableSize(kept);
    OnlyActiveLeft(kept);
  }

  /** Pruning the table in place is one allowed eviction on the map it stands for. */
  lemma PruneIsAllowedEviction(jobs: seq<ExportJob>, kept: seq<ExportJob>, now: int, atAge: FileTimes, rounds: Rounds)
    requires KeyOrdered(jobs) && CappedFrom(DropStale(jobs, atAge, now), kept, rounds, 0)
    ensures KeyOrdered(kept) && |kept| <= |jobs| && |TableOf(kept)| == |kept|
    ensures var evicted := TableOf(jobs).Keys - TableOf(kept).Keys;
            TableOf(kept) == TableOf(jobs) - evicted && EvictionAllowed(TableOf(jobs), evicted)
  {
    BothPasses(jobs, kept, now, atAge, rounds);
    PrunedIsAllowed(jobs, kept);
  }

  lemma OnlyActiveLeft(kept: seq<ExportJob>)
    ensures (forall j :: j in kept ==> !Finished(j)) ==> forall id :: id in TableOf(kept) ==> !Terminal(TableOf(kept)[id])
  {
    if forall j :: j in kept ==> !Finished(j) {
      forall id | id in TableOf(kept) ensures !Terminal(TableOf(kept)[id]) {
        var i := Lookup(kept, id);
        assert kept[i] in kept;
      }
    }
  }

  predicate PlaceFor(jobs: seq<ExportJob>, i: nat, id: nat)
    requires i <= |jobs|
  {
    && (forall k :: 0 <= k < i ==> jobs[k].id < id)
    && (forall k :: i <= k < |jobs| ==> id < jobs[k].id)
  }

  function Insert(jobs: seq<ExportJob>, i: nat, job: ExportJob): seq<ExportJob>
    requires i <= |jobs|
  {
    jobs[..i] + [job] + jobs[i..]
  }

  /** The table with one more job, in key order. */
  function Inserted(jobs: seq<ExportJob>, job: ExportJob): seq<ExportJob> {
    if jobs == [] || job.id < jobs[0].id then [job] + jobs else [jobs[0]] + Inserted(jobs[1..], job)
  }

  lemma {:induction false} InsertedAt(jobs: seq<ExportJob>, i: nat, job: ExportJob)
    requires i <= |jobs| && PlaceFor(jobs, i, job.id)
    ensures Insert(jobs, i, job) == Inserted(jobs, job)
    decreases jobs
  {
    if i == 0 {
      assert jobs[..0] == [] && jobs[0..] == jobs && Insert(jobs, 0, job) == [job] + jobs;
    } else {
      InsertedAt(jobs[1..], i - 1, job);
      assert [jobs[0]] + Insert(jobs[1..], i - 1, job) == Insert(jobs, i, job);
    }
  }

  /** Inserting is the map update of `exportJobs[jobId] = job`. */
  lemma {:induction false} InsertedTable(jobs: seq<ExportJob>, job: ExportJob)
    requires forall i :: 0 <= i < |jobs| ==> jobs[i].id != job.id
    ensures TableOf(Inserted(jobs, job)) == TableOf(jobs)[job.id := job.status]
    decreases jobs
  {
    if jobs == [] || job.id < jobs[0].id {
      assert ([job] + jobs)[1..] == jobs;
    } else {
      InsertedTable(jobs[1..], job);
      assert Inserted(jobs, job)[1..] == Inserted(jobs[1..], job);
    }
  }

  lemma StillAbsent(jobs: seq<ExportJob>, kept: seq<ExportJob>, now: int, atAge: FileTimes, rounds: Rounds, id: nat)
    requires KeyOrdered(jobs) && CappedFrom(DropStale(jobs, atAge, now), kept, rounds, 0)
    requires forall i :: 0 <= i < |jobs| ==> jobs[i].id != id
    ensures forall k :: 0 <= k < |kept| ==> kept[k].id != id
  {
    DropStaleKeeps(jobs, atAge, now);
    CappedKeeps(DropStale(jobs, atAge, now), kept, rounds, 0);
    forall k | 0 <= k < |kept| ensures kept[k].id != id {
      assert kept[k] in jobs;
    }
  }

  lemma InsertKeepsOrder(jobs: seq<ExportJob>, i: nat, job: ExportJob)
    requires KeyOrdered(jobs) && i <= |jobs| && PlaceFor(jobs, i, job.id)
    ensures KeyOrdered(Insert(jobs, i, job))
  {
    var more := Insert(jobs, i, job);
    forall a, b | 0 <= a < b < |more| ensures more[a].id < more[b].id {
      assert more[a] == if a < i then jobs[a] else if a == i then job else jobs[a - 1];
      assert more[b] == if b < i then jobs[b] else if b == i then job else jobs[b - 1];
    }
  }

  lemma {:induction false} UpdatedTable(jobs: seq<ExportJob>, i: nat, job: ExportJob)
    requires KeyOrdered(jobs) && i < |jobs| && job.id == jobs[i].id
    ensures KeyOrdered(jobs[i := job])
    ensures job.id in TableOf(jobs) && TableOf(jobs[i := job]) == TableOf(jobs)[job.id := job.status]
    decreases jobs
  {
    var changed := jobs[i := job];
    Present(jobs, i);
    if i == 0 {
      assert changed[1..] == jobs[1..];
    } else {
      assert changed[1..] == jobs[1..][i - 1 := job];
      UpdatedTable(jobs[1..], i - 1, job);
    }
  }

  lemma NoSuchId(jobs: seq<ExportJob>, id: nat)
    requires forall i :: 0 <= i < |jobs| ==> jobs[i].id != id
    ensures id !in TableOf(jobs)
  {
    if id in TableOf(jobs) {
      var i := Lookup(jobs, id);
      assert false;
    }
  }
}
