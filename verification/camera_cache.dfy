/** The camera-list cache of `src/api/camera_controller.cpp`: one cached body with its
    deadline, the version that guards fills, mutators that invalidate and requests that look
    up and fill.  Every atomic access is one action; the mutex covers the two stores of a fill
    and the clearing of an invalidation, but neither the version check nor the readers. */
module CameraCache {
  import opened Common

  const TTL_MS: nat := 1000

  /** A stored list with the fill it came from: that fill's start, and what the version counter
      was when the fill made its version check.  The latter is bookkeeping: no action tests it. */
  datatype Body<T> = Body(list: T, from: nat, checked: nat)

  /** A mutator after its write: before the bump, before zeroing the deadline, before clearing. */
  datatype MutatorPc = Wrote | Bumped | Zeroed

  /** A GET request.  `now` is its clock reading; a miss continues as a fill.  `disturbed` is
      bookkeeping: a fill was between its two stores when the body was loaded, or has stored a
      deadline since. */
  datatype RequestPc<T> =
    | Timed(now: nat)
    | Loaded(now: nat, body: Option<Body<T>>, disturbed: bool)
    | Missed(now: nat)
    | Versioned(now: nat, version: nat)
    | Read(now: nat, version: nat, list: T)
    | Checked(now: nat, list: T, checked: nat)
    | Locked(now: nat, list: T, checked: nat)
    | BodyStored(now: nat, list: T, checked: nat)
    | Served(now: nat, served: Body<T>, disturbed: bool)
    | Finished

  datatype State<T> = State(
    clock: nat,
    current: T,                        // the camera list itself
    version: nat,
    body: Option<Body<T>>,
    deadline: nat,
    lock: Option<nat>,                 // the fill inside the mutex
    mutators: map<nat, MutatorPc>,
    requests: map<nat, RequestPc<T>>,
    deadlineFrom: Option<nat>          // start of the fill that stored the deadline
  )

  datatype Action<T> =
    | Tick | Begin(r: nat) | LoadBody(r: nat) | LoadDeadline(r: nat)
    | LoadVersion(r: nat) | ReadList(r: nat)
    | Check(r: nat) | Lock(r: nat) | StoreBody(r: nat) | StoreDeadline(r: nat)
    | CheckAndStore(r: nat)            // the four above as one step
    | Write(m: nat, list: T) | Bump(m: nat) | ZeroDeadline(m: nat) | Clear(m: nat)

  function Init<T>(list: T): State<T> {
    State(0, list, 1, None, 0, None, map[], map[], None)
  }

  predicate At<T>(s: State<T>, r: nat) { r in s.requests }

  predicate Enabled<T>(s: State<T>, a: Action<T>) {
    match a
    case Tick => true
    case Begin(r) => r !in s.requests
    case LoadBody(r) => At(s, r) && s.requests[r].Timed?
    case LoadDeadline(r) => At(s, r) && s.requests[r].Loaded?
    case LoadVersion(r) => At(s, r) && s.requests[r].Missed?
    case ReadList(r) => At(s, r) && s.requests[r].Versioned?
    case Check(r) => At(s, r) && s.requests[r].Read?
    case Lock(r) => At(s, r) && s.requests[r].Checked? && s.lock.None?
    case StoreBody(r) => At(s, r) && s.requests[r].Locked?
    case StoreDeadline(r) => At(s, r) && s.requests[r].BodyStored?
    case CheckAndStore(r) => At(s, r) && s.requests[r].Read? && s.lock.None?
    case Write(m, _) => m !in s.mutators
    case Bump(m) => m in s.mutators && s.mutators[m].Wrote?
    case ZeroDeadline(m) => m in s.mutators && s.mutators[m].Bumped?
    case Clear(m) => m in s.mutators && s.mutators[m].Zeroed? && s.lock.None?
  }

  predicate MidStore<T>(s: State<T>) {
    s.lock.Some? && At(s, s.lock.value) && s.requests[s.lock.value].BodyStored?
  }

  /** Storing a deadline disturbs every request between its two loads. */
  function Disturb<T>(requests: map<nat, RequestPc<T>>): map<nat, RequestPc<T>> {
    map r | r in requests :: Disturbed(requests[r])
  }

  function Disturbed<T>(pc: RequestPc<T>): RequestPc<T> {
    if pc.Loaded? then Loaded(pc.now, pc.body, true) else pc
  }

  function Next<T>(s: State<T>, a: Action<T>): State<T>
    requires Enabled(s, a)
  {
    match a
    case Tick => s.(clock := s.clock + 1)
    case Begin(r) => s.(requests := s.requests[r := Timed(s.clock)])
    case LoadBody(r) => s.(requests := s.requests[r := Loaded(s.requests[r].now, s.body, MidStore(s))])
    case LoadDeadline(r) =>
      var pc := s.requests[r];
      if pc.now < s.deadline && pc.body.Some?
      then s.(requests := s.requests[r := Served(pc.now, pc.body.value, pc.disturbed)])
      else s.(requests := s.requests[r := Missed(pc.now)])
    case LoadVersion(r) => s.(requests := s.requests[r := Versioned(s.requests[r].now, s.version)])
    case ReadList(r) =>
      s.(requests := s.requests[r := Read(s.requests[r].now, s.requests[r].version, s.current)])
    case Check(r) =>
      var pc := s.requests[r];
      s.(requests := s.requests[r := if pc.version == s.version then Checked(pc.now, pc.list, s.version) else Finished])
    case Lock(r) =>
      var pc := s.requests[r];
      s.(requests := s.requests[r := Locked(pc.now, pc.list, pc.checked)], lock := Some(r))
    case StoreBody(r) =>
      var pc := s.requests[r];
      s.(requests := s.requests[r := BodyStored(pc.now, pc.list, pc.checked)],
         body := Some(Body(pc.list, pc.now, pc.checked)))
    case StoreDeadline(r) =>
      var pc := s.requests[r];
      s.(requests := Disturb(s.requests)[r := Finished], deadline := pc.now + TTL_MS,
         deadlineFrom := Some(pc.now), lock := None)
    case CheckAndStore(r) =>
      var pc := s.requests[r];
      if pc.version != s.version then s.(requests := s.requests[r := Finished])
      else s.(requests := Disturb(s.requests)[r := Finished], body := Some(Body(pc.list, pc.now, s.version)),
              deadline := pc.now + TTL_MS, deadlineFrom := Some(pc.now))
    case Write(m, list) => s.(current := list, mutators := s.mutators[m := Wrote])
    case Bump(m) => s.(version := s.version + 1, mutators := s.mutators[m := Bumped])
    case ZeroDeadline(m) => s.(deadline := 0, deadlineFrom := None, mutators := s.mutators[m := Zeroed])
    case Clear(m) => s.(body := None, mutators := s.mutators - {m})
  }

  ghost predicate ValidRun<T>(s: State<T>, run: seq<Action<T>>)
    decreases run
  {
    run == [] || (Enabled(s, run[0]) && ValidRun(Next(s, run[0]), run[1..]))
  }

  ghost function After<T>(s: State<T>, run: seq<Action<T>>): State<T>
    requires ValidRun(s, run)
    decreases run
  {
    if run == [] then s else After(Next(s, run[0]), run[1..])
  }

  /** The run of a code whose check and stores are one step. */
  predicate Fused<T>(run: seq<Action<T>>) {
    forall i :: 0 <= i < |run| ==> !run[i].Check?
  }

  // ----- invariants -----

  /** A mutator has changed the list and not yet bumped the version. */
  ghost predicate Unannounced<T>(s: State<T>) {
    exists m :: m in s.mutators && s.mutators[m].Wrote?
  }

  /** A list read under the present version is the present list, or its change is about to be
      announced. */
  ghost predicate Current<T>(s: State<T>, version: nat, list: T) {
    version <= s.version && (version == s.version ==> list == s.current || Unannounced(s))
  }

  /** What a list in hand says about the present. */
  ghost predicate ListInv<T>(s: State<T>, pc: RequestPc<T>) {
    match pc
    case Versioned(_, v) => v <= s.version
    case Read(_, v, list) => Current(s, v, list)
    case Checked(_, list, checked) => Current(s, checked, list)
    case Locked(_, list, checked) => Current(s, checked, list)
    case BodyStored(_, list, checked) => Current(s, checked, list)
    case _ => true
  }

  predicate Holding<T>(pc: RequestPc<T>) { pc.Locked? || pc.BodyStored? }

  ghost predicate LockInv<T>(s: State<T>, r: nat)
    requires r in s.requests
  {
    && (Holding(s.requests[r]) <==> s.lock == Some(r))
    && (s.requests[r].BodyStored? ==>
          s.body == Some(Body(s.requests[r].list, s.requests[r].now, s.requests[r].checked)))
  }

  /** A body loaded undisturbed is no older than the deadline says; clock readings are past. */
  ghost predicate AgeInv<T>(s: State<T>, pc: RequestPc<T>) {
    match pc
    case Timed(now) => now <= s.clock
    case Loaded(now, body, disturbed) =>
      now <= s.clock && (body.Some? && !disturbed ==> s.deadline <= body.value.from + TTL_MS)
    case Served(now, served, disturbed) => disturbed || now < served.from + TTL_MS
    case _ => true
  }

  ghost predicate DeadlineInv<T>(s: State<T>) {
    && (s.deadline == 0 || s.deadlineFrom == Some(s.deadline - TTL_MS))
    && (s.body.Some? && !MidStore(s) ==> s.deadline <= s.body.value.from + TTL_MS)
  }

  ghost predicate Inv<T>(s: State<T>) {
    && (forall r :: r in s.requests ==> ListInv(s, s.requests[r]))
    && (forall r :: r in s.requests ==> LockInv(s, r))
    && (forall r :: r in s.requests ==> AgeInv(s, s.requests[r]))
    && (s.lock.Some? ==> s.lock.value in s.requests)
    && (s.body.Some? ==> Current(s, s.body.value.checked, s.body.value.list))
    && DeadlineInv(s)
  }

  lemma CurrentKept<T>(s: State<T>, a: Action<T>, version: nat, list: T)
    requires Enabled(s, a) && Current(s, version, list)
    ensures Current(Next(s, a), version, list)
  {
    var t := Next(s, a);
    if a.Write? {
      assert t.mutators[a.m].Wrote?;
    } else if Unannounced(s) && !a.Bump? {
      var m :| m in s.mutators && s.mutators[m].Wrote?;
      assert t.mutators[m].Wrote?;
    }
  }

  lemma ListKept<T>(s: State<T>, a: Action<T>, pc: RequestPc<T>)
    requires Enabled(s, a) && ListInv(s, pc)
    ensures ListInv(Next(s, a), pc)
  {
    match pc
    case Read(_, v, list) => CurrentKept(s, a, v, list);
    case Checked(_, list, checked) => CurrentKept(s, a, checked, list);
    case Locked(_, list, checked) => CurrentKept(s, a, checked, list);
    case BodyStored(_, list, checked) => CurrentKept(s, a, checked, list);
    case _ =>
  }

  /** The request an action belongs to. */
  function Actor<T>(a: Action<T>): Option<nat> {
    match a
    case Tick => None
    case Begin(r) => Some(r)
    case LoadBody(r) => Some(r)
    case LoadDeadline(r) => Some(r)
    case LoadVersion(r) => Some(r)
    case ReadList(r) => Some(r)
    case Check(r) => Some(r)
    case Lock(r) => Some(r)
    case StoreBody(r) => Some(r)
    case StoreDeadline(r) => Some(r)
    case CheckAndStore(r) => Some(r)
    case Write(_, _) => None
    case Bump(_) => None
    case ZeroDeadline(_) => None
    case Clear(_) => None
  }

  /** What an action does to the requests it does not belong to. */
  lemma Bystander<T>(s: State<T>, a: Action<T>, r: nat)
    requires Enabled(s, a) && Actor(a) != Some(r)
    ensures r in Next(s, a).requests <==> r in s.requests
    ensures r in s.requests ==>
        Next(s, a).requests[r] == s.requests[r] || Next(s, a).requests[r] == Disturbed(s.requests[r])
    ensures r in s.requests && (a.StoreDeadline? || (a.CheckAndStore? && s.requests[a.r].version == s.version)) ==>
        Next(s, a).requests[r] == Disturbed(s.requests[r])
  {
  }

  lemma ActorKeepsList<T>(s: State<T>, a: Action<T>, r: nat)
    requires Enabled(s, a) && Actor(a) == Some(r) && (r in s.requests ==> ListInv(s, s.requests[r]))
    ensures r in Next(s, a).requests && ListInv(Next(s, a), Next(s, a).requests[r])
  {
    if r in s.requests {
      ListKept(s, a, s.requests[r]);
    }
  }

  lemma StepKeepsLists<T>(s: State<T>, a: Action<T>, r: nat)
    requires Inv(s) && Enabled(s, a) && r in Next(s, a).requests
    ensures ListInv(Next(s, a), Next(s, a).requests[r])
  {
    if Actor(a) == Some(r) {
      ActorKeepsList(s, a, r);
    } else {
      Bystander(s, a, r);
      ListKept(s, a, s.requests[r]);
    }
  }

  /** Only a holder of the mutex moves it, and only outside it can a body be cleared. */
  lemma StepKeepsLock<T>(s: State<T>, a: Action<T>, r: nat)
    requires Enabled(s, a) && r in Next(s, a).requests
    requires forall q :: q in s.requests ==> LockInv(s, q)
    requires s.lock.Some? ==> s.lock.value in s.requests
    ensures LockInv(Next(s, a), r)
  {
    if Actor(a) != Some(r) {
      Bystander(s, a, r);
      assert LockInv(s, r);
    }
    if Actor(a).Some? && Actor(a).value in s.requests {
      assert LockInv(s, Actor(a).value);
    }
  }

  lemma StepKeepsAge<T>(s: State<T>, a: Action<T>, r: nat)
    requires Enabled(s, a) && r in Next(s, a).requests && DeadlineInv(s)
    requires r in s.requests ==> AgeInv(s, s.requests[r])
    ensures AgeInv(Next(s, a), Next(s, a).requests[r])
  {
    if Actor(a) != Some(r) {
      Bystander(s, a, r);
    }
  }

  lemma StepKeepsBody<T>(s: State<T>, a: Action<T>)
    requires Inv(s) && Enabled(s, a)
    ensures var t := Next(s, a); t.body.Some? ==> Current(t, t.body.value.checked, t.body.value.list)
  {
    if a.StoreBody? {
      ListKept(s, a, s.requests[a.r]);
    } else if a.CheckAndStore? {
      ListKept(s, a, s.requests[a.r]);
    }
    if s.body.Some? {
      CurrentKept(s, a, s.body.value.checked, s.body.value.list);
    }
  }

  lemma StepKeepsDeadline<T>(s: State<T>, a: Action<T>)
    requires Enabled(s, a) && DeadlineInv(s)
    requires forall q :: q in s.requests ==> LockInv(s, q)
    requires s.lock.Some? ==> s.lock.value in s.requests
    ensures DeadlineInv(Next(s, a))
  {
    if s.lock.Some? {
      assert LockInv(s, s.lock.value);
      if Actor(a) != s.lock {
        Bystander(s, a, s.lock.value);
      }
    }
    if a.StoreDeadline? || a.StoreBody? {
      assert LockInv(s, a.r);
    }
  }

  lemma StepKeepsHolder<T>(s: State<T>, a: Action<T>)
    requires Enabled(s, a) && (s.lock.Some? ==> s.lock.value in s.requests)
    ensures Next(s, a).lock.Some? ==> Next(s, a).lock.value in Next(s, a).requests
  {
    if s.lock.Some? && Actor(a) != s.lock {
      Bystander(s, a, s.lock.value);
    }
  }

  lemma StepKeepsInv<T>(s: State<T>, a: Action<T>)
    requires Inv(s) && Enabled(s, a)
    ensures Inv(Next(s, a))
  {
    var t := Next(s, a);
    forall r | r in t.requests
      ensures ListInv(t, t.requests[r]) && LockInv(t, r) && AgeInv(t, t.requests[r])
    {
      StepKeepsLists(s, a, r);
      StepKeepsLock(s, a, r);
      StepKeepsAge(s, a, r);
    }
    StepKeepsHolder(s, a);
    StepKeepsBody(s, a);
    StepKeepsDeadline(s, a);
  }

  lemma {:induction false} RunKeepsInv<T>(s: State<T>, run: seq<Action<T>>)
    requires Inv(s) && ValidRun(s, run)
    ensures Inv(After(s, run))
    decreases run
  {
    if run != [] {
      StepKeepsInv(s, run[0]);
      RunKeepsInv(Next(s, run[0]), run[1..]);
    }
  }

  lemma ReachableInv<T(!new)>(list: T, s: State<T>)
    requires Reachable(list, s)
    ensures Inv(s)
  {
    var run: seq<Action<T>> :| ValidRun(Init(list), run) && s == After(Init(list), run);
    RunKeepsInv(Init(list), run);
  }

  // ----- runs put together -----

  predicate WriteFree<T>(run: seq<Action<T>>) {
    forall i :: 0 <= i < |run| ==> !run[i].Write?
  }

  /** Some run leads from o to s; unless `writes`, one in which no mutator starts. */
  ghost predicate Leads<T(!new)>(o: State<T>, s: State<T>, writes: bool) {
    exists run: seq<Action<T>> :: ValidRun(o, run) && (writes || WriteFree(run)) && s == After(o, run)
  }

  ghost predicate Reachable<T(!new)>(list: T, s: State<T>) { Leads(Init(list), s, true) }

  lemma {:induction false} ExtendRun<T>(s: State<T>, run: seq<Action<T>>, a: Action<T>)
    requires ValidRun(s, run) && Enabled(After(s, run), a)
    ensures ValidRun(s, run + [a]) && After(s, run + [a]) == Next(After(s, run), a)
    decreases run
  {
    if run == [] {
      assert ([] + [a])[1..] == [];
      assert ValidRun(Next(s, a), []);
    } else {
      assert (run + [a])[1..] == run[1..] + [a];
      ExtendRun(Next(s, run[0]), run[1..], a);
    }
  }

  lemma Stay<T(!new)>(s: State<T>, writes: bool)
    ensures Leads(s, s, writes)
  {
    var run: seq<Action<T>> := [];
    assert ValidRun(s, run) && WriteFree(run) && After(s, run) == s;
  }

  /** Take one more step of a run. */
  lemma Do<T(!new)>(o: State<T>, s: State<T>, writes: bool, a: Action<T>) returns (t: State<T>)
    requires Leads(o, s, writes) && Enabled(s, a) && (writes || !a.Write?)
    ensures Leads(o, t, writes) && t == Next(s, a)
  {
    var run: seq<Action<T>> :| ValidRun(o, run) && (writes || WriteFree(run)) && s == After(o, run);
    ExtendRun(o, run, a);
    t := Next(s, a);
  }

  // ----- main results -----

  /** No request ever gets between its check and its stores. */
  ghost predicate NobodyChecked<T>(s: State<T>) {
    && s.lock.None?
    && forall r :: r in s.requests ==> !Past(s.requests[r])
  }

  /** Past its version check, and not yet done with its stores. */
  predicate Past<T>(pc: RequestPc<T>) { pc.Checked? || pc.Locked? || pc.BodyStored? }

  /** The fused protocol's own invariant: the cached list is current unless some mutator is
      between its write and its clear. */
  ghost predicate Fresh<T>(s: State<T>) {
    s.body.Some? ==> s.body.value.list == s.current || s.mutators != map[]
  }

  lemma FusedStep<T>(s: State<T>, a: Action<T>)
    requires Inv(s) && Enabled(s, a) && !a.Check? && NobodyChecked(s) && Fresh(s)
    ensures NobodyChecked(Next(s, a)) && Fresh(Next(s, a))
  {
    forall r | r in Next(s, a).requests ensures !Past(Next(s, a).requests[r]) {
      if Actor(a) != Some(r) { Bystander(s, a, r); }
    }
    if a.CheckAndStore? {
      assert ListInv(s, s.requests[a.r]);
    }
    if a.Write? || a.Bump? || a.ZeroDeadline? {
      assert a.m in Next(s, a).mutators;
    }
  }

  lemma {:induction false} FusedRun<T>(s: State<T>, run: seq<Action<T>>)
    requires Inv(s) && NobodyChecked(s) && Fresh(s) && ValidRun(s, run) && Fused(run)
    ensures Fresh(After(s, run))
    decreases run
  {
    if run != [] {
      FusedStep(s, run[0]);
      StepKeepsInv(s, run[0]);
      FusedRun(Next(s, run[0]), run[1..]);
    }
  }

  /** With check and store as one step, a cached list is the current one unless some mutator
      is between its write and its clear. */
  lemma FusedCacheIsFresh<T>(list: T, run: seq<Action<T>>)
    requires ValidRun(Init(list), run) && Fused(run)
    ensures var s := After(Init(list), run);
            s.body.Some? ==> s.body.value.list == s.current || s.mutators != map[]
  {
    FusedRun(Init(list), run);
  }

  function Bumps<T>(run: seq<Action<T>>): nat {
    if run == [] then 0 else (if run[0].Bump? then 1 else 0) + Bumps(run[1..])
  }

  /** The version counter counts the bumps, so comparing two of its values tells whether a
      bump lies between them. */
  lemma {:induction false} VersionCountsBumps<T>(s: State<T>, run: seq<Action<T>>)
    requires ValidRun(s, run)
    ensures After(s, run).version == s.version + Bumps(run)
    decreases run
  {
    if run != [] {
      VersionCountsBumps(Next(s, run[0]), run[1..]);
    }
  }

  /** The code as it is, with the check outside the mutex: a cached list that is not current,
      while no change is waiting to be announced, comes from a fill that made its version check
      when the counter still had an earlier value, that is, before the latest bump. */
  lemma StaleOnlyFromFillCheckedBeforeBump<T>(list: T, run: seq<Action<T>>)
    requires ValidRun(Init(list), run)
    ensures var s := After(Init(list), run);
            s.body.Some? && s.body.value.list != s.current && !Unannounced(s) ==>
              s.body.value.checked < s.version == 1 + Bumps(run)
  {
    RunKeepsInv(Init(list), run);
    VersionCountsBumps(Init(list), run);
  }

  /** A body served to a request that no fill disturbed is younger than the TTL. */
  lemma UndisturbedServeIsYoung<T>(list: T, run: seq<Action<T>>, r: nat)
    requires ValidRun(Init(list), run)
    requires var s := After(Init(list), run); r in s.requests && s.requests[r].Served? && !s.requests[r].disturbed
    ensures var pc := After(Init(list), run).requests[r]; pc.now < pc.served.from + 1000
  {
    RunKeepsInv(Init(list), run);
    assert AgeInv(After(Init(list), run), After(Init(list), run).requests[r]);
  }

  /** If both loads saw one state in which no fill was between its two stores, what they
      serve is younger than the TTL. */
  lemma AtomicLoadIsYoung<T>(list: T, run: seq<Action<T>>, now: nat)
    requires ValidRun(Init(list), run)
    requires var s := After(Init(list), run); !MidStore(s) && s.body.Some? && now < s.deadline
    ensures now < After(Init(list), run).body.value.from + 1000
  {
    RunKeepsInv(Init(list), run);
  }

  /** In general a body is served at the TTL or beyond only by the deadline of another fill,
      one that started later than the body's own. */
  lemma OldServeOnlyByLaterDeadline<T>(list: T, run: seq<Action<T>>, r: nat)
    requires ValidRun(Init(list), run)
    requires var s := After(Init(list), run);
             Enabled(s, LoadDeadline(r)) && Next(s, LoadDeadline(r)).requests[r].Served?
    ensures var s := After(Init(list), run);
            var pc := s.requests[r];
            pc.now >= pc.body.value.from + 1000 ==>
              pc.disturbed && s.deadlineFrom.Some? && s.deadlineFrom.value > pc.body.value.from
  {
    RunKeepsInv(Init(list), run);
    assert AgeInv(After(Init(list), run), After(Init(list), run).requests[r]);
  }

  // ----- fills that a bump overtakes -----

  /** A fill before its check, with the version it loaded. */
  predicate Unchecked<T>(pc: RequestPc<T>, version: nat) {
    (pc.Versioned? || pc.Read?) && pc.version == version
  }

  lemma {:induction false} LoadedVersionStays<T>(s: State<T>, r: nat, version: nat, run: seq<Action<T>>)
    requires ValidRun(s, run) && r in s.requests
    requires Unchecked(s.requests[r], version) || Past(s.requests[r]) || s.requests[r].Finished?
    ensures var t := After(s, run);
            r in t.requests && (Unchecked(t.requests[r], version) || Past(t.requests[r]) || t.requests[r].Finished?)
    decreases run
  {
    if run != [] {
      if Actor(run[0]) != Some(r) { Bystander(s, run[0], r); }
      LoadedVersionStays(Next(s, run[0]), r, version, run[1..]);
    }
  }

  lemma {:induction false} OutdatedFillEnds<T>(s: State<T>, r: nat, version: nat, run: seq<Action<T>>)
    requires ValidRun(s, run) && r in s.requests && version < s.version
    requires Unchecked(s.requests[r], version) || s.requests[r].Finished?
    ensures r in After(s, run).requests && !Past(After(s, run).requests[r])
    decreases run
  {
    if run != [] {
      if Actor(run[0]) != Some(r) { Bystander(s, run[0], r); }
      OutdatedFillEnds(Next(s, run[0]), r, version, run[1..]);
    }
  }

  /** A fill that sees a bump between its version load and its check stores nothing, however it
      goes on. */
  lemma OvertakenFillStoresNothing<T>(s: State<T>, r: nat, run: seq<Action<T>>, more: seq<Action<T>>)
    requires Enabled(s, LoadVersion(r)) && ValidRun(Next(s, LoadVersion(r)), run) && Bumps(run) > 0
    requires var t := After(Next(s, LoadVersion(r)), run);
             r in t.requests && (t.requests[r].Versioned? || t.requests[r].Read?) && ValidRun(t, more)
    ensures var u := After(After(Next(s, LoadVersion(r)), run), more); r in u.requests && !Past(u.requests[r])
  {
    var loaded := Next(s, LoadVersion(r));
    LoadedVersionStays(loaded, r, s.version, run);
    VersionCountsBumps(loaded, run);
    OutdatedFillEnds(After(loaded, run), r, s.version, more);
  }

  // ----- zeroing the deadline -----

  predicate StoreFree<T>(run: seq<Action<T>>) {
    forall i :: 0 <= i < |run| ==> !run[i].StoreDeadline? && !run[i].CheckAndStore?
  }

  predicate ServedIn<T>(s: State<T>, r: nat) { r in s.requests && s.requests[r].Served? }

  lemma {:induction false} NoDeadlineNoServe<T>(s: State<T>, run: seq<Action<T>>, r: nat)
    requires s.deadline == 0 && ValidRun(s, run) && StoreFree(run)
    ensures ServedIn(After(s, run), r) ==> ServedIn(s, r)
    decreases run
  {
    if run != [] {
      if Actor(run[0]) != Some(r) { Bystander(s, run[0], r); }
      NoDeadlineNoServe(Next(s, run[0]), run[1..], r);
    }
  }

  /** From the moment a mutator zeroes the deadline, nobody is served until a fill stores a new
      one: the list is out of use before it is cleared. */
  lemma ZeroedDeadlineServesNobody<T>(s: State<T>, m: nat, run: seq<Action<T>>, r: nat)
    requires Enabled(s, ZeroDeadline(m)) && ValidRun(Next(s, ZeroDeadline(m)), run) && StoreFree(run)
    ensures ServedIn(After(Next(s, ZeroDeadline(m)), run), r) ==> ServedIn(s, r)
  {
    NoDeadlineNoServe(Next(s, ZeroDeadline(m)), run, r);
  }

  /** With a deadline ahead and a body, a request is served that body. */
  lemma FreshListIsServed<T>(s: State<T>, r: nat)
    requires r !in s.requests && s.body.Some? && s.clock < s.deadline
    ensures var timed := Next(s, Begin(r));
            var loaded := Next(timed, LoadBody(r));
            var t := Next(loaded, LoadDeadline(r));
            ServedIn(t, r) && t.requests[r].now == s.clock && t.requests[r].served == s.body.value
  {
  }

  // ----- exactly when a stale list can come -----

  /** The cached list and those past their check are the current one. */
  ghost predicate AllCurrent<T>(s: State<T>) {
    && (s.body.Some? ==> s.body.value.list == s.current)
    && (forall r :: r in s.requests && Past(s.requests[r]) ==> s.requests[r].list == s.current)
  }

  ghost predicate NeverStale<T(!new)>(s: State<T>) {
    forall t :: Leads(s, t, false) && t.body.Some? ==> t.body.value.list == t.current
  }

  lemma CurrentStep<T>(s: State<T>, a: Action<T>)
    requires Inv(s) && s.mutators == map[] && AllCurrent(s) && Enabled(s, a) && !a.Write?
    ensures Next(s, a).mutators == map[] && AllCurrent(Next(s, a))
  {
    var t := Next(s, a);
    forall r | r in t.requests && Past(t.requests[r]) ensures t.requests[r].list == t.current {
      if Actor(a) != Some(r) {
        Bystander(s, a, r);
      } else {
        assert ListInv(s, s.requests[r]);
      }
    }
    if a.CheckAndStore? {
      assert ListInv(s, s.requests[a.r]);
    }
  }

  lemma {:induction false} CurrentRun<T>(s: State<T>, run: seq<Action<T>>)
    requires Inv(s) && s.mutators == map[] && AllCurrent(s) && ValidRun(s, run) && WriteFree(run)
    ensures AllCurrent(After(s, run))
    decreases run
  {
    if run != [] {
      CurrentStep(s, run[0]);
      StepKeepsInv(s, run[0]);
      CurrentRun(Next(s, run[0]), run[1..]);
    }
  }

  /** The fill inside the mutex ends, if there is one. */
  lemma Unlock<T(!new)>(o: State<T>, s: State<T>, writes: bool) returns (t: State<T>)
    requires Inv(s) && Leads(o, s, writes)
    ensures Inv(t) && Leads(o, t, writes) && t.lock.None?
    ensures t.current == s.current && t.version == s.version && t.clock == s.clock && t.requests.Keys == s.requests.Keys
    ensures forall r :: r in s.requests && s.lock != Some(r) ==>
        t.requests[r] == s.requests[r] || t.requests[r] == Disturbed(s.requests[r])
  {
    t := s;
    if s.lock.Some? {
      var q := s.lock.value;
      assert LockInv(s, q);
      if t.requests[q].Locked? {
        StepKeepsInv(t, StoreBody(q));
        t := Do(o, t, writes, StoreBody(q));
      }
      StepKeepsInv(t, StoreDeadline(q));
      t := Do(o, t, writes, StoreDeadline(q));
    }
  }

  /** A fill past its check can always get its list into the cache. */
  lemma PastCanStore<T(!new)>(s: State<T>, r: nat) returns (t: State<T>)
    requires Inv(s) && r in s.requests && Past(s.requests[r])
    ensures Leads(s, t, false) && t.current == s.current && t.body.Some? && t.body.value.list == s.requests[r].list
  {
    assert LockInv(s, r);
    Stay(s, false);
    t := s;
    if s.requests[r].Checked? {
      t := Unlock(s, s, false);
      t := Do(s, t, false, Lock(r));
    }
    if t.requests[r].Locked? {
      t := Do(s, t, false, StoreBody(r));
    }
  }

  /** Once every invalidation has ended, a stale list can never be cached again, short of a
      new write, if and only if the cached list and those of all fills past their version check
      are the current one. */
  lemma NeverStaleIff<T(!new)>(list: T, s: State<T>)
    requires Reachable(list, s) && s.mutators == map[]
    ensures NeverStale(s) <==> AllCurrent(s)
  {
    ReachableInv(list, s);
    if AllCurrent(s) {
      forall t | Leads(s, t, false) && t.body.Some? ensures t.body.value.list == t.current {
        var run: seq<Action<T>> :| ValidRun(s, run) && WriteFree(run) && t == After(s, run);
        CurrentRun(s, run);
      }
    }
    if NeverStale(s) {
      Stay(s, false);
      forall r | r in s.requests && Past(s.requests[r]) ensures s.requests[r].list == s.current {
        var t := PastCanStore(s, r);
      }
    }
  }

  // ----- exactly when an old list can be served -----

  /** Some continuation serves request r a list that is 1000 ms old or older. */
  ghost predicate ServedOld<T(!new)>(s: State<T>, r: nat) {
    exists t :: Leads(s, t, true) && r in t.requests && t.requests[r].Served?
                && t.requests[r].now >= t.requests[r].served.from + 1000
  }

  /** A request between its loads keeps its clock reading and its body until it is served. */
  ghost predicate Carries<T>(pc: RequestPc<T>, now: nat, body: Body<T>) {
    match pc
    case Timed(_) => false
    case Loaded(n, b, _) => n == now && b == Some(body)
    case Served(n, b, _) => n == now && b == body
    case _ => true
  }

  lemma {:induction false} CarriesOn<T>(s: State<T>, r: nat, now: nat, body: Body<T>, run: seq<Action<T>>)
    requires ValidRun(s, run) && r in s.requests && Carries(s.requests[r], now, body)
    ensures r in After(s, run).requests && Carries(After(s, run).requests[r], now, body)
    decreases run
  {
    if run != [] {
      if Actor(run[0]) != Some(r) { Bystander(s, run[0], r); }
      CarriesOn(Next(s, run[0]), r, now, body, run[1..]);
    }
  }

  lemma {:induction false} FreshId(used: set<nat>) returns (q: nat)
    ensures forall x :: x in used ==> x < q
    decreases used
  {
    if used == {} {
      q := 0;
    } else {
      var x :| x in used;
      q := FreshId(used - {x});
      assert forall y :: y in used ==> y == x || y in used - {x};
      if q <= x { q := x + 1; }
    }
  }

  /** A request that misses and gets as far as its passed version check. */
  lemma MissAndCheck<T(!new)>(o: State<T>, s: State<T>, writes: bool, r: nat) returns (t: State<T>)
    requires Leads(o, s, writes) && r !in s.requests && (s.body.None? || s.deadline <= s.clock)
    ensures Leads(o, t, writes) && t == s.(requests := s.requests[r := Checked(s.clock, s.current, s.version)])
  {
    t := Miss(o, s, writes, r);
    t := Do(o, t, writes, LoadVersion(r));
    t := Do(o, t, writes, ReadList(r));
    t := Do(o, t, writes, Check(r));
  }

  lemma Miss<T(!new)>(o: State<T>, s: State<T>, writes: bool, r: nat) returns (t: State<T>)
    requires Leads(o, s, writes) && r !in s.requests && (s.body.None? || s.deadline <= s.clock)
    ensures Leads(o, t, writes) && t == s.(requests := s.requests[r := Missed(s.clock)])
  {
    t := Do(o, s, writes, Begin(r));
    t := Do(o, t, writes, LoadBody(r));
    t := Do(o, t, writes, LoadDeadline(r));
  }

  lemma Store<T(!new)>(o: State<T>, s: State<T>, writes: bool, r: nat) returns (t: State<T>)
    requires Leads(o, s, writes) && r in s.requests && s.requests[r].Checked? && s.lock.None?
    ensures Leads(o, t, writes)
    ensures var pc := s.requests[r];
            t == s.(requests := Disturb(s.requests)[r := Finished], body := Some(Body(pc.list, pc.now, pc.checked)),
                    deadline := pc.now + TTL_MS, deadlineFrom := Some(pc.now))
  {
    t := Do(o, s, writes, Lock(r));
    t := Do(o, t, writes, StoreBody(r));
    var stored := t;
    t := Do(o, t, writes, StoreDeadline(r));
    assert Disturb(stored.requests)[r := Finished] == Disturb(s.requests)[r := Finished];
  }

  /** A request between its loads can be served whatever it has loaded, by the deadline of a
      fill that comes in between. */
  lemma LoadedCanBeServed<T(!new)>(s: State<T>, r: nat) returns (t: State<T>)
    requires Inv(s) && r in s.requests && s.requests[r].Loaded? && s.requests[r].body.Some?
    ensures Leads(s, t, true) && r in t.requests && t.requests[r].Served?
    ensures t.requests[r].now == s.requests[r].now && t.requests[r].served == s.requests[r].body.value
  {
    Stay(s, true);
    assert LockInv(s, r) && AgeInv(s, s.requests[r]);
    t := Unlock(s, s, true);
    if t.deadline <= t.requests[r].now {
      var q := FreshId(t.requests.Keys);
      t := MissAndCheck(s, t, true, q);
      t := Store(s, t, true, q);
    }
    t := Do(s, t, true, LoadDeadline(r));
  }

  /** A request that has loaded a body, and not yet the deadline, can still be served it at the
      TTL's age or beyond if and only if the body has that age already. */
  lemma ServedOldIff<T(!new)>(list: T, s: State<T>, r: nat)
    requires Reachable(list, s) && r in s.requests && s.requests[r].Loaded? && s.requests[r].body.Some?
    ensures ServedOld(s, r) <==> s.requests[r].now >= s.requests[r].body.value.from + 1000
  {
    ReachableInv(list, s);
    var now, body := s.requests[r].now, s.requests[r].body.value;
    if ServedOld(s, r) {
      var t :| Leads(s, t, true) && r in t.requests && t.requests[r].Served?
               && t.requests[r].now >= t.requests[r].served.from + 1000;
      var run: seq<Action<T>> :| ValidRun(s, run) && t == After(s, run);
      CarriesOn(s, r, now, body, run);
    }
    if now >= body.from + 1000 {
      var t := LoadedCanBeServed(s, r);
    }
  }

  // ----- runs in which the two bounds fail -----

  lemma {:induction false} Wait<T(!new)>(o: State<T>, s: State<T>, writes: bool, n: nat) returns (t: State<T>)
    requires Leads(o, s, writes)
    ensures Leads(o, t, writes) && t == s.(clock := s.clock + n)
    decreases n
  {
    if n == 0 {
      t := s;
    } else {
      t := Do(o, s, writes, Tick);
      t := Wait(o, t, writes, n - 1);
    }
  }

  /** One list replaced by another, and the invalidation over, while a fill of the old list is
      past its version check. */
  lemma InvalidatedTooLate<T(!new)>(list: T, newer: T) returns (s: State<T>)
    ensures Reachable(list, s) && s.mutators == map[] && s.current == newer && s.lock.None? && s.body.None?
    ensures s.clock == 0 && s.requests == map[0 := Checked(0, list, 1)]
  {
    var o := Init(list);
    Stay(o, true);
    s := MissAndCheck(o, o, true, 0);
    s := Do(o, s, true, Write(0, newer));
    s := Do(o, s, true, Bump(0));
    s := Do(o, s, true, ZeroDeadline(0));
    s := Do(o, s, true, Clear(0));
    assert s.mutators == map[];
  }

  /** A list that a completed invalidation should have removed is still served: request 1 begins
      after the invalidation has ended, nobody writes any more, and it gets the old list. */
  lemma StaleListServed<T(!new)>(list: T, newer: T) returns (quiet: State<T>, s: State<T>)
    ensures Reachable(list, quiet) && quiet.mutators == map[] && quiet.current == newer && 1 !in quiet.requests
    ensures Leads(quiet, s, false) && s.current == newer
    ensures 1 in s.requests && s.requests[1].Served? && s.requests[1].served.list == list
  {
    quiet := InvalidatedTooLate(list, newer);
    Stay(quiet, false);
    s := Store(quiet, quiet, false, 0);
    s := Do(quiet, s, false, Begin(1));
    s := Do(quiet, s, false, LoadBody(1));
    s := Do(quiet, s, false, LoadDeadline(1));
  }

  /** The two loads of a reader are not one: a body can be served at any age from the TTL
      on, by the deadline that another fill stores in between. */
  lemma OldListServed<T(!new)>(list: T, age: nat) returns (s: State<T>)
    requires age >= 1000
    ensures Reachable(list, s)
    ensures 1 in s.requests && s.requests[1].Served? && s.requests[1].now == s.requests[1].served.from + age
  {
    var o := Init(list);
    Stay(o, true);
    s := MissAndCheck(o, o, true, 0);
    s := Store(o, s, true, 0);
    s := Wait(o, s, true, age);
    s := Do(o, s, true, Begin(1));
    s := Do(o, s, true, LoadBody(1));
    assert s.requests[1].Loaded? && s.requests[1].body == Some(Body(list, 0, 1)) && s.requests[1].now == age;
    s := MissAndCheck(o, s, true, 2);
    s := Store(o, s, true, 2);
    s := Do(o, s, true, LoadDeadline(1));
  }
}
