/** Parallel brand discovery (`include/core/camera_discovery.hpp`): one detached thread per
    brand probes a list of ports, the first success publishes its brand and port, and the
    calling thread polls.  Every access to a shared atomic is one action.  Probe results,
    exceptions (a failed probe) and the timeout are left open. */
module CameraDiscovery {
  import opened Common

  /** `cores[i]` tells whether thread i's brand has an implementation; every thread tries the
      same ports in the same order. */
  datatype Config = Config(cores: seq<bool>, ports: seq<int>, httpPort: int)

  const USUAL_PORTS: seq<int> := [80, 8000, 8080, 8899, 443]

  /** The list each thread builds: the configured port, then the usual ones without it. */
  method PortsToTry(httpPort: int) returns (ports: seq<int>)
    ensures |ports| >= 1 && ports[0] == httpPort
    ensures forall p :: p in ports <==> p == httpPort || p == 80 || p == 8000 || p == 8080 || p == 8899 || p == 443
    ensures forall i, j :: 0 <= i < j < |ports| ==> ports[i] != ports[j]
  {
    ports := [httpPort];
    for n := 0 to |USUAL_PORTS|
      invariant |ports| >= 1 && ports[0] == httpPort
      invariant forall p :: p in ports <==> p == httpPort || p in USUAL_PORTS[..n]
      invariant forall i, j :: 0 <= i < j < |ports| ==> ports[i] != ports[j]
    {
      var p := USUAL_PORTS[n];
      assert p !in USUAL_PORTS[..n];
      assert forall q :: q in USUAL_PORTS[..n + 1] <==> q in USUAL_PORTS[..n] || q == p;
      if p != httpPort { ports := ports + [p]; }
    }
    assert USUAL_PORTS[..|USUAL_PORTS|] == USUAL_PORTS;
  }

  /** Where a probing thread stands; k is an index into the ports. */
  datatype Pc =
    | Begin | AtPort(k: nat) | Probing(k: nat) | Locking(k: nat) | Holding(k: nat)
    | FoundSet(k: nat) | BrandSet(k: nat) | PortSet(k: nat) | Won
    | Ending(matched: bool) | EndingUnfound | Calling(ok: bool) | Leaving | Gone

  datatype MainPc =
    | PollActive | PollFound | Decide | Invalidate | LoadFound
    | ReadBrand | ReadPort(brand: Option<nat>) | Use(brand: Option<nat>, port: int) | Fallback

  datatype Probe = Probe(thread: nat, k: nat)

  /** What the threads share, and histories: who set `found`, and how probes ended. */
  datatype Shared = Shared(
    found: bool,
    lock: Option<nat>,           // the thread inside result_mutex
    brand: Option<nat>,          // matched_brand; None is Unknown
    port: int,                   // successful_port
    winner: Option<Probe>,
    failed: set<Probe>,
    succeeded: set<Probe>
  )

  datatype State = State(
    threads: seq<Pc>,
    shared: Shared,
    valid: bool,
    active: int,
    main: MainPc,
    callbacks: seq<bool>,        // the calls of on_probe
    sawZero: bool,               // the polling loop ended on a zero count
    brandEarly: bool,            // the main thread read before the winner stored
    portEarly: bool
  )

  datatype Action = Step(i: nat, probeOk: bool) | MainStep(timeout: bool)

  function Init(c: Config): State {
    State(seq(|c.cores|, _ => Begin), Shared(false, None, None, c.httpPort, None, {}, {}), true, |c.cores|,
          PollActive, [], false, false, false)
  }

  predicate Enabled(s: State, a: Action) {
    match a
    case Step(i, _) =>
      i < |s.threads| && s.threads[i] != Gone && (s.threads[i].Locking? ==> s.shared.lock.None?)
    case MainStep(_) => !s.main.Use? && !s.main.Fallback?
  }

  function NextPc(c: Config, sh: Shared, valid: bool, i: nat, pc: Pc, probeOk: bool): Pc
    requires i < |c.cores|
  {
    match pc
    case Begin => if sh.found || !c.cores[i] then Leaving else AtPort(0)
    case AtPort(k) => if k >= |c.ports| || sh.found then Ending(false) else Probing(k)
    case Probing(k) => if probeOk then Locking(k) else AtPort(k + 1)
    case Locking(k) => Holding(k)
    case Holding(k) => if sh.found then Ending(true) else FoundSet(k)
    case FoundSet(k) => BrandSet(k)
    case BrandSet(k) => PortSet(k)
    case PortSet(_) => Won
    case Won => if valid then Calling(true) else Ending(true)
    case Ending(matched) => if !matched && !sh.found then EndingUnfound else Leaving
    case EndingUnfound => if valid then Calling(false) else Leaving
    case Calling(ok) => if ok then Ending(true) else Leaving
    case Leaving => Gone
    case Gone => Gone
  }

  function NextShared(c: Config, sh: Shared, i: nat, pc: Pc, probeOk: bool): Shared {
    match pc
    case Probing(k) =>
      if probeOk then sh.(succeeded := sh.succeeded + {Probe(i, k)}) else sh.(failed := sh.failed + {Probe(i, k)})
    case Locking(_) => sh.(lock := Some(i))
    case Holding(k) => if sh.found then sh.(lock := None) else sh.(found := true, winner := Some(Probe(i, k)))
    case FoundSet(_) => sh.(brand := Some(i))
    case BrandSet(k) => sh.(port := if k < |c.ports| then c.ports[k] else sh.port)
    case PortSet(_) => sh.(lock := None)
    case _ => sh
  }

  function ThreadStep(c: Config, s: State, i: nat, probeOk: bool): State
    requires i < |s.threads| == |c.cores|
  {
    var pc := s.threads[i];
    s.(threads := s.threads[i := NextPc(c, s.shared, s.valid, i, pc, probeOk)],
       shared := NextShared(c, s.shared, i, pc, probeOk),
       active := if pc.Leaving? then s.active - 1 else s.active,
       callbacks := if pc.Calling? then s.callbacks + [pc.ok] else s.callbacks)
  }

  function WinnerPc(threads: seq<Pc>, sh: Shared): Pc {
    if sh.winner.Some? && sh.winner.value.thread < |threads| then threads[sh.winner.value.thread] else Begin
  }

  function MainNext(s: State, timeout: bool): (t: State)
    ensures t.threads == s.threads && t.shared == s.shared && t.active == s.active && t.callbacks == s.callbacks
  {
    match s.main
    case PollActive => if s.active > 0 then s.(main := PollFound) else s.(main := Invalidate, sawZero := true)
    case PollFound => s.(main := if s.shared.found then Invalidate else Decide)
    case Decide => s.(main := if timeout then Invalidate else PollActive)
    case Invalidate => s.(main := LoadFound, valid := false)
    case LoadFound => s.(main := if s.shared.found then ReadBrand else Fallback)
    case ReadBrand => s.(main := ReadPort(s.shared.brand), brandEarly := WinnerPc(s.threads, s.shared).FoundSet?)
    case ReadPort(b) =>
      var pc := WinnerPc(s.threads, s.shared);
      s.(main := Use(b, s.shared.port), portEarly := pc.FoundSet? || pc.BrandSet?)
    case Use(_, _) => s
    case Fallback => s
  }

  function Next(c: Config, s: State, a: Action): (t: State)
    requires |s.threads| == |c.cores| && Enabled(s, a)
    ensures |t.threads| == |s.threads|
  {
    match a
    case Step(i, probeOk) => ThreadStep(c, s, i, probeOk)
    case MainStep(timeout) => MainNext(s, timeout)
  }

  ghost predicate ValidRun(c: Config, s: State, run: seq<Action>)
    requires |s.threads| == |c.cores|
    decreases run
  {
    run == [] || (Enabled(s, run[0]) && ValidRun(c, Next(c, s, run[0]), run[1..]))
  }

  ghost function After(c: Config, s: State, run: seq<Action>): (t: State)
    requires |s.threads| == |c.cores| && ValidRun(c, s, run)
    ensures |t.threads| == |c.cores|
    decreases run
  {
    if run == [] then s else After(c, Next(c, s, run[0]), run[1..])
  }

  ghost predicate Reachable(c: Config, s: State) {
    exists run :: ValidRun(c, Init(c), run) && s == After(c, Init(c), run)
  }

  // ----- invariants -----

  function Alive(threads: seq<Pc>): nat {
    if threads == [] then 0 else (if threads[0] == Gone then 0 else 1) + Alive(threads[1..])
  }

  lemma {:induction false} AliveUpdate(threads: seq<Pc>, i: nat, pc: Pc)
    requires i < |threads|
    ensures Alive(threads[i := pc]) + (if threads[i] == Gone then 0 else 1)
            == Alive(threads) + (if pc == Gone then 0 else 1)
    decreases threads
  {
    var changed := threads[i := pc];
    if i == 0 {
      assert changed[1..] == threads[1..];
    } else {
      assert changed[1..] == threads[1..][i - 1 := pc];
      AliveUpdate(threads[1..], i - 1, pc);
    }
  }

  lemma {:induction false} NoneAlive(threads: seq<Pc>, i: nat)
    requires Alive(threads) == 0 && i < |threads|
    ensures threads[i] == Gone
    decreases threads
  {
    if i > 0 {
      NoneAlive(threads[1..], i - 1);
    }
  }

  predicate Critical(pc: Pc) { pc.Holding? || pc.FoundSet? || pc.BrandSet? || pc.PortSet? }

  /** Every probe of thread i up to port n has failed. */
  ghost predicate FailedUpTo(sh: Shared, i: nat, n: nat) {
    forall k: nat :: k < n ==> Probe(i, k) in sh.failed
  }

  ghost predicate AllFailed(c: Config, sh: Shared, i: nat) { FailedUpTo(sh, i, |c.ports|) }

  ghost predicate Winner(sh: Shared, i: nat) { sh.winner.Some? && sh.winner.value.thread == i }

  ghost predicate LocalInv(c: Config, sh: Shared, i: nat, pc: Pc)
    requires i < |c.cores|
  {
    match pc
    case Begin => true
    case AtPort(k) => c.cores[i] && k <= |c.ports| && FailedUpTo(sh, i, k)
    case Probing(k) => c.cores[i] && k < |c.ports| && FailedUpTo(sh, i, k)
    case Locking(k) => c.cores[i] && k < |c.ports| && Probe(i, k) in sh.succeeded
    case Holding(k) => c.cores[i] && k < |c.ports| && Probe(i, k) in sh.succeeded
    case FoundSet(k) => sh.winner == Some(Probe(i, k))
    case BrandSet(k) => sh.winner == Some(Probe(i, k))
    case PortSet(k) => sh.winner == Some(Probe(i, k))
    case Won => Winner(sh, i)
    case Ending(matched) => sh.found || (!matched && c.cores[i] && AllFailed(c, sh, i))
    case EndingUnfound => sh.found || (c.cores[i] && AllFailed(c, sh, i))
    case Calling(ok) => if ok then Winner(sh, i) && sh.found else sh.found || (c.cores[i] && AllFailed(c, sh, i))
    case Leaving => sh.found || !c.cores[i] || AllFailed(c, sh, i)
    case Gone => sh.found || !c.cores[i] || AllFailed(c, sh, i)
  }

  ghost predicate ThreadsInv(c: Config, threads: seq<Pc>, sh: Shared)
    requires |threads| == |c.cores|
  {
    && (forall i :: 0 <= i < |threads| ==> LocalInv(c, sh, i, threads[i]))
    && (forall i :: 0 <= i < |threads| ==> (Critical(threads[i]) <==> sh.lock == Some(i)))
  }

  /** Where a winner can stand. */
  predicate AfterWin(pc: Pc) {
    match pc
    case FoundSet(_) => true
    case BrandSet(_) => true
    case PortSet(_) => true
    case Won => true
    case Calling(ok) => ok
    case Ending(matched) => matched
    case Leaving => true
    case Gone => true
    case _ => false
  }

  /** What the winner has published so far. */
  ghost predicate Published(c: Config, threads: seq<Pc>, sh: Shared) {
    if sh.winner.None? then !sh.found && sh.brand == None && sh.port == c.httpPort
    else
      var w := sh.winner.value;
      && sh.found && w.thread < |threads| && w.k < |c.ports| && w in sh.succeeded
      && w.thread < |c.cores| && c.cores[w.thread] && AfterWin(threads[w.thread])
      && sh.brand == (if threads[w.thread].FoundSet? then None else Some(w.thread))
      && sh.port == (if threads[w.thread].FoundSet? || threads[w.thread].BrandSet? then c.httpPort else c.ports[w.k])
  }

  /** The success callback is called at most once, and by the winner. */
  ghost predicate CallbackInv(threads: seq<Pc>, sh: Shared, callbacks: seq<bool>) {
    && multiset(callbacks)[true] <= 1
    && (multiset(callbacks)[true] == 1 ==>
          && sh.winner.Some? && sh.winner.value.thread < |threads|
          && (WinnerPc(threads, sh) == Ending(true) || WinnerPc(threads, sh) == Leaving || WinnerPc(threads, sh) == Gone))
  }

  /** How many threads with a brand to probe have given up or are gone. */
  function GivenUp(cores: seq<bool>, threads: seq<Pc>): nat
    requires |cores| == |threads|
  {
    if threads == [] then 0
    else (if cores[0] && (threads[0].Leaving? || threads[0].Gone?) then 1 else 0) + GivenUp(cores[1..], threads[1..])
  }

  lemma {:induction false} GivenUpUpdate(cores: seq<bool>, threads: seq<Pc>, i: nat, pc: Pc)
    requires i < |threads| == |cores|
    ensures GivenUp(cores, threads[i := pc]) + (if cores[i] && (threads[i].Leaving? || threads[i].Gone?) then 1 else 0)
            == GivenUp(cores, threads) + (if cores[i] && (pc.Leaving? || pc.Gone?) then 1 else 0)
    decreases threads
  {
    var changed := threads[i := pc];
    if i == 0 {
      assert changed[1..] == threads[1..];
    } else {
      assert changed[1..] == threads[1..][i - 1 := pc];
      GivenUpUpdate(cores[1..], threads[1..], i - 1, pc);
    }
  }

  predicate PastCall(pc: Pc) { pc.Ending? || pc.Leaving? || pc.Gone? }

  /** While the callback is valid: as long as nothing is found, one call per thread that has
      given up; and the winner's call is made before the winner ends. */
  ghost predicate ReportInv(c: Config, threads: seq<Pc>, sh: Shared, callbacks: seq<bool>)
    requires |threads| == |c.cores|
  {
    && (!sh.found ==> multiset(callbacks)[false] == GivenUp(c.cores, threads))
    && (sh.winner.Some? && PastCall(WinnerPc(threads, sh)) ==> multiset(callbacks)[true] == 1)
  }

  ghost predicate MainInv(c: Config, s: State) {
    && (s.sawZero ==> s.active == 0)
    && (s.main.ReadBrand? || s.main.ReadPort? || s.main.Use? ==> s.shared.winner.Some?)
    && (s.main.ReadPort? || s.main.Use? ==>
          s.main.brand == if s.brandEarly then None else Some(s.shared.winner.value.thread))
    && (s.main.Use? ==>
          && s.shared.winner.value.k < |c.ports|
          && s.main.port == if s.portEarly then c.httpPort else c.ports[s.shared.winner.value.k])
    && (s.main.Fallback? && s.sawZero ==> !s.shared.found)
    && (s.valid <==> Polling(s.main))
  }

  predicate Polling(main: MainPc) { main.PollActive? || main.PollFound? || main.Decide? || main.Invalidate? }

  ghost predicate Inv(c: Config, s: State) {
    && |s.threads| == |c.cores|
    && s.active == Alive(s.threads)
    && ThreadsInv(c, s.threads, s.shared)
    && Published(c, s.threads, s.shared)
    && CallbackInv(s.threads, s.shared, s.callbacks)
    && (s.valid ==> ReportInv(c, s.threads, s.shared, s.callbacks))
    && MainInv(c, s)
  }

  /** The shared part only grows: `found` and the winner are never retracted, and a step of
      one thread does not move the lock of another. */
  ghost predicate Grows(sh: Shared, next: Shared, i: nat) {
    && (sh.found ==> next.found) && (sh.winner.Some? ==> next.winner == sh.winner)
    && sh.failed <= next.failed && sh.succeeded <= next.succeeded
    && (next.lock == sh.lock || next.lock == Some(i) || next.lock == None)
  }

  lemma SharedGrows(c: Config, sh: Shared, i: nat, pc: Pc, probeOk: bool)
    requires sh.found <==> sh.winner.Some?
    ensures Grows(sh, NextShared(c, sh, i, pc, probeOk), i)
    ensures NextShared(c, sh, i, pc, probeOk).found <==> NextShared(c, sh, i, pc, probeOk).winner.Some?
  {
  }

  lemma LocalKept(c: Config, sh: Shared, next: Shared, i: nat, j: nat, pc: Pc)
    requires j < |c.cores| && LocalInv(c, sh, j, pc) && Grows(sh, next, i)
    ensures LocalInv(c, next, j, pc)
  {
  }

  lemma LocalStep(c: Config, sh: Shared, valid: bool, i: nat, pc: Pc, probeOk: bool)
    requires i < |c.cores| && LocalInv(c, sh, i, pc) && (sh.found <==> sh.winner.Some?)
    ensures LocalInv(c, NextShared(c, sh, i, pc, probeOk), i, NextPc(c, sh, valid, i, pc, probeOk))
  {
    if pc.Ending? || pc.EndingUnfound? || pc.Leaving? || pc.AtPort? || pc.Begin? {
      assert NextShared(c, sh, i, pc, probeOk) == sh;
    }
  }

  lemma LockStep(c: Config, threads: seq<Pc>, sh: Shared, valid: bool, i: nat, probeOk: bool)
    requires i < |threads| == |c.cores| && (threads[i].Locking? ==> sh.lock.None?)
    requires forall j :: 0 <= j < |threads| ==> (Critical(threads[j]) <==> sh.lock == Some(j))
    ensures var next := NextShared(c, sh, i, threads[i], probeOk);
            var moved := threads[i := NextPc(c, sh, valid, i, threads[i], probeOk)];
            forall j :: 0 <= j < |threads| ==> (Critical(moved[j]) <==> next.lock == Some(j))
  {
    assert Critical(threads[i]) <==> sh.lock == Some(i);
  }

  lemma ThreadsStep(c: Config, s: State, i: nat, probeOk: bool)
    requires Inv(c, s) && i < |s.threads| && Enabled(s, Step(i, probeOk))
    ensures ThreadsInv(c, ThreadStep(c, s, i, probeOk).threads, ThreadStep(c, s, i, probeOk).shared)
  {
    var t := ThreadStep(c, s, i, probeOk);
    LockStep(c, s.threads, s.shared, s.valid, i, probeOk);
    SharedGrows(c, s.shared, i, s.threads[i], probeOk);
    forall j | 0 <= j < |s.threads| ensures LocalInv(c, t.shared, j, t.threads[j]) {
      if j == i {
        LocalStep(c, s.shared, s.valid, i, s.threads[i], probeOk);
      } else {
        LocalKept(c, s.shared, t.shared, i, j, s.threads[j]);
      }
    }
  }

  lemma PublishedStep(c: Config, threads: seq<Pc>, sh: Shared, valid: bool, i: nat, probeOk: bool)
    requires i < |threads| == |c.cores| && Published(c, threads, sh) && LocalInv(c, sh, i, threads[i])
    ensures var next := NextShared(c, sh, i, threads[i], probeOk);
            Published(c, threads[i := NextPc(c, sh, valid, i, threads[i], probeOk)], next)
  {
    var moved := threads[i := NextPc(c, sh, valid, i, threads[i], probeOk)];
    if sh.winner.Some? && sh.winner.value.thread != i {
      assert moved[sh.winner.value.thread] == threads[sh.winner.value.thread];
    }
  }

  lemma CallbackStep(c: Config, s: State, i: nat, probeOk: bool)
    requires Inv(c, s) && i < |s.threads| && Enabled(s, Step(i, probeOk))
    ensures var t := ThreadStep(c, s, i, probeOk); CallbackInv(t.threads, t.shared, t.callbacks)
  {
    var t := ThreadStep(c, s, i, probeOk);
    SharedGrows(c, s.shared, i, s.threads[i], probeOk);
    assert LocalInv(c, s.shared, i, s.threads[i]);
    if s.threads[i].Calling? {
      assert multiset(t.callbacks) == multiset(s.callbacks) + multiset{s.threads[i].ok};
    }
    if s.shared.winner.Some? && s.shared.winner.value.thread != i {
      assert WinnerPc(t.threads, t.shared) == WinnerPc(s.threads, s.shared);
    }
  }

  lemma CallCount(callbacks: seq<bool>, ok: bool, b: bool)
    ensures multiset(callbacks + [ok])[b] == multiset(callbacks)[b] + if ok == b then 1 else 0
  {
  }

  lemma FailureReports(c: Config, s: State, i: nat, probeOk: bool)
    requires Inv(c, s) && i < |s.threads| && Enabled(s, Step(i, probeOk)) && s.valid
    ensures var t := ThreadStep(c, s, i, probeOk);
            !t.shared.found ==> multiset(t.callbacks)[false] == GivenUp(c.cores, t.threads)
  {
    var t := ThreadStep(c, s, i, probeOk);
    var pc := s.threads[i];
    SharedGrows(c, s.shared, i, pc, probeOk);
    GivenUpUpdate(c.cores, s.threads, i, t.threads[i]);
    assert LocalInv(c, s.shared, i, pc);
    if pc.Calling? {
      CallCount(s.callbacks, pc.ok, false);
    }
  }

  lemma SuccessReports(c: Config, s: State, i: nat, probeOk: bool)
    requires Inv(c, s) && i < |s.threads| && Enabled(s, Step(i, probeOk)) && s.valid
    ensures var t := ThreadStep(c, s, i, probeOk);
            t.shared.winner.Some? && PastCall(WinnerPc(t.threads, t.shared)) ==> multiset(t.callbacks)[true] == 1
  {
    var t := ThreadStep(c, s, i, probeOk);
    var pc := s.threads[i];
    SharedGrows(c, s.shared, i, pc, probeOk);
    assert LocalInv(c, s.shared, i, pc);
    if pc.Calling? {
      CallCount(s.callbacks, pc.ok, true);
    }
    if s.shared.winner.Some? && s.shared.winner.value.thread != i {
      assert WinnerPc(t.threads, t.shared) == WinnerPc(s.threads, s.shared);
    }
  }

  lemma MainUndisturbed(c: Config, s: State, i: nat, probeOk: bool)
    requires Inv(c, s) && i < |s.threads| && Enabled(s, Step(i, probeOk))
    ensures MainInv(c, ThreadStep(c, s, i, probeOk))
  {
    SharedGrows(c, s.shared, i, s.threads[i], probeOk);
    if s.sawZero {
      NoneAlive(s.threads, i);
    }
  }

  lemma MainStepKeepsMain(c: Config, s: State, timeout: bool)
    requires MainInv(c, s) && Published(c, s.threads, s.shared) && !s.main.Use? && !s.main.Fallback?
    requires s.active >= 0
    ensures MainInv(c, MainNext(s, timeout))
  {
    match s.main
    case ReadBrand => assert Published(c, s.threads, s.shared);
    case ReadPort(b) => assert Published(c, s.threads, s.shared);
    case _ =>
  }

  lemma ThreadStepKeepsInv(c: Config, s: State, i: nat, probeOk: bool)
    requires Inv(c, s) && Enabled(s, Step(i, probeOk))
    ensures Inv(c, ThreadStep(c, s, i, probeOk))
  {
    ThreadsStep(c, s, i, probeOk);
    assert LocalInv(c, s.shared, i, s.threads[i]);
    PublishedStep(c, s.threads, s.shared, s.valid, i, probeOk);
    CallbackStep(c, s, i, probeOk);
    if s.valid {
      FailureReports(c, s, i, probeOk);
      SuccessReports(c, s, i, probeOk);
    }
    MainUndisturbed(c, s, i, probeOk);
    AliveUpdate(s.threads, i, NextPc(c, s.shared, s.valid, i, s.threads[i], probeOk));
  }

  lemma StepKeepsInv(c: Config, s: State, a: Action)
    requires Inv(c, s) && Enabled(s, a)
    ensures Inv(c, Next(c, s, a))
  {
    match a
    case Step(i, probeOk) => ThreadStepKeepsInv(c, s, i, probeOk);
    case MainStep(timeout) => MainStepKeepsMain(c, s, timeout);
  }

  lemma {:induction false} AllAlive(n: nat)
    ensures Alive(seq(n, _ => Begin)) == n
    decreases n
  {
    if n > 0 {
      assert seq(n, _ => Begin)[1..] == seq(n - 1, _ => Begin);
      AllAlive(n - 1);
    }
  }

  lemma {:induction false} RunKeepsInv(c: Config, s: State, run: seq<Action>)
    requires Inv(c, s) && ValidRun(c, s, run)
    ensures Inv(c, After(c, s, run))
    decreases run
  {
    if run != [] {
      StepKeepsInv(c, s, run[0]);
      RunKeepsInv(c, Next(c, s, run[0]), run[1..]);
    }
  }

  lemma {:induction false} NobodyGivenUp(cores: seq<bool>)
    ensures GivenUp(cores, seq(|cores|, _ => Begin)) == 0
    decreases cores
  {
    if cores != [] {
      assert seq(|cores|, _ => Begin)[1..] == seq(|cores[1..]|, _ => Begin);
      NobodyGivenUp(cores[1..]);
    }
  }

  lemma ReachableInv(c: Config, s: State)
    requires Reachable(c, s)
    ensures Inv(c, s)
  {
    AllAlive(|c.cores|);
    NobodyGivenUp(c.cores);
    var run :| ValidRun(c, Init(c), run) && s == After(c, Init(c), run);
    RunKeepsInv(c, Init(c), run);
  }

  // ----- main results -----

  /** `active_threads` counts the threads that have not finished. */
  lemma ActiveIsUnfinished(c: Config, s: State)
    requires Reachable(c, s)
    ensures s.active == Alive(s.threads)
  {
    ReachableInv(c, s);
  }

  /** At most one thread wins: `found` is set once, by a thread whose probe succeeded, and
      the winner never changes; the success callback is called at most once. */
  lemma AtMostOneWinner(c: Config, s: State, a: Action)
    requires Reachable(c, s) && Enabled(s, a)
    ensures s.shared.found <==> s.shared.winner.Some?
    ensures s.shared.winner.Some? ==> s.shared.winner.value in s.shared.succeeded
    ensures s.shared.winner.Some? ==> Next(c, s, a).shared.winner == s.shared.winner && Next(c, s, a).shared.found
    ensures multiset(s.callbacks)[true] <= 1
  {
    ReachableInv(c, s);
    if a.Step? {
      SharedGrows(c, s.shared, a.i, s.threads[a.i], a.probeOk);
    }
  }

  /** Whenever a result is found and the mutex is free, brand and port are the pair the
      winner probed successfully. */
  lemma PublishedPairIsWinners(c: Config, s: State)
    requires Reachable(c, s) && s.shared.found && s.shared.lock.None?
    ensures s.shared.winner.Some? && s.shared.winner.value in s.shared.succeeded
    ensures s.shared.winner.value.k < |c.ports| && s.shared.brand == Some(s.shared.winner.value.thread)
    ensures s.shared.port == c.ports[s.shared.winner.value.k]
  {
    ReachableInv(c, s);
    var i := s.shared.winner.value.thread;
    assert Critical(s.threads[i]) <==> s.shared.lock == Some(i);
  }

  /** The main thread reads without the mutex.  What it goes on with is the winner's pair
      exactly when the brand store came before its brand read, and the port store before its
      port read unless the winning port is the configured one anyway. */
  lemma UsedPairIff(c: Config, s: State)
    requires Reachable(c, s) && s.main.Use?
    ensures s.shared.winner.Some? && s.shared.winner.value.k < |c.ports|
    ensures var w := s.shared.winner.value;
            && (s.main.brand == Some(w.thread) <==> !s.brandEarly)
            && (s.main.port == c.ports[w.k] <==> !s.portEarly || c.ports[w.k] == c.httpPort)
            && (s.main.brand == None || s.main.brand == Some(w.thread))
            && (s.main.port == c.httpPort || s.main.port == c.ports[w.k])
  {
    ReachableInv(c, s);
  }

  /** Giving up because no thread is left means that every port of every brand was probed
      without success. */
  lemma ZeroThreadsMeansAllFailed(c: Config, s: State)
    requires Reachable(c, s) && s.sawZero && s.main.Fallback?
    ensures !s.shared.found
    ensures forall i, k :: 0 <= i < |c.cores| && c.cores[i] && 0 <= k < |c.ports| ==> Probe(i, k) in s.shared.failed
  {
    ReachableInv(c, s);
    forall i, k | 0 <= i < |c.cores| && c.cores[i] && 0 <= k < |c.ports| ensures Probe(i, k) in s.shared.failed {
      NoneAlive(s.threads, i);
      assert LocalInv(c, s.shared, i, s.threads[i]);
    }
  }

  /** As long as main has not invalidated the callback and nothing is found, it has been called
      with a failure once for each thread with a brand that has given up; and a winner that has
      ended has been reported, exactly once. */
  lemma EveryOutcomeIsReported(c: Config, s: State)
    requires Reachable(c, s) && s.valid
    ensures |s.threads| == |c.cores|
    ensures !s.shared.found ==> multiset(s.callbacks)[false] == GivenUp(c.cores, s.threads)
    ensures s.shared.winner.Some? ==> s.shared.winner.value.thread < |s.threads|
    ensures s.shared.winner.Some? && s.threads[s.shared.winner.value.thread].Gone? ==> multiset(s.callbacks)[true] == 1
  {
    ReachableInv(c, s);
  }

  /** Once main has stopped polling and invalidated the callback, no thread starts another call. */
  lemma NoCallStartsAfterPolling(c: Config, s: State, i: nat, probeOk: bool)
    requires Reachable(c, s) && !Polling(s.main) && Enabled(s, Step(i, probeOk))
    ensures !ThreadStep(c, s, i, probeOk).threads[i].Calling?
  {
    ReachableInv(c, s);
  }

  /** Main stops polling exactly when it sees no active thread, sees `found`, or times out. */
  lemma PollingEndsIff(c: Config, s: State, timeout: bool)
    requires Reachable(c, s) && Polling(s.main) && s.main != Invalidate
    ensures MainNext(s, timeout).main == Invalidate <==>
        || (s.main == PollActive && s.active <= 0)
        || (s.main == PollFound && s.shared.found)
        || (s.main == Decide && timeout)
  {
  }

  // ----- what the unlocked reads can see -----

  lemma {:induction false} ExtendRun(c: Config, s: State, run: seq<Action>, a: Action)
    requires |s.threads| == |c.cores| && ValidRun(c, s, run) && Enabled(After(c, s, run), a)
    ensures ValidRun(c, s, run + [a]) && After(c, s, run + [a]) == Next(c, After(c, s, run), a)
    decreases run
  {
    if run == [] {
      assert ([] + [a])[1..] == [];
      assert ValidRun(c, Next(c, s, a), []);
    } else {
      assert (run + [a])[1..] == run[1..] + [a];
      ExtendRun(c, Next(c, s, run[0]), run[1..], a);
    }
  }

  lemma Do(c: Config, s: State, a: Action) returns (t: State)
    requires Reachable(c, s) && Enabled(s, a)
    ensures Reachable(c, t) && |s.threads| == |c.cores| && t == Next(c, s, a)
  {
    var run :| ValidRun(c, Init(c), run) && s == After(c, Init(c), run);
    ExtendRun(c, Init(c), run, a);
    t := Next(c, s, a);
  }

  /** Thread i is about to try port k; nobody else has moved. */
  predicate Searching(c: Config, s: State, i: nat, k: nat) {
    && i < |c.cores| && s.threads == Init(c).threads[i := AtPort(k)]
    && s.shared == Init(c).shared.(failed := s.shared.failed)
    && s.main == PollActive && s.active == |c.cores|
  }

  lemma FirstPort(c: Config, i: nat) returns (s: State)
    requires i < |c.cores| && c.cores[i]
    ensures Reachable(c, s) && Searching(c, s, i, 0)
  {
    s := Init(c);
    assert ValidRun(c, s, []) && After(c, s, []) == s;
    s := Do(c, s, Step(i, false));
  }

  lemma NextPort(c: Config, s: State, i: nat, k: nat) returns (t: State)
    requires Reachable(c, s) && Searching(c, s, i, k) && k < |c.ports|
    ensures Reachable(c, t) && Searching(c, t, i, k + 1)
  {
    t := Do(c, s, Step(i, false));
    assert t.threads == Init(c).threads[i := Probing(k)] && t.shared == s.shared;
    t := Do(c, t, Step(i, false));
    assert t.threads == Init(c).threads[i := AtPort(k + 1)];
  }

  lemma {:induction false} SearchTo(c: Config, i: nat, k: nat) returns (s: State)
    requires i < |c.cores| && c.cores[i] && k < |c.ports|
    ensures Reachable(c, s) && Searching(c, s, i, k)
    decreases k
  {
    if k == 0 {
      s := FirstPort(c, i);
    } else {
      s := SearchTo(c, i, k - 1);
      s := NextPort(c, s, i, k - 1);
    }
  }

  /** Thread i finds its brand on port k: the run up to setting `found`. */
  lemma FoundOnPort(c: Config, i: nat, k: nat) returns (s: State)
    requires i < |c.cores| && c.cores[i] && k < |c.ports|
    ensures Reachable(c, s) && |s.threads| == |c.cores| && s.threads[i] == FoundSet(k)
    ensures s.main == PollActive && s.active > 0
    ensures s.shared.found && s.shared.lock == Some(i) && s.shared.brand == None && s.shared.port == c.httpPort
    ensures s.shared.winner == Some(Probe(i, k))
  {
    s := SearchTo(c, i, k);
    s := Do(c, s, Step(i, true));
    assert s.threads[i] == Probing(k);
    s := Do(c, s, Step(i, true));
    assert s.threads[i] == Locking(k) && s.shared.lock == None;
    s := Do(c, s, Step(i, true));
    assert s.threads[i] == Holding(k) && !s.shared.found;
    s := Do(c, s, Step(i, true));
  }

  lemma Main(c: Config, s: State) returns (t: State)
    requires Reachable(c, s) && !s.main.Use? && !s.main.Fallback?
    ensures Reachable(c, t) && t == MainNext(s, false)
  {
    t := Do(c, s, MainStep(false));
  }

  lemma PollAndStop(c: Config, s: State) returns (t: State)
    requires Reachable(c, s) && s.main == PollActive && s.active > 0 && s.shared.found
    ensures Reachable(c, t) && t.main == LoadFound && t.shared == s.shared
  {
    t := Main(c, s);
    t := Main(c, t);
    t := Main(c, t);
  }

  /** The main thread polls once and reads the pair, undisturbed. */
  lemma PollAndRead(c: Config, s: State) returns (t: State)
    requires Reachable(c, s) && s.main == PollActive && s.active > 0 && s.shared.found
    ensures Reachable(c, t) && t.main == Use(s.shared.brand, s.shared.port) && t.shared == s.shared
  {
    t := PollAndStop(c, s);
    t := Main(c, t);
    t := Main(c, t);
    t := Main(c, t);
  }

  /** The main thread goes on with no brand, although thread i found one on port k. */
  lemma UnknownBrandUsed(c: Config, i: nat, k: nat) returns (s: State)
    requires i < |c.cores| && c.cores[i] && k < |c.ports|
    ensures Reachable(c, s) && s.main == Use(None, c.httpPort) && s.shared.winner == Some(Probe(i, k))
  {
    s := FoundOnPort(c, i, k);
    s := PollAndRead(c, s);
  }

  /** Or with the right brand and the wrong port. */
  lemma WrongPortUsed(c: Config, i: nat, k: nat) returns (s: State)
    requires i < |c.cores| && c.cores[i] && k < |c.ports| && c.ports[k] != c.httpPort
    ensures Reachable(c, s) && s.shared.winner == Some(Probe(i, k))
    ensures s.main.Use? && s.main.brand == Some(i) && s.main.port != c.ports[k]
  {
    s := FoundOnPort(c, i, k);
    s := Do(c, s, Step(i, false));
    s := PollAndRead(c, s);
  }

  /** The main thread goes on without the winner's brand. */
  ghost predicate BrandLost(s: State) {
    s.main.Use? && s.shared.winner.Some? && s.main.brand != Some(s.shared.winner.value.thread)
  }

  /** It goes on with the winner's brand, and without the winner's port. */
  ghost predicate PortWrong(c: Config, s: State) {
    && s.main.Use? && s.shared.winner.Some? && s.shared.winner.value.k < |c.ports|
    && s.main.brand == Some(s.shared.winner.value.thread) && s.main.port != c.ports[s.shared.winner.value.k]
  }

  /** The brand can get lost exactly when there is a brand to probe and a port to probe it on. */
  lemma BrandCanGetLostIff(c: Config)
    ensures (exists s :: Reachable(c, s) && BrandLost(s)) <==> true in c.cores && c.ports != []
  {
    if exists s :: Reachable(c, s) && BrandLost(s) {
      var s :| Reachable(c, s) && BrandLost(s);
      ReachableInv(c, s);
      assert c.cores[s.shared.winner.value.thread] in c.cores;
    }
    if true in c.cores && c.ports != [] {
      var i :| 0 <= i < |c.cores| && c.cores[i];
      var s := UnknownBrandUsed(c, i, 0);
      assert BrandLost(s);
    }
  }

  /** The port can be wrong exactly when, besides, some port is not the configured one. */
  lemma PortCanBeWrongIff(c: Config)
    ensures (exists s :: Reachable(c, s) && PortWrong(c, s)) <==> true in c.cores && exists p :: p in c.ports && p != c.httpPort
  {
    if exists s :: Reachable(c, s) && PortWrong(c, s) {
      var s :| Reachable(c, s) && PortWrong(c, s);
      ReachableInv(c, s);
      UsedPairIff(c, s);
      assert c.cores[s.shared.winner.value.thread] in c.cores;
      assert c.ports[s.shared.winner.value.k] in c.ports;
    }
    if true in c.cores && exists p :: p in c.ports && p != c.httpPort {
      var i :| 0 <= i < |c.cores| && c.cores[i];
      var p :| p in c.ports && p != c.httpPort;
      var k :| 0 <= k < |c.ports| && c.ports[k] == p;
      var s := WrongPortUsed(c, i, k);
      assert PortWrong(c, s);
    }
  }
}
