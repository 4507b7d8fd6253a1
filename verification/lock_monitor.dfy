/** The lock statistics of `include/core/lock_monitor.h`: guards that count acquisitions
    under any interleaving of their relaxed atomic updates, and the compare-and-swap loop of
    `updateMaxRelaxed`, whose weak exchange may fail for no reason. */
module LockMonitor {

  /** A contended acquisition that waited `wait` nanoseconds, between its updates. */
  datatype Pc =
    | Waited(wait: nat) | Acquired(wait: nat) | Contended(wait: nat) | Totalled(wait: nat)
    | Loaded(wait: nat, prev: nat) | Done(wait: nat)

  datatype State = State(
    acquisitions: nat,
    contended: nat,
    waitTotal: nat,
    waitMax: nat,
    guards: seq<Pc>,
    fast: nat             // acquisitions whose try-lock succeeded
  )

  datatype Action =
    | TryLockSucceeds
    | WaitForLock(wait: nat)
    | Update(g: nat)                       // the three additions and the first load
    | TryExchange(g: nat, spurious: bool)  // one round of the loop

  function Init(initialMax: nat): State { State(0, 0, 0, initialMax, [], 0) }

  predicate Enabled(s: State, a: Action) {
    match a
    case TryLockSucceeds => true
    case WaitForLock(_) => true
    case Update(g) => g < |s.guards| && !s.guards[g].Loaded? && !s.guards[g].Done?
    case TryExchange(g, _) => g < |s.guards| && s.guards[g].Loaded?
  }

  function Next(s: State, a: Action): State
    requires Enabled(s, a)
  {
    match a
    case TryLockSucceeds => s.(acquisitions := s.acquisitions + 1, fast := s.fast + 1)
    case WaitForLock(wait) => s.(guards := s.guards + [Waited(wait)])
    case Update(g) =>
      (match s.guards[g]
       case Waited(w) => s.(acquisitions := s.acquisitions + 1, guards := s.guards[g := Acquired(w)])
       case Acquired(w) => s.(contended := s.contended + 1, guards := s.guards[g := Contended(w)])
       case Contended(w) => s.(waitTotal := s.waitTotal + w, guards := s.guards[g := Totalled(w)])
       case Totalled(w) => s.(guards := s.guards[g := Loaded(w, s.waitMax)])
       case _ => s)
    case TryExchange(g, spurious) =>
      var w, prev := s.guards[g].wait, s.guards[g].prev;
      if w <= prev then s.(guards := s.guards[g := Done(w)])
      else if s.waitMax == prev && !spurious then s.(waitMax := w, guards := s.guards[g := Done(w)])
      else s.(guards := s.guards[g := Loaded(w, s.waitMax)])
  }

  ghost predicate ValidRun(s: State, run: seq<Action>)
    decreases run
  {
    run == [] || (Enabled(s, run[0]) && ValidRun(Next(s, run[0]), run[1..]))
  }

  ghost function After(s: State, run: seq<Action>): State
    requires ValidRun(s, run)
    decreases run
  {
    if run == [] then s else After(Next(s, run[0]), run[1..])
  }

  // ----- what each guard has contributed -----

  function ToAcquisitions(pc: Pc): nat { if pc.Waited? then 0 else 1 }

  function ToContended(pc: Pc): nat { if pc.Waited? || pc.Acquired? then 0 else 1 }

  function ToTotal(pc: Pc): nat { if pc.Waited? || pc.Acquired? || pc.Contended? then 0 else pc.wait }

  function Sum(guards: seq<Pc>, f: Pc -> nat): nat {
    if guards == [] then 0 else f(guards[0]) + Sum(guards[1..], f)
  }

  lemma {:induction false} SumUpdate(guards: seq<Pc>, g: nat, pc: Pc, f: Pc -> nat)
    requires g < |guards|
    ensures Sum(guards[g := pc], f) + f(guards[g]) == Sum(guards, f) + f(pc)
    ensures Sum(guards, f) >= f(guards[g])
    decreases guards
  {
    var changed := guards[g := pc];
    if g == 0 {
      assert changed[1..] == guards[1..];
    } else {
      assert changed[1..] == guards[1..][g - 1 := pc];
      SumUpdate(guards[1..], g - 1, pc, f);
    }
  }

  lemma {:induction false} SumAppend(guards: seq<Pc>, pc: Pc, f: Pc -> nat)
    ensures Sum(guards + [pc], f) == Sum(guards, f) + f(pc)
    decreases guards
  {
    if guards == [] {
      assert (guards + [pc])[1..] == [];
    } else {
      assert (guards + [pc])[1..] == guards[1..] + [pc];
      SumAppend(guards[1..], pc, f);
    }
  }

  lemma {:induction false} ContendedIsLess(guards: seq<Pc>)
    ensures Sum(guards, ToContended) <= Sum(guards, ToAcquisitions)
    decreases guards
  {
    if guards != [] {
      ContendedIsLess(guards[1..]);
    }
  }

  ghost predicate Counts(s: State) {
    && s.acquisitions == s.fast + Sum(s.guards, ToAcquisitions)
    && s.contended == Sum(s.guards, ToContended)
    && s.waitTotal == Sum(s.guards, ToTotal)
  }

  predicate Past(pc: Pc) { pc.Totalled? || pc.Loaded? || pc.Done? }

  ghost predicate MaxInv(initialMax: nat, s: State) {
    && initialMax <= s.waitMax
    && (s.waitMax == initialMax || exists g :: 0 <= g < |s.guards| && Past(s.guards[g]) && s.guards[g].wait == s.waitMax)
    && (forall g :: 0 <= g < |s.guards| && s.guards[g].Done? ==> s.guards[g].wait <= s.waitMax)
    && (forall g :: 0 <= g < |s.guards| && s.guards[g].Loaded? ==> s.guards[g].prev <= s.waitMax)
  }

  lemma StepKeepsCounts(s: State, a: Action)
    requires Counts(s) && Enabled(s, a)
    ensures Counts(Next(s, a))
  {
    var t := Next(s, a);
    if a.WaitForLock? {
      SumAppend(s.guards, Waited(a.wait), ToAcquisitions);
      SumAppend(s.guards, Waited(a.wait), ToContended);
      SumAppend(s.guards, Waited(a.wait), ToTotal);
    } else if !a.TryLockSucceeds? {
      SumUpdate(s.guards, a.g, t.guards[a.g], ToAcquisitions);
      SumUpdate(s.guards, a.g, t.guards[a.g], ToContended);
      SumUpdate(s.guards, a.g, t.guards[a.g], ToTotal);
    }
  }

  lemma StepKeepsMax(initialMax: nat, s: State, a: Action)
    requires MaxInv(initialMax, s) && Enabled(s, a)
    ensures MaxInv(initialMax, Next(s, a)) && s.waitMax <= Next(s, a).waitMax
  {
    var t := Next(s, a);
    if t.waitMax == s.waitMax && s.waitMax != initialMax {
      var g :| 0 <= g < |s.guards| && Past(s.guards[g]) && s.guards[g].wait == s.waitMax;
      assert Past(t.guards[g]) && t.guards[g].wait == t.waitMax;
    } else if t.waitMax != s.waitMax {
      assert Past(t.guards[a.g]) && t.guards[a.g].wait == t.waitMax;
    }
  }

  lemma {:induction false} RunKeeps(initialMax: nat, s: State, run: seq<Action>)
    requires Counts(s) && MaxInv(initialMax, s) && ValidRun(s, run)
    ensures Counts(After(s, run)) && MaxInv(initialMax, After(s, run)) && s.waitMax <= After(s, run).waitMax
    decreases run
  {
    if run != [] {
      StepKeepsCounts(s, run[0]);
      StepKeepsMax(initialMax, s, run[0]);
      RunKeeps(initialMax, Next(s, run[0]), run[1..]);
    }
  }

  // ----- main results, for every interleaving -----

  /** In every state: contended <= acquisitions, and the total covers the maximum, because a
      wait is added to the total before it can become the maximum. */
  lemma StatsAreConsistent(run: seq<Action>)
    requires ValidRun(Init(0), run)
    ensures var s := After(Init(0), run); s.contended <= s.acquisitions && s.waitMax <= s.waitTotal
  {
    RunKeeps(0, Init(0), run);
    var s := After(Init(0), run);
    ContendedIsLess(s.guards);
    if s.waitMax > 0 {
      var g :| 0 <= g < |s.guards| && Past(s.guards[g]) && s.guards[g].wait == s.waitMax;
      SumUpdate(s.guards, g, s.guards[g], ToTotal);
    }
  }

  /** The register is its initial value or some candidate, never decreases, and is at least
      every candidate whose update has returned. */
  lemma MaxRegister(initialMax: nat, run: seq<Action>, more: seq<Action>)
    requires ValidRun(Init(initialMax), run) && ValidRun(After(Init(initialMax), run), more)
    ensures var s := After(Init(initialMax), run);
            && (s.waitMax == initialMax || exists g :: 0 <= g < |s.guards| && s.guards[g].wait == s.waitMax)
            && (forall g :: 0 <= g < |s.guards| && s.guards[g].Done? ==> s.guards[g].wait <= s.waitMax)
            && initialMax <= s.waitMax <= After(s, more).waitMax
  {
    RunKeeps(initialMax, Init(initialMax), run);
    RunKeeps(initialMax, After(Init(initialMax), run), more);
  }

  /** When all guards have finished, the counters are exact: the maximum is the greatest wait
      and the total is the sum of all waits. */
  lemma ExactWhenQuiet(run: seq<Action>)
    requires ValidRun(Init(0), run)
    requires var s := After(Init(0), run); forall g :: 0 <= g < |s.guards| ==> s.guards[g].Done?
    ensures var s := After(Init(0), run);
            && (forall g :: 0 <= g < |s.guards| ==> s.guards[g].wait <= s.waitMax)
            && (s.waitMax == 0 || exists g :: 0 <= g < |s.guards| && s.guards[g].wait == s.waitMax)
            && s.contended == |s.guards| && s.acquisitions == s.fast + |s.guards|
            && s.waitTotal == Sum(s.guards, (pc: Pc) => pc.wait)
  {
    RunKeeps(0, Init(0), run);
    AllDone(After(Init(0), run).guards);
  }

  lemma {:induction false} AllDone(guards: seq<Pc>)
    requires forall g :: 0 <= g < |guards| ==> guards[g].Done?
    ensures Sum(guards, ToContended) == Sum(guards, ToAcquisitions) == |guards|
    ensures Sum(guards, ToTotal) == Sum(guards, (pc: Pc) => pc.wait)
    decreases guards
  {
    if guards != [] {
      assert forall g :: 0 <= g < |guards[1..]| ==> guards[1..][g] == guards[g + 1];
      AllDone(guards[1..]);
    }
  }

  /** A spurious failure of the weak exchange costs one more round and nothing else. */
  lemma SpuriousFailureRetries(s: State, g: nat)
    requires Enabled(s, TryExchange(g, true)) && s.guards[g].wait > s.guards[g].prev
    ensures Next(s, TryExchange(g, true)) == s.(guards := s.guards[g := Loaded(s.guards[g].wait, s.waitMax)])
  {
  }

  // ----- snapshots, which load the fields one after the other -----

  lemma {:induction false} RunGrows(s: State, run: seq<Action>)
    requires ValidRun(s, run)
    ensures s.acquisitions <= After(s, run).acquisitions && s.waitTotal <= After(s, run).waitTotal
    decreases run
  {
    if run != [] {
      RunGrows(Next(s, run[0]), run[1..]);
    }
  }

  lemma {:induction false} Concat(s: State, first: seq<Action>, second: seq<Action>)
    requires ValidRun(s, first) && ValidRun(After(s, first), second)
    ensures ValidRun(s, first + second) && After(s, first + second) == After(After(s, first), second)
    decreases first
  {
    if first == [] {
      assert first + second == second;
    } else {
      assert (first + second)[1..] == first[1..] + second;
      Concat(Next(s, first[0]), first[1..], second);
    }
  }

  /** Some snapshot makes its first load in state a and its second in state b. */
  ghost predicate Snapshot(a: State, b: State) {
    exists run, more :: ValidRun(Init(0), run) && a == After(Init(0), run) && ValidRun(a, more) && b == After(a, more)
  }

  /** Every snapshot that loads the two acquisition counters in the given order shows no more
      contended acquisitions than acquisitions. */
  ghost predicate CountsAgree(contendedFirst: bool) {
    forall a, b :: Snapshot(a, b) ==>
      if contendedFirst then a.contended <= b.acquisitions else b.contended <= a.acquisitions
  }

  /** Likewise no longest wait above the total wait. */
  ghost predicate WaitsAgree(maxFirst: bool) {
    forall a, b :: Snapshot(a, b) ==> if maxFirst then a.waitMax <= b.waitTotal else b.waitMax <= a.waitTotal
  }

  lemma SnapshotGrows(a: State, b: State)
    requires Snapshot(a, b)
    ensures a.contended <= a.acquisitions <= b.acquisitions && a.waitMax <= a.waitTotal <= b.waitTotal
  {
    var run, more :| ValidRun(Init(0), run) && a == After(Init(0), run) && ValidRun(a, more) && b == After(a, more);
    StatsAreConsistent(run);
    RunGrows(a, more);
  }

  /** A contended acquisition that happens in whole between the two loads. */
  lemma WaitBetweenLoads(wait: nat) returns (b: State)
    ensures Snapshot(Init(0), b) && b.contended == 1 && b.waitTotal == wait && b.waitMax == wait
  {
    var s0 := Init(0);
    var s1 := Next(s0, WaitForLock(wait));
    var s2 := Next(s1, Update(0));
    var s3 := Next(s2, Update(0));
    var s4 := Next(s3, Update(0));
    var s5 := Next(s4, Update(0));
    assert s5.guards == [Loaded(wait, 0)] && s5.waitTotal == wait && s5.contended == 1 && s5.waitMax == 0;
    b := Next(s5, TryExchange(0, false));
    TwoSteps(s4, Update(0), TryExchange(0, false));
    TwoSteps(s2, Update(0), Update(0));
    TwoSteps(s0, WaitForLock(wait), Update(0));
    var early, late := [WaitForLock(wait), Update(0)], [Update(0), Update(0)];
    Concat(s0, early, late);
    Concat(s0, early + late, [Update(0), TryExchange(0, false)]);
    assert ValidRun(s0, []) && After(s0, []) == s0;
  }

  /** A snapshot loads the fields one after the other, acquisitions first, so it can report
      more contended acquisitions than acquisitions. */
  lemma SnapshotCanDisagree(wait: nat) returns (run: seq<Action>, more: seq<Action>)
    ensures ValidRun(Init(0), run) && ValidRun(After(Init(0), run), more)
    ensures After(After(Init(0), run), more).contended > After(Init(0), run).acquisitions
  {
    run := [];
    more := [WaitForLock(wait), Update(0), Update(0)];
    var s1 := Next(Init(0), more[0]);
    var s2 := Next(s1, Update(0));
    assert s1.guards == [Waited(wait)] && s2.guards == [Acquired(wait)];
    assert more[1..] == [Update(0), Update(0)] && more[1..][1..] == [Update(0)] && more[1..][1..][1..] == [];
    assert ValidRun(Next(s2, Update(0)), []);
    assert ValidRun(s2, [Update(0)]) && After(s2, [Update(0)]) == Next(s2, Update(0));
    assert ValidRun(s1, more[1..]);
  }

  lemma TwoSteps(s: State, a: Action, b: Action)
    requires Enabled(s, a) && Enabled(Next(s, a), b)
    ensures ValidRun(s, [a, b]) && After(s, [a, b]) == Next(Next(s, a), b)
  {
    var t := Next(Next(s, a), b);
    assert [a, b][1..] == [b] && [b][1..] == [] && ValidRun(t, []);
    assert ValidRun(Next(s, a), [b]) && After(Next(s, a), [b]) == t;
  }

  /** The acquisition counters of a snapshot agree if and only if it loads the contended ones
      first; the code loads them second. */
  lemma CountsAgreeIff(contendedFirst: bool)
    ensures CountsAgree(contendedFirst) <==> contendedFirst
  {
    if contendedFirst {
      forall a, b | Snapshot(a, b) ensures a.contended <= b.acquisitions { SnapshotGrows(a, b); }
    } else {
      var b := WaitBetweenLoads(0);
      assert b.contended > Init(0).acquisitions;
    }
  }

  /** The wait counters agree if and only if the longest wait is loaded before the total; the
      code loads it after. */
  lemma WaitsAgreeIff(maxFirst: bool)
    ensures WaitsAgree(maxFirst) <==> maxFirst
  {
    if maxFirst {
      forall a, b | Snapshot(a, b) ensures a.waitMax <= b.waitTotal { SnapshotGrows(a, b); }
    } else {
      var b := WaitBetweenLoads(1);
      assert b.waitMax > Init(0).waitTotal;
    }
  }
}
