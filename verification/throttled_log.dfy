/** `LOG_THROTTLED_IMPL_` of `include/utils/logger.h` at one call site: concurrent calls that
    read the clock, compare it with the last emission, and emit or count themselves as
    suppressed.  Every atomic access is one action; clock readings are arbitrary. */
module ThrottledLog {

  /** `at` and `seen` are bookkeeping: how many emissions there were at the call's load and at its
      comparison.  No action tests them. */
  datatype Pc =
    | Called | Timed(now: int) | Loaded(now: int, prev: int, at: nat) | Won | Losing(now: int, at: nat, seen: nat)
    | Emitted | Suppressed(now: int, at: nat, seen: nat)

  datatype State = State(
    last: int,               // _thr_last_ms_
    suppressed: nat,         // _thr_suppressed_
    calls: seq<Pc>,
    emissions: seq<int>,     // timestamps, in the order of the exchanges that won
    reported: seq<nat>       // the counts that emissions took
  )

  datatype Action = Call | ReadClock(c: nat, now: int) | Load(c: nat) | Compare(c: nat) | Add(c: nat) | TakeCount(c: nat)

  function Init(): State { State(0, 0, [], [], []) }

  predicate Enabled(s: State, a: Action) {
    match a
    case Call => true
    case ReadClock(c, _) => c < |s.calls| && s.calls[c].Called?
    case Load(c) => c < |s.calls| && s.calls[c].Timed?
    case Compare(c) => c < |s.calls| && s.calls[c].Loaded?
    case Add(c) => c < |s.calls| && s.calls[c].Losing?
    case TakeCount(c) => c < |s.calls| && s.calls[c].Won?
  }

  /** `Compare` is the interval test with, when it passes, the strong exchange. */
  function Next(interval: int, s: State, a: Action): State
    requires Enabled(s, a)
  {
    match a
    case Call => s.(calls := s.calls + [Called])
    case ReadClock(c, now) => s.(calls := s.calls[c := Timed(now)])
    case Load(c) => s.(calls := s.calls[c := Loaded(s.calls[c].now, s.last, |s.emissions|)])
    case Compare(c) =>
      var now, prev := s.calls[c].now, s.calls[c].prev;
      if now - prev >= interval && s.last == prev
      then s.(last := now, emissions := s.emissions + [now], calls := s.calls[c := Won])
      else s.(calls := s.calls[c := Losing(now, s.calls[c].at, |s.emissions|)])
    case Add(c) =>
      var pc := s.calls[c];
      s.(suppressed := s.suppressed + 1, calls := s.calls[c := Suppressed(pc.now, pc.at, pc.seen)])
    case TakeCount(c) =>
      s.(suppressed := 0, reported := s.reported + [s.suppressed], calls := s.calls[c := Emitted])
  }

  ghost predicate ValidRun(interval: int, s: State, run: seq<Action>)
    decreases run
  {
    run == [] || (Enabled(s, run[0]) && ValidRun(interval, Next(interval, s, run[0]), run[1..]))
  }

  ghost function After(interval: int, s: State, run: seq<Action>): State
    requires ValidRun(interval, s, run)
    decreases run
  {
    if run == [] then s else After(interval, Next(interval, s, run[0]), run[1..])
  }

  function Total(counts: seq<nat>): nat {
    if counts == [] then 0 else Total(counts[..|counts| - 1]) + counts[|counts| - 1]
  }

  /** How many calls stand at one of two points. */
  function Count(calls: seq<Pc>, p: Pc -> bool): nat {
    if calls == [] then 0 else (if p(calls[0]) then 1 else 0) + Count(calls[1..], p)
  }

  lemma {:induction false} CountUpdate(calls: seq<Pc>, c: nat, pc: Pc, p: Pc -> bool)
    requires c < |calls|
    ensures Count(calls[c := pc], p) + (if p(calls[c]) then 1 else 0) == Count(calls, p) + if p(pc) then 1 else 0
    decreases calls
  {
    var changed := calls[c := pc];
    if c == 0 {
      assert changed[1..] == calls[1..];
    } else {
      assert changed[1..] == calls[1..][c - 1 := pc];
      CountUpdate(calls[1..], c - 1, pc, p);
    }
  }

  lemma {:induction false} CountAppend(calls: seq<Pc>, pc: Pc, p: Pc -> bool)
    ensures Count(calls + [pc], p) == Count(calls, p) + if p(pc) then 1 else 0
    decreases calls
  {
    if calls == [] {
      assert (calls + [pc])[1..] == [];
    } else {
      assert (calls + [pc])[1..] == calls[1..] + [pc];
      CountAppend(calls[1..], pc, p);
    }
  }

  predicate AllFinished(calls: seq<Pc>) {
    forall c :: 0 <= c < |calls| ==> calls[c].Emitted? || calls[c].Suppressed?
  }

  predicate Winner(pc: Pc) { pc.Won? || pc.Emitted? }

  predicate Loser(pc: Pc) { pc.Suppressed? }

  /** The timestamp before emission k; the clock's zero before the first. */
  function Before(emissions: seq<int>, k: nat): int
    requires k < |emissions|
  {
    if k == 0 then 0 else emissions[k - 1]
  }

  /** Emission k comes an interval or more after the one before it. */
  predicate Apart(interval: int, emissions: seq<int>, k: nat)
    requires k < |emissions|
  {
    emissions[k] - Before(emissions, k) >= interval
  }

  /** Emissions are spaced, and `last` is the latest. */
  ghost predicate Spacing(interval: int, s: State) {
    && s.last == (if s.emissions == [] then 0 else s.emissions[|s.emissions| - 1])
    && (forall k :: 0 <= k < |s.emissions| ==>
          Apart(interval, s.emissions, k))
  }

  ghost predicate Counted(s: State) {
    && Count(s.calls, Winner) == |s.emissions|
    && Count(s.calls, Loser) == Total(s.reported) + s.suppressed
  }

  /** The timestamp of the latest of the first n emissions; the clock's zero before the first. */
  function Latest(emissions: seq<int>, n: nat): int
    requires n <= |emissions|
  {
    if n == 0 then 0 else emissions[n - 1]
  }

  /** A call that loses came too early, or another one emitted between its load and its
      comparison. */
  ghost predicate Justified(interval: int, emissions: seq<int>, pc: Pc) {
    match pc
    case Loaded(_, prev, at) => at <= |emissions| && prev == Latest(emissions, at)
    case Losing(now, at, seen) => at <= seen <= |emissions| && (at < seen || now < Latest(emissions, at) + interval)
    case Suppressed(now, at, seen) => at <= seen <= |emissions| && (at < seen || now < Latest(emissions, at) + interval)
    case _ => true
  }

  ghost predicate AllJustified(interval: int, s: State) {
    forall c :: 0 <= c < |s.calls| ==> Justified(interval, s.emissions, s.calls[c])
  }

  ghost predicate Inv(interval: int, s: State) { Spacing(interval, s) && Counted(s) && AllJustified(interval, s) }

  lemma JustifiedStays(interval: int, emissions: seq<int>, more: seq<int>, pc: Pc)
    requires Justified(interval, emissions, pc)
    ensures Justified(interval, emissions + more, pc)
  {
  }

  lemma StepKeepsJustified(interval: int, s: State, a: Action)
    requires Spacing(interval, s) && AllJustified(interval, s) && Enabled(s, a)
    ensures AllJustified(interval, Next(interval, s, a))
  {
    var t := Next(interval, s, a);
    assert s.last == Latest(s.emissions, |s.emissions|);
    forall c | 0 <= c < |t.calls| ensures Justified(interval, t.emissions, t.calls[c]) {
      if c < |s.calls| {
        assert Justified(interval, s.emissions, s.calls[c]);
        JustifiedStays(interval, s.emissions, t.emissions[|s.emissions|..], s.calls[c]);
        assert t.emissions == s.emissions + t.emissions[|s.emissions|..];
      }
    }
  }

  lemma StepKeepsSpacing(interval: int, s: State, a: Action)
    requires Spacing(interval, s) && Enabled(s, a)
    ensures Spacing(interval, Next(interval, s, a))
  {
    var t := Next(interval, s, a);
    assert t.emissions == s.emissions || t.emissions == s.emissions + [t.last];
    forall k | 0 <= k < |t.emissions| ensures Apart(interval, t.emissions, k) {
      if k < |s.emissions| { assert Apart(interval, s.emissions, k); }
    }
  }

  lemma StepKeepsCounted(interval: int, s: State, a: Action)
    requires Counted(s) && Enabled(s, a)
    ensures Counted(Next(interval, s, a))
  {
    var t := Next(interval, s, a);
    if a.Call? {
      CountAppend(s.calls, Called, Winner);
      CountAppend(s.calls, Called, Loser);
    } else {
      assert t.calls == s.calls[a.c := t.calls[a.c]];
      CountUpdate(s.calls, a.c, t.calls[a.c], Winner);
      CountUpdate(s.calls, a.c, t.calls[a.c], Loser);
      if a.TakeCount? {
        assert t.reported[..|t.reported| - 1] == s.reported;
      }
    }
  }

  lemma StepKeepsInv(interval: int, s: State, a: Action)
    requires Inv(interval, s) && Enabled(s, a)
    ensures Inv(interval, Next(interval, s, a))
  {
    StepKeepsSpacing(interval, s, a);
    StepKeepsCounted(interval, s, a);
    StepKeepsJustified(interval, s, a);
  }

  lemma FirstInv(interval: int, s: State)
    requires s.last == 0 && s.suppressed == 0 && s.calls == [] && s.emissions == [] && s.reported == []
    ensures Inv(interval, s)
  {
  }

  lemma {:induction false} RunKeepsInv(interval: int, s: State, run: seq<Action>)
    requires Inv(interval, s) && ValidRun(interval, s, run)
    ensures Inv(interval, After(interval, s, run))
    decreases run
  {
    if run != [] {
      StepKeepsInv(interval, s, run[0]);
      RunKeepsInv(interval, Next(interval, s, run[0]), run[1..]);
    }
  }

  ghost predicate Reachable(interval: int, s: State) {
    exists run :: ValidRun(interval, Init(), run) && s == After(interval, Init(), run)
  }

  lemma ReachableInv(interval: int, s: State)
    requires Reachable(interval, s)
    ensures Inv(interval, s)
  {
    var run :| ValidRun(interval, Init(), run) && s == After(interval, Init(), run);
    var first := Init();
    FirstInv(interval, first);
    RunKeepsInv(interval, first, run);
  }

  // ----- main results, for every interleaving -----

  /** Emissions are spaced: j - i emissions later, the timestamp is at least j - i intervals
      later, whatever the clock readings and the interleaving. */
  lemma EmissionsAreSpaced(interval: int, s: State, i: nat, j: nat)
    requires Reachable(interval, s) && i <= j < |s.emissions|
    ensures s.emissions[j] - s.emissions[i] >= (j - i) * interval
  {
    ReachableInv(interval, s);
    Spaced(interval, s.emissions, i, j);
  }

  lemma {:induction false} Spaced(interval: int, e: seq<int>, i: nat, j: nat)
    requires i <= j < |e| && forall k :: 0 < k < |e| ==> Apart(interval, e, k)
    ensures e[j] - e[i] >= (j - i) * interval
    decreases j
  {
    if i < j {
      Spaced(interval, e, i, j - 1);
      assert Apart(interval, e, j);
      assert (j - i) * interval == (j - 1 - i) * interval + interval;
    }
  }

  /** No suppressed call is forgotten: those counted so far are the ones reported by emissions
      plus the present counter. */
  lemma SuppressedAreReported(interval: int, s: State)
    requires Reachable(interval, s)
    ensures Count(s.calls, Loser) == Total(s.reported) + s.suppressed
    ensures Count(s.calls, Winner) == |s.emissions|
  {
    ReachableInv(interval, s);
  }

  /** Nothing is suppressed without reason: a suppressed call read the clock within an interval
      of the emission it saw, or some other call emitted while it was deciding. */
  lemma SuppressionsAreJustified(interval: int, s: State, c: nat)
    requires Reachable(interval, s) && c < |s.calls| && s.calls[c].Suppressed?
    ensures var pc := s.calls[c];
            && pc.at <= pc.seen <= |s.emissions|
            && (pc.at < pc.seen || pc.now - (if pc.at == 0 then 0 else s.emissions[pc.at - 1]) < interval)
  {
    ReachableInv(interval, s);
    assert Justified(interval, s.emissions, s.calls[c]);
  }

  /** A call that finds the interval passed, and that no other overtakes, emits. */
  lemma UndisturbedCallEmits(interval: int, s: State, c: nat, now: int)
    requires Reachable(interval, s) && c < |s.calls| && s.calls[c].Called?
    requires now - (if s.emissions == [] then 0 else s.emissions[|s.emissions| - 1]) >= interval
    ensures var run := [ReadClock(c, now), Load(c), Compare(c), TakeCount(c)];
            && ValidRun(interval, s, run)
            && var t := After(interval, s, run);
               && t.emissions == s.emissions + [now] && t.reported == s.reported + [s.suppressed] && t.suppressed == 0
               && t.calls == s.calls[c := Emitted]
  {
    ReachableInv(interval, s);
    var timed := Next(interval, s, ReadClock(c, now));
    var loaded := Next(interval, timed, Load(c));
    var won := Next(interval, loaded, Compare(c));
    var t := Next(interval, won, TakeCount(c));
    assert loaded.calls[c] == Loaded(now, s.last, |s.emissions|) && won.calls[c] == Won;
    assert t.calls == s.calls[c := Emitted];
    FourSteps(interval, s, ReadClock(c, now), Load(c), Compare(c), TakeCount(c));
  }

  lemma FourSteps(interval: int, s: State, a1: Action, a2: Action, a3: Action, a4: Action)
    requires Enabled(s, a1) && Enabled(Next(interval, s, a1), a2)
    requires Enabled(Next(interval, Next(interval, s, a1), a2), a3)
    requires Enabled(Next(interval, Next(interval, Next(interval, s, a1), a2), a3), a4)
    ensures ValidRun(interval, s, [a1, a2, a3, a4])
    ensures After(interval, s, [a1, a2, a3, a4]) == Next(interval, Next(interval, Next(interval, Next(interval, s, a1), a2), a3), a4)
  {
    var s1 := Next(interval, s, a1);
    var s2 := Next(interval, s1, a2);
    var s3 := Next(interval, s2, a3);
    var s4 := Next(interval, s3, a4);
    assert ValidRun(interval, s4, []) && After(interval, s4, []) == s4;
    assert [a4][1..] == [] && ValidRun(interval, s3, [a4]) && After(interval, s3, [a4]) == s4;
    assert [a3, a4][1..] == [a4] && ValidRun(interval, s2, [a3, a4]) && After(interval, s2, [a3, a4]) == s4;
    assert [a2, a3, a4][1..] == [a3, a4] && ValidRun(interval, s1, [a2, a3, a4]) && After(interval, s1, [a2, a3, a4]) == s4;
    assert [a1, a2, a3, a4][1..] == [a2, a3, a4];
  }

  /** When every call has finished, each was emitted or is accounted for in the counts. */
  lemma EveryCallAccountedFor(interval: int, s: State)
    requires Reachable(interval, s) && AllFinished(s.calls)
    ensures |s.calls| == |s.emissions| + Total(s.reported) + s.suppressed
  {
    ReachableInv(interval, s);
    Partition(s.calls);
  }

  lemma {:induction false} Partition(calls: seq<Pc>)
    requires AllFinished(calls)
    ensures Count(calls, Winner) + Count(calls, Loser) == |calls|
    decreases calls
  {
    if calls != [] {
      assert forall c :: 0 <= c < |calls[1..]| ==> calls[1..][c] == calls[c + 1];
      Partition(calls[1..]);
    }
  }
}
