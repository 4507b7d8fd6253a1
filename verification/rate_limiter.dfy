/** The login rate limiter of `include/utils/rate_limiter.h`.

    `RateLimiter` keeps, per key, a pruned deque of failure times and the end of a lockout,
    and forgets idle keys now and then.  The reference is the plain log of a key: its
    failures and successes, never pruned and never forgotten.  Times are clock ticks. */
module RateLimiter {
  import opened Common

  const SECOND: int := 1_000_000_000
  const EVICTION_PERIOD: int := 600 * SECOND
  const EVICTION_SIZE: nat := 1000
  const DAY: int := 24 * 3600 * SECOND

  datatype Limits = Limits(maxFailures: int, window: int, lockout: int)

  const IP_LIMITS := Limits(5, 60 * SECOND, 300 * SECOND)
  const USER_LIMITS := Limits(10, 300 * SECOND, 900 * SECOND)

  /** A default-constructed entry has no attempts and the clock's epoch as lockout end. */
  datatype Entry = Entry(attempts: seq<int>, lockedUntil: int)

  const NO_ENTRY := Entry([], 0)

  datatype State = State(entries: map<string, Entry>, lastEviction: int)

  // ----- the limiter on values -----

  function Prune(attempts: seq<int>, cutoff: int): seq<int> {
    if attempts != [] && attempts[0] < cutoff then Prune(attempts[1..], cutoff) else attempts
  }

  function EntryOf(s: State, key: string): Entry {
    if key in s.entries then s.entries[key] else NO_ENTRY
  }

  predicate Idle(e: Entry, now: int) {
    e.lockedUntil < now && (e.attempts == [] || e.attempts[|e.attempts| - 1] < now - DAY)
  }

  predicate EvictionDue(s: State, now: int) {
    !(now - s.lastEviction < EVICTION_PERIOD && |s.entries| < EVICTION_SIZE)
  }

  function Evict(s: State, now: int): State {
    if EvictionDue(s, now)
    then State(map key | key in s.entries && !Idle(s.entries[key], now) :: s.entries[key], now)
    else s
  }

  function CheckEntry(e: Entry, limits: Limits, now: int): (Entry, bool) {
    if e.lockedUntil > now then (e, false)
    else
      var kept := Prune(e.attempts, now - limits.window);
      (e.(attempts := kept), |kept| < limits.maxFailures)
  }

  function FailEntry(e: Entry, limits: Limits, now: int): Entry {
    var kept := Prune(e.attempts + [now], now - limits.window);
    if |kept| >= limits.maxFailures then Entry([], now + limits.lockout) else e.(attempts := kept)
  }

  /** One call from outside, with the clock readings it takes. */
  datatype Call = Check(key: string, evictAt: int, at: int) | Fail(key: string, at: int) | Succeed(key: string)

  /** `evicting` switches the background eviction, to compare runs with and without it. */
  function Step(s: State, call: Call, limitsFor: string -> Limits, evicting: bool): State {
    match call
    case Check(key, evictAt, at) =>
      var swept := if evicting then Evict(s, evictAt) else s;
      swept.(entries := swept.entries[key := CheckEntry(EntryOf(swept, key), limitsFor(key), at).0])
    case Fail(key, at) =>
      s.(entries := s.entries[key := FailEntry(EntryOf(s, key), limitsFor(key), at)])
    case Succeed(key) => s.(entries := s.entries - {key})
  }

  /** What `isAllowed` answers; the other calls answer nothing. */
  function Answer(s: State, call: Call, limitsFor: string -> Limits, evicting: bool): Option<bool> {
    match call
    case Check(key, evictAt, at) =>
      var swept := if evicting then Evict(s, evictAt) else s;
      Some(CheckEntry(EntryOf(swept, key), limitsFor(key), at).1)
    case _ => None
  }

  // ----- the object -----

  class Limiter {
    var entries: map<string, Entry>
    var lastEviction: int

    function Abs(): State reads this { State(entries, lastEviction) }

    constructor ()
      ensures Abs() == State(map[], 0)
    {
      entries, lastEviction := map[], 0;
    }

    method PruneAttempts(attempts: seq<int>, cutoff: int) returns (kept: seq<int>)
      ensures kept == Prune(attempts, cutoff)
    {
      kept := attempts;
      while kept != [] && kept[0] < cutoff
        invariant Prune(kept, cutoff) == Prune(attempts, cutoff)
        decreases |kept|
      {
        kept := kept[1..];
      }
    }

    method EvictStale(now: int)
      modifies this
      ensures Abs() == Evict(old(Abs()), now)
    {
      if !EvictionDue(Abs(), now) { return; }
      var todo := entries.Keys;
      while todo != {}
        invariant todo <= entries.Keys <= old(entries).Keys
        invariant forall key :: key in entries ==> entries[key] == old(entries)[key]
        invariant forall key :: key in old(entries) && key !in todo ==>
            (key in entries <==> !Idle(old(entries)[key], now))
        decreases todo
      {
        var key :| key in todo;
        if Idle(entries[key], now) { entries := entries - {key}; }
        todo := todo - {key};
      }
      lastEviction := now;
    }

    method IsAllowed(key: string, limits: Limits, evictAt: int, now: int) returns (allowed: bool)
      modifies this
      ensures Abs() == Step(old(Abs()), Check(key, evictAt, now), _ => limits, true)
      ensures Some(allowed) == Answer(old(Abs()), Check(key, evictAt, now), _ => limits, true)
    {
      EvictStale(evictAt);
      var entry := EntryOf(Abs(), key);
      entries := entries[key := entry];
      if entry.lockedUntil > now { return false; }
      var kept := PruneAttempts(entry.attempts, now - limits.window);
      entries := entries[key := entry.(attempts := kept)];
      allowed := |kept| < limits.maxFailures;
    }

    method RecordFailure(key: string, limits: Limits, now: int)
      modifies this
      ensures Abs() == Step(old(Abs()), Fail(key, now), _ => limits, true)
    {
      var entry := EntryOf(Abs(), key);
      var kept := PruneAttempts(entry.attempts + [now], now - limits.window);
      if |kept| >= limits.maxFailures {
        entries := entries[key := Entry([], now + limits.lockout)];
      } else {
        entries := entries[key := entry.(attempts := kept)];
      }
    }

    method RecordSuccess(key: string)
      modifies this
      ensures Abs() == Step(old(Abs()), Succeed(key), LimitsFor, true)
    {
      entries := entries - {key};
    }

    /** `checkLogin`: the address is checked first, and a refused address hides the account. */
    method CheckLogin(ip: string, username: string, t0: int, t1: int, t2: int, t3: int) returns (verdict: Verdict)
      modifies this
      ensures var ipCheck := Check("ip:" + ip, t0, t1);
              var userCheck := Check("user:" + username, t2, t3);
              var s1 := Step(old(Abs()), ipCheck, LimitsFor, true);
              if Answer(old(Abs()), ipCheck, LimitsFor, true) == Some(false)
              then verdict == IpThrottled && Abs() == s1
              else && Abs() == Step(s1, userCheck, LimitsFor, true)
                   && verdict == if Answer(s1, userCheck, LimitsFor, true) == Some(false)
                                 then UserThrottled else Welcome
    {
      LoginLimits(ip, username);
      var ok := IsAllowed("ip:" + ip, IP_LIMITS, t0, t1);
      if !ok { return IpThrottled; }
      ok := IsAllowed("user:" + username, USER_LIMITS, t2, t3);
      verdict := if ok then Welcome else UserThrottled;
    }

    method RecordLoginFailure(ip: string, username: string, t0: int, t1: int)
      modifies this
      ensures Abs() == Step(Step(old(Abs()), Fail("ip:" + ip, t0), LimitsFor, true),
                            Fail("user:" + username, t1), LimitsFor, true)
    {
      LoginLimits(ip, username);
      RecordFailure("ip:" + ip, IP_LIMITS, t0);
      RecordFailure("user:" + username, USER_LIMITS, t1);
    }

    method RecordLoginSuccess(ip: string, username: string)
      modifies this
      ensures Abs() == Step(Step(old(Abs()), Succeed("ip:" + ip), LimitsFor, true),
                            Succeed("user:" + username), LimitsFor, true)
    {
      RecordSuccess("ip:" + ip);
      RecordSuccess("user:" + username);
    }
  }

  datatype Verdict = Welcome | IpThrottled | UserThrottled

  /** The login endpoint always uses the same limits for the same key. */
  function LimitsFor(key: string): Limits {
    if "ip:" <= key then IP_LIMITS else USER_LIMITS
  }

  lemma LoginLimits(ip: string, username: string)
    ensures LimitsFor("ip:" + ip) == IP_LIMITS && LimitsFor("user:" + username) == USER_LIMITS
    ensures "ip:" + ip != "user:" + username
  {
    assert ("ip:" + ip)[0] == 'i' && ("user:" + username)[0] == 'u';
    assert "ip:" <= "ip:" + ip;
  }

  // ----- the plain log of one key -----

  datatype Event = Failure(at: int) | Success

  function Since(times: seq<int>, cutoff: int): seq<int> {
    if times == [] then []
    else (if times[0] >= cutoff then [times[0]] else []) + Since(times[1..], cutoff)
  }

  /** The newest event trips the limit: with it, the failures of the last window since the
      previous reset reach the maximum. */
  predicate Trips(log: seq<Event>, limits: Limits)
    requires log != []
    decreases log, 1
  {
    Last(log).Failure? &&
    |Since(Active(DropLast(log), limits) + [Last(log).at], Last(log).at - limits.window)| >= limits.maxFailures
  }

  /** All failures since the last success or lockout. */
  function Active(log: seq<Event>, limits: Limits): seq<int>
    decreases log
  {
    if log == [] || Last(log).Success? || Trips(log, limits) then []
    else Active(DropLast(log), limits) + [Last(log).at]
  }

  /** The end of the latest lockout that no success has lifted. */
  function LockEnd(log: seq<Event>, limits: Limits): Option<int>
    decreases log
  {
    if log == [] || Last(log).Success? then None
    else if Trips(log, limits) then Some(Last(log).at + limits.lockout)
    else LockEnd(DropLast(log), limits)
  }

  predicate Locked(log: seq<Event>, limits: Limits, now: int) {
    LockEnd(log, limits).Some? && LockEnd(log, limits).value > now
  }

  // ----- an entry represents a log -----

  predicate Sorted(times: seq<int>) {
    forall i, j :: 0 <= i < j < |times| ==> times[i] <= times[j]
  }

  /** The deque is what remains of the active failures after pruning some that no later
      window can reach; a lockout is known until it is over. */
  ghost predicate Represents(e: Entry, log: seq<Event>, limits: Limits, now: int) {
    && |e.attempts| < limits.maxFailures
    && TimesMatch(e.attempts, Active(log, limits), limits.window, now)
    && LockMatches(e.lockedUntil, LockEnd(log, limits), now)
  }

  ghost predicate TimesMatch(attempts: seq<int>, active: seq<int>, window: int, now: int) {
    && |attempts| <= |active| && attempts == active[|active| - |attempts|..]
    && (forall i :: 0 <= i < |active| - |attempts| ==> active[i] < now - window)
    && Sorted(active) && (forall i :: 0 <= i < |active| ==> active[i] <= now)
  }

  predicate LockMatches(lockedUntil: int, end: Option<int>, now: int) {
    if end.Some? && end.value > now then lockedUntil == end.value else lockedUntil <= now
  }

  lemma {:induction false} SinceSuffix(times: seq<int>, k: nat, cutoff: int)
    requires k <= |times| && forall i :: 0 <= i < k ==> times[i] < cutoff
    ensures Since(times, cutoff) == Since(times[k..], cutoff)
    decreases times
  {
    if k > 0 {
      SinceSuffix(times[1..], k - 1, cutoff);
      assert times[1..][k - 1..] == times[k..];
    } else {
      assert times[0..] == times;
    }
  }

  lemma {:induction false} SinceAll(times: seq<int>, cutoff: int)
    requires forall i :: 0 <= i < |times| ==> times[i] >= cutoff
    ensures Since(times, cutoff) == times
    decreases times
  {
    if times != [] {
      SinceAll(times[1..], cutoff);
    }
  }

  /** On sorted times, dropping old ones from the front drops all old ones. */
  lemma {:induction false} PruneIsSince(times: seq<int>, cutoff: int)
    requires Sorted(times)
    ensures Prune(times, cutoff) == Since(times, cutoff)
    ensures |Prune(times, cutoff)| <= |times|
    ensures Prune(times, cutoff) == times[|times| - |Prune(times, cutoff)|..]
    ensures forall i :: 0 <= i < |times| - |Prune(times, cutoff)| ==> times[i] < cutoff
    decreases times
  {
    if times != [] && times[0] < cutoff {
      PruneIsSince(times[1..], cutoff);
      var n := |times| - |Prune(times, cutoff)|;
      assert times[1..][n - 1..] == times[n..];
      assert forall i :: 0 < i < n ==> times[i] == times[1..][i - 1];
    } else {
      SinceAll(times, cutoff);
    }
  }

  lemma TimePasses(e: Entry, log: seq<Event>, limits: Limits, now: int, later: int)
    requires Represents(e, log, limits, now) && now <= later
    ensures Represents(e, log, limits, later)
  {
  }

  lemma Kept(active: seq<int>, attempts: seq<int>, cutoff: int) returns (kept: seq<int>)
    requires Sorted(active) && |attempts| <= |active| && attempts == active[|active| - |attempts|..]
    requires forall i :: 0 <= i < |active| - |attempts| ==> active[i] < cutoff
    ensures kept == Prune(attempts, cutoff) && kept == Since(active, cutoff)
    ensures |kept| <= |active| && |kept| <= |attempts| && kept == active[|active| - |kept|..]
    ensures forall i :: 0 <= i < |active| - |kept| ==> active[i] < cutoff
  {
    var d := |active| - |attempts|;
    forall i, j | 0 <= i < j < |attempts| ensures attempts[i] <= attempts[j] {
      assert attempts[i] == active[i + d] && attempts[j] == active[j + d];
    }
    PruneIsSince(attempts, cutoff);
    SinceSuffix(active, d, cutoff);
    kept := Prune(attempts, cutoff);
    var m := |attempts| - |kept|;
    assert active[d..][m..] == active[d + m..];
    forall i | 0 <= i < d + m ensures active[i] < cutoff {
      if i >= d { assert active[i] == attempts[i - d]; }
    }
  }

  /** A check answers no exactly during a lockout, and changes nothing the log can tell. */
  lemma CheckKeeps(e: Entry, log: seq<Event>, limits: Limits, now: int)
    requires Represents(e, log, limits, now)
    ensures Represents(CheckEntry(e, limits, now).0, log, limits, now)
    ensures CheckEntry(e, limits, now).1 == !Locked(log, limits, now)
  {
    var kept := Kept(Active(log, limits), e.attempts, now - limits.window);
  }

  /** What one more failure does to a log. */
  lemma FailureLogged(log: seq<Event>, limits: Limits, now: int)
    ensures var more := log + [Failure(now)];
            var tripped := |Since(Active(log, limits) + [now], now - limits.window)| >= limits.maxFailures;
            && Active(more, limits) == (if tripped then [] else Active(log, limits) + [now])
            && LockEnd(more, limits) == if tripped then Some(now + limits.lockout) else LockEnd(log, limits)
  {
    var more := log + [Failure(now)];
    assert DropLast(more) == log && Last(more) == Failure(now);
  }

  lemma FailKeeps(e: Entry, log: seq<Event>, limits: Limits, now: int)
    requires Represents(e, log, limits, now) && limits.maxFailures >= 1
    ensures Represents(FailEntry(e, limits, now), log + [Failure(now)], limits, now)
  {
    FailureLogged(log, limits, now);
    FailedTimes(e.attempts, Active(log, limits), limits.window, now);
  }

  lemma FailedTimes(attempts: seq<int>, active: seq<int>, window: int, now: int)
    requires TimesMatch(attempts, active, window, now)
    ensures var kept := Prune(attempts + [now], now - window);
            kept == Since(active + [now], now - window) && TimesMatch(kept, active + [now], window, now)
  {
    SortedAppend(active, now);
    SuffixAppend(active, |active| - |attempts|, now);
    assert |active + [now]| - |attempts + [now]| == |active| - |attempts|;
    OldStays(active, now, |active| - |attempts|, now - window);
    var kept := Kept(active + [now], attempts + [now], now - window);
  }

  lemma SortedAppend(times: seq<int>, now: int)
    requires Sorted(times) && forall i :: 0 <= i < |times| ==> times[i] <= now
    ensures Sorted(times + [now]) && forall i :: 0 <= i < |times + [now]| ==> (times + [now])[i] <= now
  {
  }

  lemma OldStays(times: seq<int>, now: int, d: nat, cutoff: int)
    requires d <= |times| && forall i :: 0 <= i < d ==> times[i] < cutoff
    ensures forall i :: 0 <= i < d ==> (times + [now])[i] < cutoff
  {
  }

  lemma SuffixAppend<T>(s: seq<T>, d: nat, x: T)
    requires d <= |s|
    ensures (s + [x])[d..] == s[d..] + [x]
  {
  }

  lemma SucceedKeeps(log: seq<Event>, limits: Limits, now: int)
    requires limits.maxFailures >= 1 && now >= 0
    ensures Represents(NO_ENTRY, log + [Success], limits, now)
  {
  }

  /** When forgetting an idle entry cannot be noticed. */
  predicate Forgettable(limits: Limits) {
    limits.window <= DAY || limits.maxFailures <= 1
  }

  lemma IdleIsForgotten(e: Entry, log: seq<Event>, limits: Limits, now: int)
    requires Represents(e, log, limits, now) && Idle(e, now) && now >= 0
    requires limits.maxFailures >= 1 && Forgettable(limits)
    ensures Represents(NO_ENTRY, log, limits, now)
  {
    var active := Active(log, limits);
    if e.attempts != [] {
      assert Last(e.attempts) == active[|active| - 1];
      assert forall i :: 0 <= i < |active| ==> active[i] <= active[|active| - 1];
    }
  }

  // ----- whole runs -----

  const FRESH := State(map[], 0)

  function LogOf(calls: seq<Call>, key: string): seq<Event>
    decreases calls
  {
    if calls == [] then []
    else
      LogOf(DropLast(calls), key) + Logged(Last(calls), key)
  }

  function Logged(call: Call, key: string): seq<Event> {
    if call.key != key then []
    else match call case Check(_, _, _) => [] case Fail(_, at) => [Failure(at)] case Succeed(_) => [Success]
  }

  function Clock(now: int, call: Call): int {
    if call.Succeed? then now else call.at
  }

  /** The clock never runs backwards. */
  predicate Monotone(now: int, calls: seq<Call>)
    decreases calls
  {
    calls == [] ||
    (now <= Clock(now, calls[0]) && (calls[0].Check? ==> now <= calls[0].evictAt <= calls[0].at) &&
     Monotone(Clock(now, calls[0]), calls[1..]))
  }

  function Run(s: State, calls: seq<Call>, limitsFor: string -> Limits, evicting: bool): State
    decreases calls
  {
    if calls == [] then s else Run(Step(s, calls[0], limitsFor, evicting), calls[1..], limitsFor, evicting)
  }

  function Answers(s: State, calls: seq<Call>, limitsFor: string -> Limits, evicting: bool): (r: seq<Option<bool>>)
    ensures |r| == |calls|
    decreases calls
  {
    if calls == [] then []
    else [Answer(s, calls[0], limitsFor, evicting)] +
         Answers(Step(s, calls[0], limitsFor, evicting), calls[1..], limitsFor, evicting)
  }

  /** The reference: a check is refused exactly when the log of its key says "locked". */
  function PlainAnswers(before: seq<Call>, calls: seq<Call>, limitsFor: string -> Limits): (r: seq<Option<bool>>)
    ensures |r| == |calls|
    decreases calls
  {
    if calls == [] then []
    else [match calls[0]
          case Check(key, _, at) => Some(!Locked(LogOf(before, key), limitsFor(key), at))
          case _ => None] + PlainAnswers(before + [calls[0]], calls[1..], limitsFor)
  }

  ghost predicate AllRepresented(s: State, before: seq<Call>, limitsFor: string -> Limits, now: int) {
    forall key :: Represents(EntryOf(s, key), LogOf(before, key), limitsFor(key), now)
  }

  ghost predicate Usable(limitsFor: string -> Limits, evicting: bool) {
    forall key :: limitsFor(key).maxFailures >= 1 && (evicting ==> Forgettable(limitsFor(key)))
  }

  lemma EvictKeeps(s: State, before: seq<Call>, limitsFor: string -> Limits, now: int, evictAt: int)
    requires AllRepresented(s, before, limitsFor, now) && 0 <= now <= evictAt && Usable(limitsFor, true)
    ensures AllRepresented(Evict(s, evictAt), before, limitsFor, evictAt)
  {
    forall key ensures Represents(EntryOf(Evict(s, evictAt), key), LogOf(before, key), limitsFor(key), evictAt) {
      TimePasses(EntryOf(s, key), LogOf(before, key), limitsFor(key), now, evictAt);
      if EvictionDue(s, evictAt) && key in s.entries && Idle(s.entries[key], evictAt) {
        IdleIsForgotten(s.entries[key], LogOf(before, key), limitsFor(key), evictAt);
      }
    }
  }

  lemma LogGrows(before: seq<Call>, call: Call, key: string)
    ensures LogOf(before + [call], key) == LogOf(before, key) + Logged(call, key)
  {
    assert DropLast(before + [call]) == before;
  }

  /** What a call does to the entry of one key. */
  function EntryAfter(e: Entry, call: Call, key: string, limits: Limits): Entry {
    if call.key != key then e
    else match call
      case Check(_, _, at) => CheckEntry(e, limits, at).0
      case Fail(_, at) => FailEntry(e, limits, at)
      case Succeed(_) => NO_ENTRY
  }

  lemma StepPerKey(s: State, call: Call, limitsFor: string -> Limits, key: string)
    ensures EntryOf(Step(s, call, limitsFor, false), key) == EntryAfter(EntryOf(s, key), call, key, limitsFor(key))
  {
  }

  lemma EntryKeeps(e: Entry, log: seq<Event>, call: Call, key: string, limits: Limits, now: int)
    requires Represents(e, log, limits, now) && limits.maxFailures >= 1 && 0 <= now <= Clock(now, call)
    ensures Represents(EntryAfter(e, call, key, limits), log + Logged(call, key), limits, Clock(now, call))
  {
    TimePasses(e, log, limits, now, Clock(now, call));
    if call.key != key {
      assert log + [] == log;
    } else {
      match call
      case Check(_, _, at) =>
        CheckKeeps(e, log, limits, at);
        assert log + [] == log;
      case Fail(_, at) => FailKeeps(e, log, limits, at);
      case Succeed(_) => SucceedKeeps(log, limits, now);
    }
  }

  /** A step without eviction. */
  lemma PlainStepRefines(s: State, before: seq<Call>, call: Call, limitsFor: string -> Limits, now: int)
    requires AllRepresented(s, before, limitsFor, now) && Usable(limitsFor, false) && 0 <= now <= Clock(now, call)
    ensures AllRepresented(Step(s, call, limitsFor, false), before + [call], limitsFor, Clock(now, call))
    ensures call.Check? ==> Answer(s, call, limitsFor, false)
                            == Some(!Locked(LogOf(before, call.key), limitsFor(call.key), call.at))
  {
    forall key
      ensures Represents(EntryOf(Step(s, call, limitsFor, false), key), LogOf(before + [call], key), limitsFor(key), Clock(now, call))
    {
      StepPerKey(s, call, limitsFor, key);
      LogGrows(before, call, key);
      EntryKeeps(EntryOf(s, key), LogOf(before, key), call, key, limitsFor(key), now);
    }
    if call.Check? {
      TimePasses(EntryOf(s, call.key), LogOf(before, call.key), limitsFor(call.key), now, call.at);
      CheckKeeps(EntryOf(s, call.key), LogOf(before, call.key), limitsFor(call.key), call.at);
    }
  }

  lemma StepRefines(s: State, before: seq<Call>, call: Call, limitsFor: string -> Limits, evicting: bool, now: int)
    requires AllRepresented(s, before, limitsFor, now) && Usable(limitsFor, evicting) && now >= 0
    requires Monotone(now, [call])
    ensures AllRepresented(Step(s, call, limitsFor, evicting), before + [call], limitsFor, Clock(now, call))
    ensures call.Check? ==> Answer(s, call, limitsFor, evicting)
                            == Some(!Locked(LogOf(before, call.key), limitsFor(call.key), call.at))
  {
    if call.Check? && evicting {
      EvictKeeps(s, before, limitsFor, now, call.evictAt);
      PlainStepRefines(Evict(s, call.evictAt), before, call, limitsFor, call.evictAt);
    } else {
      PlainStepRefines(s, before, call, limitsFor, now);
    }
  }

  lemma {:induction false} RunRefines(s: State, before: seq<Call>, calls: seq<Call>,
                                      limitsFor: string -> Limits, evicting: bool, now: int)
    requires AllRepresented(s, before, limitsFor, now) && Usable(limitsFor, evicting) && now >= 0
    requires Monotone(now, calls)
    ensures Answers(s, calls, limitsFor, evicting) == PlainAnswers(before, calls, limitsFor)
    decreases calls
  {
    if calls != [] {
      StepRefines(s, before, calls[0], limitsFor, evicting, now);
      RunRefines(Step(s, calls[0], limitsFor, evicting), before + [calls[0]], calls[1..],
                 limitsFor, evicting, Clock(now, calls[0]));
    }
  }

  /** Main refinement: whatever calls come, in whatever mix of keys, the pruned and evicting
      limiter answers as the plain logs do. */
  lemma RefinesPlainLog(calls: seq<Call>, limitsFor: string -> Limits, evicting: bool)
    requires Usable(limitsFor, evicting) && Monotone(0, calls)
    ensures Answers(FRESH, calls, limitsFor, evicting) == PlainAnswers([], calls, limitsFor)
  {
    RunRefines(FRESH, [], calls, limitsFor, evicting, 0);
  }

  /** The login limits are among those for which this holds. */
  lemma LoginLimitsUsable()
    ensures Usable(LimitsFor, true)
  {
  }

  // ----- when eviction can be noticed -----

  function Same(limits: Limits): string -> Limits { _ => limits }

  ghost predicate EvictionUnobservable(limits: Limits) {
    forall calls :: Monotone(0, calls) ==>
        Answers(FRESH, calls, Same(limits), true) == Answers(FRESH, calls, Same(limits), false)
  }

  /** An entry that never held a lockout: enough when lockouts last no time at all. */
  predicate Calm(s: State, limits: Limits, now: int) {
    forall key :: key in s.entries ==>
        |s.entries[key].attempts| < limits.maxFailures && s.entries[key].lockedUntil <= now
  }

  lemma PruneShrinks(times: seq<int>, cutoff: int)
    ensures |Prune(times, cutoff)| <= |times|
  {
  }

  lemma {:induction false} NothingLockedAnswersYes(s: State, calls: seq<Call>, limits: Limits, evicting: bool, now: int)
    requires limits.maxFailures >= 1 && limits.lockout <= 0 && now >= 0
    requires Calm(s, limits, now) && Monotone(now, calls)
    ensures forall i :: 0 <= i < |calls| ==>
        Answers(s, calls, Same(limits), evicting)[i] == if calls[i].Check? then Some(true) else None
    decreases calls
  {
    if calls != [] {
      var call := calls[0];
      var t := Step(s, call, Same(limits), evicting);
      if call.Check? {
        var swept := if evicting then Evict(s, call.evictAt) else s;
        PruneShrinks(EntryOf(swept, call.key).attempts, call.at - limits.window);
      }
      assert Calm(t, limits, Clock(now, call));
      NothingLockedAnswersYes(t, calls[1..], limits, evicting, Clock(now, call));
    }
  }

  // The run that betrays an eviction: all but one of the failures, a day's silence and a
  // check that sweeps, then one more failure and another check.

  function NearlyLocked(n: nat): seq<Call> {
    seq(n, _ => Fail("k", 0))
  }

  const SWEEP := Check("k", DAY + 1, DAY + 1)
  const LATE := Fail("k", DAY + 1)

  function Zeros(n: nat): seq<int> { seq(n, _ => 0) }

  function Waiting(n: nat): State {
    if n == 0 then FRESH else State(map["k" := Entry(Zeros(n), 0)], 0)
  }

  lemma {:induction false} AnswersConcat(s: State, first: seq<Call>, second: seq<Call>, limitsFor: string -> Limits, evicting: bool)
    ensures Answers(s, first + second, limitsFor, evicting)
            == Answers(s, first, limitsFor, evicting) + Answers(Run(s, first, limitsFor, evicting), second, limitsFor, evicting)
    decreases first
  {
    if first == [] {
      assert first + second == second;
    } else {
      assert (first + second)[1..] == first[1..] + second;
      AnswersConcat(Step(s, first[0], limitsFor, evicting), first[1..], second, limitsFor, evicting);
    }
  }

  lemma {:induction false} MonotoneConcat(now: int, n: nat, rest: seq<Call>)
    requires now == 0 && Monotone(0, rest)
    ensures Monotone(now, NearlyLocked(n) + rest)
    decreases n
  {
    var calls := NearlyLocked(n) + rest;
    if n == 0 {
      assert calls == rest;
    } else {
      assert calls[0] == Fail("k", 0) && calls[1..] == NearlyLocked(n - 1) + rest;
      MonotoneConcat(now, n - 1, rest);
    }
  }

  lemma {:induction false} NearlyLockedState(limits: Limits, m: nat, n: nat, evicting: bool)
    requires m + n < limits.maxFailures && limits.window >= 0
    ensures Run(Waiting(m), NearlyLocked(n), Same(limits), evicting) == Waiting(m + n)
    decreases n
  {
    if n > 0 {
      var calls := NearlyLocked(n);
      assert calls[0] == Fail("k", 0) && calls[1..] == NearlyLocked(n - 1);
      assert EntryOf(Waiting(m), "k").attempts + [0] == Zeros(m + 1);
      assert Step(Waiting(m), calls[0], Same(limits), evicting) == Waiting(m + 1);
      NearlyLockedState(limits, m + 1, n - 1, evicting);
    }
  }

  lemma ThirdAnswer(s: State, limits: Limits, evicting: bool)
    ensures var s1 := Step(s, SWEEP, Same(limits), evicting);
            var s2 := Step(s1, LATE, Same(limits), evicting);
            && |Answers(s, [SWEEP, LATE, SWEEP], Same(limits), evicting)| == 3
            && Answers(s, [SWEEP, LATE, SWEEP], Same(limits), evicting)[2] == Answer(s2, SWEEP, Same(limits), evicting)
  {
    var s1 := Step(s, SWEEP, Same(limits), evicting);
    var s2 := Step(s1, LATE, Same(limits), evicting);
    assert [SWEEP, LATE, SWEEP][1..] == [LATE, SWEEP] && [LATE, SWEEP][1..] == [SWEEP] && [SWEEP][1..] == [];
    assert Answers(s2, [SWEEP], Same(limits), evicting) == [Answer(s2, SWEEP, Same(limits), evicting)];
    assert Answers(s1, [LATE, SWEEP], Same(limits), evicting)
        == [Answer(s1, LATE, Same(limits), evicting)] + [Answer(s2, SWEEP, Same(limits), evicting)];
  }

  lemma SweptForgets(limits: Limits)
    requires limits.maxFailures >= 2 && limits.window > DAY
    ensures var s1 := Step(Waiting(limits.maxFailures - 1), SWEEP, Same(limits), true);
            var s2 := Step(s1, LATE, Same(limits), true);
            Answer(s2, SWEEP, Same(limits), true) == Some(true)
  {
    var s0 := Waiting(limits.maxFailures - 1);
    assert Evict(s0, DAY + 1) == State(map[], DAY + 1);
    var s1 := Step(s0, SWEEP, Same(limits), true);
    assert s1 == State(map["k" := NO_ENTRY], DAY + 1);
    assert [] + [DAY + 1] == [DAY + 1];
    var s2 := Step(s1, LATE, Same(limits), true);
    assert s2 == State(map["k" := Entry([DAY + 1], 0)], DAY + 1);
  }

  lemma UnsweptRemembers(limits: Limits)
    requires limits.maxFailures >= 2 && limits.window > DAY && limits.lockout > 0
    ensures var s1 := Step(Waiting(limits.maxFailures - 1), SWEEP, Same(limits), false);
            var s2 := Step(s1, LATE, Same(limits), false);
            Answer(s2, SWEEP, Same(limits), false) == Some(false)
  {
    var n := limits.maxFailures - 1;
    var s0 := Waiting(n);
    assert Prune(Zeros(n), DAY + 1 - limits.window) == Zeros(n);
    var s1 := Step(s0, SWEEP, Same(limits), false);
    assert s1 == s0;
    var s2 := Step(s1, LATE, Same(limits), false);
    assert (Zeros(n) + [DAY + 1])[0] == 0;
    assert s2 == State(map["k" := Entry([], DAY + 1 + limits.lockout)], 0);
  }

  /** Background eviction is unobservable to every run of calls exactly when the window is at
      most a day, or the first failure already locks, or a lockout is no lockout at all. */
  lemma EvictionUnobservableIff(limits: Limits)
    requires limits.maxFailures >= 1
    ensures EvictionUnobservable(limits) <==> (Forgettable(limits) || limits.lockout <= 0)
  {
    if Forgettable(limits) {
      forall calls | Monotone(0, calls)
        ensures Answers(FRESH, calls, Same(limits), true) == Answers(FRESH, calls, Same(limits), false)
      {
        RefinesPlainLog(calls, Same(limits), true);
        RefinesPlainLog(calls, Same(limits), false);
      }
    } else if limits.lockout <= 0 {
      forall calls | Monotone(0, calls)
        ensures Answers(FRESH, calls, Same(limits), true) == Answers(FRESH, calls, Same(limits), false)
      {
        NothingLockedAnswersYes(FRESH, calls, limits, true, 0);
        NothingLockedAnswersYes(FRESH, calls, limits, false, 0);
      }
    } else {
      var calls := EvictionBetrayed(limits);
    }
  }

  lemma EvictionBetrayed(limits: Limits) returns (calls: seq<Call>)
    requires limits.maxFailures >= 2 && limits.window > DAY && limits.lockout > 0
    ensures Monotone(0, calls)
    ensures Answers(FRESH, calls, Same(limits), true) != Answers(FRESH, calls, Same(limits), false)
  {
    var n := limits.maxFailures - 1;
    var tail := [SWEEP, LATE, SWEEP];
    calls := NearlyLocked(n) + tail;
    assert Monotone(DAY + 1, [SWEEP]) && tail[1..] == [LATE, SWEEP] && [LATE, SWEEP][1..] == [SWEEP];
    assert Monotone(DAY + 1, [LATE, SWEEP]);
    MonotoneConcat(0, n, tail);
    BetrayalAnswer(limits, n, true);
    SweptForgets(limits);
    BetrayalAnswer(limits, n, false);
    UnsweptRemembers(limits);
  }

  lemma BetrayalAnswer(limits: Limits, n: nat, evicting: bool)
    requires n < limits.maxFailures && limits.window >= 0
    ensures var answers := Answers(FRESH, NearlyLocked(n) + [SWEEP, LATE, SWEEP], Same(limits), evicting);
            var s1 := Step(Waiting(n), SWEEP, Same(limits), evicting);
            var s2 := Step(s1, LATE, Same(limits), evicting);
            |answers| == n + 3 && answers[n + 2] == Answer(s2, SWEEP, Same(limits), evicting)
  {
    NearlyLockedState(limits, 0, n, evicting);
    AnswersConcat(FRESH, NearlyLocked(n), [SWEEP, LATE, SWEEP], Same(limits), evicting);
    ThirdAnswer(Waiting(n), limits, evicting);
  }

  // ----- how many failures a window can hold -----

  /** Failures only, with times that never decrease and end by `now`. */
  predicate Timed(log: seq<Event>, now: int)
    decreases log
  {
    log == [] || (Last(log).Failure? && Last(log).at <= now && Timed(DropLast(log), Last(log).at))
  }

  /** No failure is recorded during a lockout: each attempt passed its own check first. */
  predicate Disciplined(log: seq<Event>, limits: Limits)
    decreases log
  {
    log == [] ||
    (Disciplined(DropLast(log), limits) && (Last(log).Failure? ==> !Locked(DropLast(log), limits, Last(log).at)))
  }

  function CountIn(log: seq<Event>, a: int, b: int): nat
    decreases log
  {
    if log == [] then 0
    else CountIn(DropLast(log), a, b) + if Last(log).Failure? && a <= Last(log).at <= b then 1 else 0
  }

  lemma {:induction false} SinceConcat(xs: seq<int>, ys: seq<int>, c: int)
    ensures Since(xs + ys, c) == Since(xs, c) + Since(ys, c)
    decreases xs
  {
    if xs == [] {
      assert xs + ys == ys;
    } else {
      assert (xs + ys)[1..] == xs[1..] + ys;
      SinceConcat(xs[1..], ys, c);
      Associative(if xs[0] >= c then [xs[0]] else [], Since(xs[1..], c), Since(ys, c));
    }
  }

  lemma {:induction false} SinceShrinks(times: seq<int>, c: int, d: int)
    requires c <= d
    ensures |Since(times, d)| <= |Since(times, c)|
    decreases times
  {
    if times != [] {
      SinceShrinks(times[1..], c, d);
    }
  }

  lemma {:induction false} NoneLater(log: seq<Event>, now: int, a: int, b: int)
    requires Timed(log, now) && now < a
    ensures CountIn(log, a, b) == 0
    decreases log
  {
    if log != [] {
      NoneLater(DropLast(log), Last(log).at, a, b);
    }
  }

  /** After the latest lockout began, the failures are the active ones. */
  lemma {:induction false} RecentAreActive(log: seq<Event>, limits: Limits, now: int, a: int, b: int)
    requires Timed(log, now) && now <= b
    requires LockEnd(log, limits).Some? ==> a > LockEnd(log, limits).value - limits.lockout
    ensures CountIn(log, a, b) == |Since(Active(log, limits), a)|
    decreases log
  {
    if log == [] {
    } else if Trips(log, limits) {
      NoneLater(DropLast(log), Last(log).at, a, b);
    } else {
      RecentAreActive(DropLast(log), limits, Last(log).at, a, b);
      SinceConcat(Active(DropLast(log), limits), [Last(log).at], a);
    }
  }

  /** The brute-force bound: with lockouts longer than the window, no closed interval of
      window length holds more than `maxFailures` failures. */
  lemma {:induction false} WindowBound(log: seq<Event>, limits: Limits, now: int, a: int)
    requires limits.maxFailures >= 1 && limits.window >= 0 && limits.lockout > limits.window
    requires Timed(log, now) && Disciplined(log, limits)
    ensures CountIn(log, a, a + limits.window) <= limits.maxFailures
    decreases log
  {
    if log != [] {
      var before, t := DropLast(log), Last(log).at;
      WindowBound(before, limits, t, a);
      if a <= t <= a + limits.window {
        RecentAreActive(before, limits, t, a, a + limits.window);
        if before != [] {
          SinceShrinks(Active(before, limits), Last(before).at - limits.window, a);
        }
      }
    }
  }

  function Burst(n: nat): seq<Event> { seq(n, _ => Failure(0)) }

  lemma {:induction false} BurstLog(limits: Limits, n: nat)
    requires n <= limits.maxFailures && limits.window >= 0
    ensures Timed(Burst(n), 0) && CountIn(Burst(n), 0, limits.window) == n
    ensures n < limits.maxFailures ==> LockEnd(Burst(n), limits) == None && Active(Burst(n), limits) == Zeros(n)
    ensures n == limits.maxFailures && n > 0 ==> LockEnd(Burst(n), limits) == Some(limits.lockout)
    ensures Disciplined(Burst(n), limits)
    decreases n
  {
    if n > 0 {
      BurstLog(limits, n - 1);
      assert DropLast(Burst(n)) == Burst(n - 1);
      assert Zeros(n - 1) + [0] == Zeros(n);
      SinceAll(Zeros(n), 0 - limits.window);
    }
  }

  ghost predicate WindowBounded(limits: Limits) {
    forall log: seq<Event>, now: int, a: int, b: int ::
      Timed(log, now) && Disciplined(log, limits) && b == a + limits.window ==> CountIn(log, a, b) <= limits.maxFailures
  }

  /** The bound holds for all disciplined logs exactly when lockouts outlast the window. */
  lemma WindowBoundedIff(limits: Limits)
    requires limits.maxFailures >= 1 && limits.window >= 0
    ensures WindowBounded(limits) <==> limits.lockout > limits.window
  {
    if limits.lockout > limits.window {
      forall log: seq<Event>, now: int, a: int, b: int
        | Timed(log, now) && Disciplined(log, limits) && b == a + limits.window
        ensures CountIn(log, a, b) <= limits.maxFailures
      {
        WindowBound(log, limits, now, a);
      }
    } else {
      var again := if limits.lockout >= 0 then limits.lockout else 0;
      var log := Burst(limits.maxFailures) + [Failure(again)];
      BurstLog(limits, limits.maxFailures);
      assert DropLast(log) == Burst(limits.maxFailures);
      TimedLater(Burst(limits.maxFailures), 0, again);
      assert Timed(log, again) && Disciplined(log, limits);
      assert CountIn(log, 0, limits.window) == limits.maxFailures + 1;
      assert Timed(log, again) && limits.window == 0 + limits.window;
    }
  }

  lemma TimedLater(log: seq<Event>, now: int, later: int)
    requires Timed(log, now) && now <= later
    ensures Timed(log, later)
  {
  }

  // ----- the bound for whole runs -----

  predicate Touches(call: Call, key: string) {
    !call.Check? && call.key == key
  }

  /** The i-th call, a failure, follows an allowed check of the same key with no other failure
      or success of that key in between. */
  ghost predicate Checked(calls: seq<Call>, answers: seq<Option<bool>>, i: nat)
    requires i < |calls| == |answers|
  {
    exists c :: 0 <= c < i && calls[c].Check? && calls[c].key == calls[i].key && answers[c] == Some(true)
                && forall j :: c < j < i ==> !Touches(calls[j], calls[i].key)
  }

  lemma {:induction false} PlainAnswerAt(before: seq<Call>, calls: seq<Call>, limitsFor: string -> Limits, c: nat)
    requires c < |calls| && calls[c].Check?
    ensures PlainAnswers(before, calls, limitsFor)[c]
            == Some(!Locked(LogOf(before + calls[..c], calls[c].key), limitsFor(calls[c].key), calls[c].at))
    decreases calls
  {
    if c == 0 {
      assert before + calls[..0] == before;
    } else {
      PlainAnswerAt(before + [calls[0]], calls[1..], limitsFor, c - 1);
      assert calls[..c] == [calls[0]] + calls[1..][..c - 1];
      Associative(before, [calls[0]], calls[1..][..c - 1]);
    }
  }

  lemma {:induction false} UntouchedLog(calls: seq<Call>, key: string, c: nat, i: nat)
    requires c <= i <= |calls| && forall j :: c <= j < i ==> !Touches(calls[j], key)
    ensures LogOf(calls[..i], key) == LogOf(calls[..c], key)
    decreases i
  {
    if c < i {
      UntouchedLog(calls, key, c, i - 1);
      assert calls[..i] == calls[..i - 1] + [calls[i - 1]];
      LogGrows(calls[..i - 1], calls[i - 1], key);
    }
  }

  lemma {:induction false} ClockOrder(now: int, calls: seq<Call>, c: nat, i: nat)
    requires Monotone(now, calls) && c < i < |calls| && !calls[c].Succeed? && !calls[i].Succeed?
    ensures now <= calls[c].at <= calls[i].at
    decreases calls
  {
    if c == 0 {
      AfterNow(Clock(now, calls[0]), calls[1..], i - 1);
    } else {
      ClockOrder(Clock(now, calls[0]), calls[1..], c - 1, i - 1);
    }
  }

  lemma {:induction false} AfterNow(now: int, calls: seq<Call>, i: nat)
    requires Monotone(now, calls) && i < |calls| && !calls[i].Succeed?
    ensures now <= calls[i].at
    decreases calls
  {
    if i > 0 {
      AfterNow(Clock(now, calls[0]), calls[1..], i - 1);
    }
  }

  ghost predicate EveryFailureChecked(calls: seq<Call>, answers: seq<Option<bool>>, key: string)
    requires |calls| == |answers|
  {
    forall i :: 0 <= i < |calls| && Touches(calls[i], key) ==> calls[i].Fail? && Checked(calls, answers, i)
  }

  /** Call i, if it concerns the key, is a failure outside any lockout. */
  predicate Orderly(calls: seq<Call>, limits: Limits, key: string, i: nat)
    requires i < |calls|
  {
    Touches(calls[i], key) ==> calls[i].Fail? && !Locked(LogOf(calls[..i], key), limits, calls[i].at)
  }

  lemma {:induction false} OrderlyLog(calls: seq<Call>, limits: Limits, key: string, n: nat, now: int)
    requires n <= |calls| && Monotone(0, calls)
    requires forall i :: 0 <= i < n ==> Orderly(calls, limits, key, i)
    requires forall i :: 0 <= i < n && calls[i].Fail? ==> calls[i].at <= now
    ensures Disciplined(LogOf(calls[..n], key), limits) && Timed(LogOf(calls[..n], key), now)
    decreases n
  {
    if n > 0 {
      var call := calls[n - 1];
      var log := LogOf(calls[..n - 1], key);
      assert calls[..n] == calls[..n - 1] + [call];
      LogGrows(calls[..n - 1], call, key);
      assert Orderly(calls, limits, key, n - 1);
      if Touches(call, key) {
        forall i | 0 <= i < n - 1 && calls[i].Fail? ensures calls[i].at <= call.at { ClockOrder(0, calls, i, n - 1); }
        OrderlyLog(calls, limits, key, n - 1, call.at);
        OneMoreFailure(log, limits, call.at, now);
      } else {
        OrderlyLog(calls, limits, key, n - 1, now);
        assert log + [] == log;
      }
    }
  }

  lemma OneMoreFailure(log: seq<Event>, limits: Limits, at: int, now: int)
    requires Disciplined(log, limits) && Timed(log, at) && at <= now && !Locked(log, limits, at)
    ensures Disciplined(log + [Failure(at)], limits) && Timed(log + [Failure(at)], now)
  {
    assert DropLast(log + [Failure(at)]) == log;
  }

  lemma NotLockedWhenChecked(calls: seq<Call>, limitsFor: string -> Limits, key: string, i: nat)
    requires i < |calls| && Monotone(0, calls)
    requires calls[i].Fail? && calls[i].key == key && Checked(calls, PlainAnswers([], calls, limitsFor), i)
    ensures !Locked(LogOf(calls[..i], key), limitsFor(key), calls[i].at)
  {
    var c :| 0 <= c < i && calls[c].Check? && calls[c].key == key
             && PlainAnswers([], calls, limitsFor)[c] == Some(true)
             && forall j :: c < j < i ==> !Touches(calls[j], key);
    PlainAnswerAt([], calls, limitsFor, c);
    assert [] + calls[..c] == calls[..c];
    UntouchedLog(calls, key, c, i);
    ClockOrder(0, calls, c, i);
  }

  /** End to end, with pruning and eviction at work: if every failure of a key follows its
      own allowed check and the key never succeeds, any window-long interval sees at most
      `maxFailures` of its failures. */
  lemma FailuresBoundedPerWindow(calls: seq<Call>, limitsFor: string -> Limits, key: string, a: int)
    requires Usable(limitsFor, true) && Monotone(0, calls)
    requires limitsFor(key).window >= 0 && limitsFor(key).lockout > limitsFor(key).window
    requires EveryFailureChecked(calls, Answers(FRESH, calls, limitsFor, true), key)
    ensures CountIn(LogOf(calls, key), a, a + limitsFor(key).window) <= limitsFor(key).maxFailures
  {
    RefinesPlainLog(calls, limitsFor, true);
    var now := LatestFailure(calls);
    assert calls[..|calls|] == calls;
    forall i | 0 <= i < |calls| ensures Orderly(calls, limitsFor(key), key, i) {
      if Touches(calls[i], key) { NotLockedWhenChecked(calls, limitsFor, key, i); }
    }
    OrderlyLog(calls, limitsFor(key), key, |calls|, now);
    WindowBound(LogOf(calls, key), limitsFor(key), now, a);
  }

  lemma {:induction false} LatestFailure(calls: seq<Call>) returns (now: int)
    ensures forall i :: 0 <= i < |calls| && calls[i].Fail? ==> calls[i].at <= now
    decreases calls
  {
    if calls == [] {
      now := 0;
    } else {
      now := LatestFailure(calls[1..]);
      assert forall i :: 0 < i < |calls| ==> calls[i] == calls[1..][i - 1];
      if calls[0].Fail? && calls[0].at > now { now := calls[0].at; }
    }
  }

  /** The login settings, 5 per minute and address and 10 per five minutes and account, meet
      the conditions of the bound. */
  lemma LoginSettingsBound(calls: seq<Call>, ip: string, username: string, a: int)
    requires Monotone(0, calls)
    requires EveryFailureChecked(calls, Answers(FRESH, calls, LimitsFor, true), "ip:" + ip)
    requires EveryFailureChecked(calls, Answers(FRESH, calls, LimitsFor, true), "user:" + username)
    ensures CountIn(LogOf(calls, "ip:" + ip), a, a + 60 * SECOND) <= 5
    ensures CountIn(LogOf(calls, "user:" + username), a, a + 300 * SECOND) <= 10
  {
    LoginLimits(ip, username);
    LoginLimitsUsable();
    FailuresBoundedPerWindow(calls, LimitsFor, "ip:" + ip, a);
    FailuresBoundedPerWindow(calls, LimitsFor, "user:" + username, a);
  }

  // ----- how long a lockout lasts -----

  function Failures(times: seq<int>): seq<Event> {
    seq(|times|, i requires 0 <= i < |times| => Failure(times[i]))
  }

  function Failing(key: string, times: seq<int>): seq<Call> {
    seq(|times|, i requires 0 <= i < |times| => Fail(key, times[i]))
  }

  lemma OneMoreInWindow(log: seq<Event>, limits: Limits, active: seq<int>, now: int)
    requires Active(log, limits) == active && LockEnd(log, limits) == None && |active| < limits.maxFailures
    requires forall i :: 0 <= i < |active| ==> active[i] >= now - limits.window
    requires limits.window >= 0
    ensures var more := log + [Failure(now)];
            if |active| + 1 < limits.maxFailures
            then Active(more, limits) == active + [now] && LockEnd(more, limits) == None
            else LockEnd(more, limits) == Some(now + limits.lockout)
  {
    FailureLogged(log, limits, now);
    SinceAll(active + [now], now - limits.window);
  }

  lemma LastFailure(times: seq<int>)
    requires times != []
    ensures Failures(times) == Failures(DropLast(times)) + [Failure(Last(times))]
  {
  }

  /** Failures that all fall in one window lock the key with the last of as many as allowed. */
  lemma {:induction false} FirstFailures(limits: Limits, times: seq<int>)
    requires |times| <= limits.maxFailures && limits.maxFailures >= 1 && Sorted(times) && limits.window >= 0
    requires times != [] ==> times[0] >= Last(times) - limits.window
    ensures |times| < limits.maxFailures ==> Active(Failures(times), limits) == times && LockEnd(Failures(times), limits) == None
    ensures |times| == limits.maxFailures ==> LockEnd(Failures(times), limits) == Some(Last(times) + limits.lockout)
    decreases times
  {
    if times == [] {
      assert Failures(times) == [];
    } else {
      FirstFailures(limits, DropLast(times));
      LastFailure(times);
      assert DropLast(times) + [Last(times)] == times;
      OneMoreInWindow(Failures(DropLast(times)), limits, DropLast(times), Last(times));
    }
  }

  lemma {:induction false} LogOfFailing(key: string, times: seq<int>)
    ensures LogOf(Failing(key, times), key) == Failures(times)
    decreases times
  {
    if times != [] {
      LogOfFailing(key, DropLast(times));
      assert Failing(key, times) == Failing(key, DropLast(times)) + [Fail(key, Last(times))];
      LogGrows(Failing(key, DropLast(times)), Fail(key, Last(times)), key);
      assert Failures(times) == Failures(DropLast(times)) + [Failure(Last(times))];
    }
  }

  /** The answer to a check after failures that all fall in one window, pruning and eviction at
      work: allowed exactly if there were too few of them, or the lockout is over. */
  lemma CheckAfterFailures(key: string, times: seq<int>, check: Call, limitsFor: string -> Limits)
    requires Usable(limitsFor, true) && check.Check? && check.key == key && Monotone(0, Failing(key, times) + [check])
    requires times != [] && |times| <= limitsFor(key).maxFailures && Sorted(times)
    requires times[0] >= Last(times) - limitsFor(key).window
    ensures Answers(FRESH, Failing(key, times) + [check], limitsFor, true)[|times|]
            == Some(|times| < limitsFor(key).maxFailures || check.at >= Last(times) + limitsFor(key).lockout)
  {
    RefinesPlainLog(Failing(key, times) + [check], limitsFor, true);
    PlainCheck(key, times, check, limitsFor);
    assert times[0] <= Last(times);
    FirstFailures(limitsFor(key), times);
  }

  lemma PlainCheck(key: string, times: seq<int>, check: Call, limitsFor: string -> Limits)
    requires check.Check? && check.key == key
    ensures PlainAnswers([], Failing(key, times) + [check], limitsFor)[|times|]
            == Some(!Locked(Failures(times), limitsFor(key), check.at))
  {
    var calls := Failing(key, times) + [check];
    PlainAnswerAt([], calls, limitsFor, |times|);
    assert [] + calls[..|times|] == Failing(key, times) && calls[|times|] == check;
    LogOfFailing(key, times);
  }

  /** An address is locked out by its fifth failure within a minute, for exactly five minutes. */
  lemma AddressLockout(ip: string, times: seq<int>, check: Call)
    requires check.Check? && check.key == "ip:" + ip && Monotone(0, Failing("ip:" + ip, times) + [check])
    requires 0 < |times| <= 5 && Sorted(times) && times[|times| - 1] - times[0] <= 60_000_000_000
    ensures Answers(FRESH, Failing("ip:" + ip, times) + [check], LimitsFor, true)[|times|]
            == Some(|times| < 5 || check.at >= times[|times| - 1] + 300_000_000_000)
  {
    LoginLimits(ip, "");
    LoginLimitsUsable();
    CheckAfterFailures("ip:" + ip, times, check, LimitsFor);
  }

  /** An account is locked out by its tenth failure within five minutes, for exactly fifteen. */
  lemma AccountLockout(username: string, times: seq<int>, check: Call)
    requires check.Check? && check.key == "user:" + username && Monotone(0, Failing("user:" + username, times) + [check])
    requires 0 < |times| <= 10 && Sorted(times) && times[|times| - 1] - times[0] <= 300_000_000_000
    ensures Answers(FRESH, Failing("user:" + username, times) + [check], LimitsFor, true)[|times|]
            == Some(|times| < 10 || check.at >= times[|times| - 1] + 900_000_000_000)
  {
    LoginLimits("", username);
    LoginLimitsUsable();
    CheckAfterFailures("user:" + username, times, check, LimitsFor);
  }

  /** A success lifts every lockout of its key, whatever the state. */
  lemma SuccessUnlocks(s: State, key: string, check: Call, limitsFor: string -> Limits, evicting: bool)
    requires check.Check? && check.key == key && check.at >= 0 && limitsFor(key).maxFailures >= 1
    ensures Answer(Step(s, Succeed(key), limitsFor, evicting), check, limitsFor, evicting) == Some(true)
  {
    assert key !in Step(s, Succeed(key), limitsFor, evicting).entries;
    PruneShrinks([], check.at - limitsFor(key).window);
  }

  /** An eviction runs ten minutes after the last one, or at a thousand keys; it forgets exactly
      the keys with no lockout running and no failure in the last day, and changes no other. */
  lemma EvictedExactly(s: State, now: int, key: string)
    requires key in s.entries
    ensures var e := s.entries[key];
            key in Evict(s, now).entries <==>
              || (now - s.lastEviction < 600_000_000_000 && |s.entries| < 1000)
              || e.lockedUntil >= now
              || (e.attempts != [] && Last(e.attempts) >= now - 86400_000_000_000)
    ensures key in Evict(s, now).entries ==> Evict(s, now).entries[key] == s.entries[key]
  {
  }
}
