/**
 The Identify coordinator (sharding.go): Discord's session-start quota and the five-second gate of each
 max_concurrency bucket. Times are nanoseconds.
 */
module IdentifyCoordinator {
  import opened Base
  import opened Clocks
  import opened Windows

  const CONCURRENCY_WINDOW := 5_000_000_000
  const MILLISECOND := 1_000_000

  /** Get Gateway Bot's session_start_limit; resetAfter is in milliseconds. */
  datatype Limit = Limit(total: int, remaining: int, resetAfter: int, maxConcurrency: int)

  datatype LimitError = BadTotal | BadRemaining | BadResetAfter | BadConcurrency

  function ValidateLimit(limit: Limit): Option<LimitError> {
    if limit.total <= 0 then Some(BadTotal)
    else if limit.remaining < 0 || limit.remaining > limit.total then Some(BadRemaining)
    else if limit.resetAfter <= 0 then Some(BadResetAfter)
    else if limit.maxConcurrency <= 0 then Some(BadConcurrency)
    else None
  }

  /** Exactly these limits are valid, and the first field that is not is the one complained of. */
  lemma ValidExactly(limit: Limit)
    ensures ValidateLimit(limit) == None <==>
              0 < limit.total && 0 <= limit.remaining <= limit.total && 0 < limit.resetAfter && 0 < limit.maxConcurrency
    ensures ValidateLimit(limit) == Some(BadTotal) <==> limit.total <= 0
    ensures ValidateLimit(limit) == Some(BadRemaining) <==> limit.total > 0 && !(0 <= limit.remaining <= limit.total)
    ensures ValidateLimit(limit) == Some(BadResetAfter) <==>
              0 <= limit.remaining <= limit.total && limit.total > 0 && limit.resetAfter <= 0
  {
  }

  datatype State = State(
    total: int,
    remaining: int,
    resetWindow: int,
    resetAt: int,
    maxConcurrency: int,
    readyAt: map<nat, int>)

  /** The quota is within its bounds. */
  predicate Sound(s: State) {
    0 < s.total && 0 <= s.remaining <= s.total && 0 < s.resetWindow && 0 < s.maxConcurrency
  }

  function Loaded(limit: Limit, now: int, readyAt: map<nat, int>): State {
    var window := limit.resetAfter * MILLISECOND;
    State(limit.total, limit.remaining, window, now + window, limit.maxConcurrency, readyAt)
  }

  function ResetQuota(s: State, now: int): State {
    if now < s.resetAt then s else s.(remaining := s.total, resetAt := now + s.resetWindow)
  }

  datatype Verdict = Granted | QuotaExhausted(total: int, retryAfter: nat) | GateClosed(delay: int)

  /** One critical section of Acquire. */
  function Attempt(s: State, now: int, shardID: nat): (State, Verdict)
    requires Sound(s)
  {
    var s1 := ResetQuota(s, now);
    var bucket := shardID % s1.maxConcurrency;
    if s1.remaining == 0 then (s1, QuotaExhausted(s1.total, if s1.resetAt < now then 0 else s1.resetAt - now))
    else if bucket in s1.readyAt && now < s1.readyAt[bucket] then (s1, GateClosed(s1.readyAt[bucket] - now))
    else
      (s1.(remaining := s1.remaining - 1, readyAt := s1.readyAt[bucket := now + CONCURRENCY_WINDOW]), Granted)
  }

  /** New quota information; the gates stay unless max_concurrency changes. */
  function Refresh(s: State, limit: Limit, now: int): (State, Option<LimitError>) {
    if ValidateLimit(limit).Some? then (s, ValidateLimit(limit))
    else (Loaded(limit, now, if s.maxConcurrency == limit.maxConcurrency then s.readyAt else map[]), None)
  }

  /** What Status reports: the state after a due reset, and the time left until the next one. */
  function Status(s: State, now: int): (State, int) {
    var s1 := ResetQuota(s, now);
    (s1, if s1.resetAt < now then 0 else s1.resetAt - now)
  }

  function DurationMillisecondsCeil(duration: int): int {
    if duration <= 0 then 0
    else duration / MILLISECOND + if duration % MILLISECOND != 0 then 1 else 0
  }

  /** The reported milliseconds are the least that cover the duration. */
  lemma MillisecondsCover(duration: int)
    ensures var ms := DurationMillisecondsCeil(duration);
            ms >= 0 && duration <= ms * MILLISECOND && (ms > 0 ==> (ms - 1) * MILLISECOND < duration)
  {
  }

  /** What SessionStartLimit reports always passes validation. */
  lemma ReportedLimitIsValid(s: State, now: int)
    requires Sound(s)
    ensures var (s1, resetAfter) := Status(s, now);
            ValidateLimit(Limit(s1.total, s1.remaining, DurationMillisecondsCeil(resetAfter), s1.maxConcurrency)) == None
  {
    MillisecondsCover(Status(s, now).1);
  }

  datatype Acquisition = Acquired | OutOfQuota(total: int, retryAfter: nat) | Cancelled | InvalidShard

  // ---- Runs ----------------------------------------------------------------------------------

  /** A critical section of some caller, at the time it reads under the lock. */
  datatype Event =
    | Trying(now: int, shardID: nat)
    | Refreshing(now: int, limit: Limit)
    | Reading(now: int)

  datatype Grant = Grant(time: int, bucket: nat)

  /** The coordinator, its grants in order, and the quota window each was charged to. */
  datatype Run = Run(s: State, grants: seq<Grant>, charges: seq<Charge>)

  function Step(r: Run, e: Event): (r': Run)
    requires Sound(r.s)
    ensures Sound(r'.s)
  {
    match e
    case Trying(now, shardID) =>
      var (s', v) := Attempt(r.s, now, shardID);
      if v.Granted?
      then Run(s', r.grants + [Grant(now, shardID % s'.maxConcurrency)],
               r.charges + [Charge(now, s'.resetAt - s'.resetWindow)])
      else r.(s := s')
    case Refreshing(now, limit) => r.(s := Refresh(r.s, limit, now).0)
    case Reading(now) => r.(s := Status(r.s, now).0)
  }

  function RunAll(r: Run, events: seq<Event>): (r': Run)
    requires Sound(r.s)
    ensures Sound(r'.s)
  {
    if events == [] then r else Step(RunAll(r, events[..|events| - 1]), events[|events| - 1])
  }

  function Start(limit: Limit, now: int): Run
    requires ValidateLimit(limit).None?
  {
    Run(Loaded(limit, now, map[]), [], [])
  }

  /** The clock never goes back, from the start on. */
  predicate Clocked(start: int, events: seq<Event>) {
    && (forall i | 0 <= i < |events| :: start <= events[i].now)
    && (forall i, j | 0 <= i <= j < |events| :: events[i].now <= events[j].now)
  }

  function GrantTimes(grants: seq<Grant>): (r: seq<int>)
    ensures |r| == |grants| && forall i | 0 <= i < |grants| :: r[i] == grants[i].time
  {
    seq(|grants|, i requires 0 <= i < |grants| => grants[i].time)
  }

  // ---- The coordinator -------------------------------------------------------------------------

  class Coordinator {
    var total: int
    var remaining: int
    var resetWindow: int
    var resetAt: int
    var maxConcurrency: int
    var bucketReadyAt: map<nat, int>

    function View(): State
      reads this
    {
      State(total, remaining, resetWindow, resetAt, maxConcurrency, bucketReadyAt)
    }

    constructor (limit: Limit, now: int)
      requires ValidateLimit(limit).None?
      ensures View() == Loaded(limit, now, map[]) && Sound(View())
    {
      total, remaining := limit.total, limit.remaining;
      resetWindow := limit.resetAfter * MILLISECOND;
      resetAt := now + limit.resetAfter * MILLISECOND;
      maxConcurrency := limit.maxConcurrency;
      bucketReadyAt := map[];
    }

    method ResetQuotaLocked(now: int)
      modifies `remaining, `resetAt
      ensures View() == ResetQuota(old(View()), now)
    {
      if now < resetAt {
        return;
      }
      remaining := total;
      resetAt := now + resetWindow;
    }

    /** The critical section of Acquire, between its lock and its unlock. */
    method TryAcquire(now: int, shardID: nat) returns (v: Verdict)
      requires Sound(View())
      modifies this
      ensures (View(), v) == Attempt(old(View()), now, shardID) && Sound(View())
    {
      ResetQuotaLocked(now);
      if remaining == 0 {
        var retryAfter := resetAt - now;
        if retryAfter < 0 {
          retryAfter := 0;
        }
        return QuotaExhausted(total, retryAfter);
      }
      var bucket := shardID % maxConcurrency;
      if bucket in bucketReadyAt && now < bucketReadyAt[bucket] {
        return GateClosed(bucketReadyAt[bucket] - now);
      }
      remaining := remaining - 1;
      bucketReadyAt := bucketReadyAt[bucket := now + CONCURRENCY_WINDOW];
      return Granted;
    }

    method RefreshQuota(limit: Limit, now: int) returns (err: Option<LimitError>)
      modifies this
      ensures (View(), err) == Refresh(old(View()), limit, now)
    {
      err := ValidateLimit(limit);
      if err.Some? {
        return;
      }
      if maxConcurrency != limit.maxConcurrency {
        bucketReadyAt := map[];
      }
      total := limit.total;
      remaining := limit.remaining;
      resetWindow := limit.resetAfter * MILLISECOND;
      resetAt := now + resetWindow;
      maxConcurrency := limit.maxConcurrency;
    }

    method ReadStatus(now: int) returns (resetAfter: int)
      modifies this
      ensures (View(), resetAfter) == Status(old(View()), now)
    {
      ResetQuotaLocked(now);
      resetAfter := resetAt - now;
      if resetAfter < 0 {
        resetAfter := 0;
      }
    }

    /** The critical sections of other callers, one after another, each at its own reading of the clock. */
    method Interfere(clock: Clock, others: seq<Other>, ghost r0: Run, ghost start: int, ghost before: seq<Event>)
      returns (ghost events: seq<Event>)
      requires Sound(r0.s) && Explains(r0, start, before, clock.now)
      modifies this, clock
      ensures old(clock.now) <= clock.now && Explains(r0, start, events, clock.now)
      ensures before <= events && |events| == |before| + |others|
    {
      events := before;
      for i := 0 to |others|
        invariant old(clock.now) <= clock.now && Explains(r0, start, events, clock.now)
        invariant before <= events && |events| == |before| + i
      {
        var now := clock.Now();
        match others[i] {
          case OtherAcquire(shardID) =>
            var v := TryAcquire(now, shardID);
            Explained(r0, start, events, Trying(now, shardID));
            events := events + [Trying(now, shardID)];
          case OtherRefresh(limit) =>
            var err := RefreshQuota(limit, now);
            Explained(r0, start, events, Refreshing(now, limit));
            events := events + [Refreshing(now, limit)];
          case OtherStatus =>
            var resetAfter := ReadStatus(now);
            Explained(r0, start, events, Reading(now));
            events := events + [Reading(now)];
        }
      }
    }

    /** A clocked sequence of critical sections leads from a run's state to this one. */
    ghost predicate Explains(r0: Run, start: int, events: seq<Event>, now: int)
      requires Sound(r0.s)
      reads this
    {
      View() == RunAll(r0, events).s && Clocked(start, events) && start <= now && forall e | e in events :: e.now <= now
    }

    /**
     Acquire, while others take their turns in each of its waits. It attempts and waits until it is granted, out of
     quota, or cancelled; only its last attempt can be other than turned away at a closed gate. Once the others are done
     it waits at most once more. The context is looked at before every attempt and in every wait, and done(k) is what its
     k-th look finds: the first that finds it done, and nothing else, cancels the call.
     */
    method Acquire(clock: Clock, shardID: int, others: seq<seq<Other>>, done: nat -> bool)
      returns (r: Acquisition, ghost events: seq<Event>, ghost attempts: seq<nat>)
      requires Sound(View())
      modifies this, clock
      ensures Sound(View()) && old(clock.now) <= clock.now
      ensures Explains(Run(old(View()), [], []), old(clock.now), events, clock.now)
      ensures shardID < 0 <==> r == InvalidShard
      ensures |attempts| <= |others| + 2 && (others == [] ==> |attempts| == |events|)
      ensures r == Cancelled ==> exists k | 2 * |attempts| - 1 <= k <= 2 * |attempts| :: FirstDone(done, k)
      ensures r.Acquired? || r.OutOfQuota? ==> forall k | 0 <= k < 2 * |attempts| - 1 :: !done(k)
      ensures var r0, n := Run(old(View()), [], []), |attempts|;
              && (attempts != [] ==> shardID >= 0)
              && (r == Cancelled ==> attempts == [] || TurnedAway(r0, events, attempts, shardID))
              && (r.Acquired? || r.OutOfQuota? ==>
                    && attempts != [] && attempts[n - 1] == |events| - 1 && IsAttempt(events, |events| - 1, shardID)
                    && TurnedAway(r0, events, attempts[..n - 1], shardID)
                    && r == match VerdictAt(r0, events, |events| - 1)
                            case Granted => Acquired
                            case QuotaExhausted(total, retryAfter) => OutOfQuota(total, retryAfter)
                            case GateClosed(_) => Cancelled)
    {
      hide RunAll, Attempt, Step, Clocked, VerdictAt, FirstDone, TurnedAway, IsAttempt;
      ghost var r0, start := Run(View(), [], []), clock.now;
      events, attempts := [], [];
      NothingHappened(r0, start, shardID);
      if shardID < 0 {
        return InvalidShard, events, attempts;
      }
      var round := 0;
      while true
        invariant round <= |others| + 1 && |attempts| == round && Sound(View())
        invariant old(clock.now) <= clock.now && Explains(r0, start, events, clock.now)
        invariant others == [] ==> |attempts| == |events|
        invariant TurnedAway(r0, events, attempts, shardID)
        invariant round > |others| ==> GateOpen(View(), clock.now, shardID)
        invariant forall k | 0 <= k < 2 * round :: !done(k)
        decreases |others| + 1 - round
      {
        if done(2 * round) {
          DoneAt(done, 2 * round);
          return Cancelled, events, attempts;
        }
        var now := clock.Now();
        WaitOpensGate(View(), now, shardID);
        var v := TryAcquire(now, shardID);
        AttemptExplained(r0, start, events, now, shardID);
        TurnedAwayStill(r0, events, events + [Trying(now, shardID)], attempts, shardID);
        events := events + [Trying(now, shardID)];
        TurnedAwayOnce(r0, events, attempts, shardID);
        attempts := attempts + [|events| - 1];
        assert attempts[..round] + [|events| - 1] == attempts;
        if !v.GateClosed? {
          return if v.Granted? then Acquired else OutOfQuota(v.total, v.retryAfter), events, attempts;
        }
        clock.Wait(v.delay, !done(2 * round + 1));
        if done(2 * round + 1) {
          DoneAt(done, 2 * round + 1);
          return Cancelled, events, attempts;
        }
        if round < |others| {
          ghost var before := events;
          events := Interfere(clock, others[round], r0, start, events);
          TurnedAwayStill(r0, before, events, attempts, shardID);
        }
        round := round + 1;
      }
    }
  }

  /** A critical section of another caller. */
  datatype Other = OtherAcquire(shardID: nat) | OtherRefresh(limit: Limit) | OtherStatus

  /** The first look that finds a context done. */
  predicate FirstDone(done: nat -> bool, k: int) {
    k >= 0 && done(k) && forall n | 0 <= n < k :: !done(n)
  }

  lemma DoneAt(done: nat -> bool, k: nat)
    requires done(k) && forall n | 0 <= n < k :: !done(n)
    ensures FirstDone(done, k)
  {
  }

  predicate IsAttempt(events: seq<Event>, i: nat, shardID: int)
    requires i < |events|
  {
    events[i].Trying? && events[i].shardID == shardID
  }

  /** Attempts for a shard, each turned away at a closed gate. */
  predicate TurnedAway(r0: Run, events: seq<Event>, attempts: seq<nat>, shardID: int)
    requires Sound(r0.s)
  {
    forall i | i in attempts :: i < |events| && IsAttempt(events, i, shardID) && VerdictAt(r0, events, i).GateClosed?
  }

  lemma TurnedAwayStill(r0: Run, events: seq<Event>, events': seq<Event>, attempts: seq<nat>, shardID: int)
    requires Sound(r0.s) && TurnedAway(r0, events, attempts, shardID) && events <= events'
    ensures TurnedAway(r0, events', attempts, shardID)
  {
    forall i | i in attempts ensures i < |events'| && VerdictAt(r0, events', i) == VerdictAt(r0, events, i) {
      assert events'[..i] == events[..i];
    }
  }

  /** An attempt just made, turned away or not. */
  lemma TurnedAwayOnce(r0: Run, events: seq<Event>, attempts: seq<nat>, shardID: int)
    requires Sound(r0.s) && TurnedAway(r0, events, attempts, shardID) && events != []
    requires var e := events[|events| - 1]; e.Trying? && e.shardID == shardID
    ensures IsAttempt(events, |events| - 1, shardID)
    ensures VerdictAt(r0, events, |events| - 1).GateClosed? ==>
              TurnedAway(r0, events, attempts + [|events| - 1], shardID)
  {
  }

  lemma NothingHappened(r0: Run, start: int, shardID: int)
    requires Sound(r0.s)
    ensures RunAll(r0, []) == r0 && Clocked(start, []) && TurnedAway(r0, [], [], shardID)
  {
  }

  predicate GateOpen(s: State, now: int, shardID: nat)
    requires Sound(s)
  {
    var bucket := shardID % s.maxConcurrency;
    bucket in s.readyAt ==> s.readyAt[bucket] <= now
  }

  /** An attempt is turned away only at a gate that is not open yet, and not once the wait it asked for is over. */
  lemma WaitOpensGate(s: State, now: int, shardID: nat)
    requires Sound(s)
    ensures var (s', v) := Attempt(s, now, shardID);
            v.GateClosed? ==> !GateOpen(s, now, shardID) && GateOpen(s', now + v.delay, shardID)
  {
  }

  /** What the attempt at a place of a run was answered. */
  function VerdictAt(r0: Run, events: seq<Event>, i: nat): Verdict
    requires Sound(r0.s) && i < |events|
  {
    if events[i].Trying? then Attempt(RunAll(r0, events[..i]).s, events[i].now, events[i].shardID).1 else GateClosed(0)
  }

  lemma Explained(r0: Run, start: int, events: seq<Event>, e: Event)
    requires Sound(r0.s) && Clocked(start, events) && start <= e.now && forall x | x in events :: x.now <= e.now
    ensures RunAll(r0, events + [e]) == Step(RunAll(r0, events), e) && Clocked(start, events + [e])
  {
    assert (events + [e])[..|events|] == events;
  }

  lemma AttemptExplained(r0: Run, start: int, events: seq<Event>, now: int, shardID: nat)
    requires Sound(r0.s) && Clocked(start, events) && start <= now && forall x | x in events :: x.now <= now
    ensures var e := Trying(now, shardID);
            && RunAll(r0, events + [e]) == Step(RunAll(r0, events), e) && Clocked(start, events + [e])
            && RunAll(r0, events + [e]).s == Attempt(RunAll(r0, events).s, now, shardID).0
            && VerdictAt(r0, events + [e], |events|) == Attempt(RunAll(r0, events).s, now, shardID).1
  {
    Explained(r0, start, events, Trying(now, shardID));
    assert (events + [Trying(now, shardID)])[..|events|] == events;
  }

  // ---- The gates -----------------------------------------------------------------------------

  /** Grants in time order; two of one bucket at least a window apart; every gate is closed for a window after. */
  ghost predicate Gated(r: Run, n: int, now: int) {
    && r.s.maxConcurrency == n
    && (forall i | 0 <= i < |r.grants| :: GateHolds(r, r.grants[i], now))
    && (forall i, j | 0 <= i < j < |r.grants| :: Apart(r.grants[i], r.grants[j]))
  }

  ghost predicate GateHolds(r: Run, g: Grant, now: int) {
    && g.time <= now && g.bucket < r.s.maxConcurrency
    && g.bucket in r.s.readyAt && g.time + CONCURRENCY_WINDOW <= r.s.readyAt[g.bucket]
  }

  predicate Apart(g: Grant, h: Grant) {
    g.time <= h.time && (g.bucket == h.bucket ==> g.time + CONCURRENCY_WINDOW <= h.time)
  }

  predicate KeepsConcurrency(e: Event, n: int) {
    e.Refreshing? ==> e.limit.maxConcurrency == n
  }

  lemma StepGated(r: Run, n: int, now: int, e: Event)
    requires Sound(r.s) && Gated(r, n, now) && now <= e.now && KeepsConcurrency(e, n)
    ensures Gated(Step(r, e), n, e.now)
  {
    var r' := Step(r, e);
    forall i | 0 <= i < |r'.grants| ensures GateHolds(r', r'.grants[i], e.now) {
      if i < |r.grants| {
        assert GateHolds(r, r.grants[i], now);
      }
    }
    forall i, j | 0 <= i < j < |r'.grants| ensures Apart(r'.grants[i], r'.grants[j]) {
      assert GateHolds(r, r.grants[i], now);
      if j < |r.grants| {
        assert Apart(r.grants[i], r.grants[j]);
      }
    }
  }

  lemma {:induction false} RunGated(limit: Limit, start: int, events: seq<Event>)
    requires ValidateLimit(limit).None? && Clocked(start, events)
    requires forall e | e in events :: KeepsConcurrency(e, limit.maxConcurrency)
    ensures Gated(RunAll(Start(limit, start), events), limit.maxConcurrency,
                  if events == [] then start else events[|events| - 1].now)
  {
    if events != [] {
      RunGated(limit, start, events[..|events| - 1]);
      var before := events[..|events| - 1];
      StepGated(RunAll(Start(limit, start), before), limit.maxConcurrency,
                if before == [] then start else before[|before| - 1].now, events[|events| - 1]);
    }
  }

  /** Grants fewer than a window apart go to different buckets, so there are at most n of them. */
  lemma GatesSpaceGrants(grants: seq<Grant>, n: nat)
    requires forall i | 0 <= i < |grants| :: grants[i].bucket < n
    requires forall i, j | 0 <= i < j < |grants| :: Apart(grants[i], grants[j])
    ensures Spaced(GrantTimes(grants), n, CONCURRENCY_WINDOW)
  {
    forall i: nat | i + n < |grants| ensures SpacedAt(GrantTimes(grants), i, n, CONCURRENCY_WINDOW) {
      if grants[i].time + CONCURRENCY_WINDOW > grants[i + n].time {
        var buckets := seq(n + 1, k requires 0 <= k <= n => grants[i + k].bucket);
        forall a, b | 0 <= a < b < |buckets| ensures buckets[a] != buckets[b] {
          assert Apart(grants[i + a], grants[i + b]);
          assert a > 0 ==> Apart(grants[i], grants[i + a]);
          assert b < n ==> Apart(grants[i + b], grants[i + n]);
        }
        Pigeonhole(buckets, n);
      }
    }
  }

  /**
   While max_concurrency stays the same: two grants to one bucket are five seconds apart, any half-open five-second
   interval holds at most max_concurrency grants, and the quota stays between zero and the total.
   */
  lemma GrantsAreGated(limit: Limit, start: int, events: seq<Event>, from: int)
    requires ValidateLimit(limit).None? && Clocked(start, events)
    requires forall e | e in events :: KeepsConcurrency(e, limit.maxConcurrency)
    ensures var r := RunAll(Start(limit, start), events);
            && (forall i, j | 0 <= i < j < |r.grants| && r.grants[i].bucket == r.grants[j].bucket ::
                  r.grants[i].time + CONCURRENCY_WINDOW <= r.grants[j].time)
            && CountWithin(GrantTimes(r.grants), from, from + CONCURRENCY_WINDOW) <= limit.maxConcurrency
            && 0 <= r.s.remaining <= r.s.total
  {
    RunGated(limit, start, events);
    var r := RunAll(Start(limit, start), events);
    var now := if events == [] then start else events[|events| - 1].now;
    forall i | 0 <= i < |r.grants| ensures r.grants[i].bucket < limit.maxConcurrency {
      assert GateHolds(r, r.grants[i], now);
    }
    forall i, j | 0 <= i < j < |r.grants| && r.grants[i].bucket == r.grants[j].bucket
      ensures r.grants[i].time + CONCURRENCY_WINDOW <= r.grants[j].time
    {
      assert Apart(r.grants[i], r.grants[j]);
    }
    GatesSpaceGrants(r.grants, limit.maxConcurrency);
    var times := GrantTimes(r.grants);
    forall i, j | 0 <= i <= j < |times| ensures times[i] <= times[j] {
      assert i < j ==> Apart(r.grants[i], r.grants[j]);
    }
    SpacingBoundsCount(times, limit.maxConcurrency, CONCURRENCY_WINDOW, from);
  }

  /** A successful Refresh among the events gives another max_concurrency. */
  predicate ChangesConcurrency(events: seq<Event>, n: int) {
    events != [] &&
      var e := events[|events| - 1];
      ChangesConcurrency(events[..|events| - 1], n)
      || (e.Refreshing? && ValidateLimit(e.limit).None? && e.limit.maxConcurrency != n)
  }

  /** Status reads and Refreshes leave the gates alone, or forget them all once max_concurrency changes. */
  lemma {:induction false} GatesAfter(r: Run, events: seq<Event>)
    requires Sound(r.s) && forall e | e in events :: !e.Trying?
    ensures var s := RunAll(r, events).s;
            if ChangesConcurrency(events, r.s.maxConcurrency) then s.readyAt == map[]
            else s.readyAt == r.s.readyAt && s.maxConcurrency == r.s.maxConcurrency
  {
    if events != [] {
      GatesAfter(r, events[..|events| - 1]);
    }
  }

  /**
   After a grant to a shard, and whatever status reads and Refreshes follow, an attempt for the same shard within five
   seconds that the quota allows is granted exactly when one of the Refreshes changed max_concurrency.
   */
  lemma ChangedConcurrencyOpensGates(r: Run, shardID: nat, granted: int, events: seq<Event>, now: int)
    requires Sound(r.s) && Attempt(r.s, granted, shardID).1.Granted?
    requires (forall e | e in events :: !e.Trying?) && now < granted + CONCURRENCY_WINDOW
    ensures var v := Attempt(RunAll(Step(r, Trying(granted, shardID)), events).s, now, shardID).1;
            !v.QuotaExhausted? ==> (v.Granted? <==> ChangesConcurrency(events, r.s.maxConcurrency))
  {
    GatesAfter(Step(r, Trying(granted, shardID)), events);
  }

  /** One Refresh, with quota left, in between: two grants to one shard are then as close as one pleases. */
  lemma OneRefreshOpensGates(s: State, shardID: nat, granted: int, limit: Limit, refreshed: int, now: int)
    requires Sound(s) && Attempt(s, granted, shardID).1.Granted?
    requires ValidateLimit(limit).None? && limit.remaining > 0
    requires granted <= refreshed <= now < granted + CONCURRENCY_WINDOW
    ensures Attempt(Refresh(Attempt(s, granted, shardID).0, limit, refreshed).0, now, shardID).1.Granted?
            <==> limit.maxConcurrency != s.maxConcurrency
  {
  }

  /** Such a run: the grants of one bucket at one time. */
  lemma GrantsAtOneTime(now: int)
    ensures var r := RunAll(Start(Limit(10, 10, 1000, 1), now),
                            [Trying(now, 0), Refreshing(now, Limit(10, 10, 1000, 2)), Trying(now, 0)]);
            r.grants == [Grant(now, 0), Grant(now, 0)]
  {
    var events := [Trying(now, 0), Refreshing(now, Limit(10, 10, 1000, 2)), Trying(now, 0)];
    var r0 := Start(Limit(10, 10, 1000, 1), now);
    assert events[..2] == [events[0], events[1]] && events[..2][..1] == [events[0]] && events[..2][..1][..0] == [];
    assert RunAll(r0, events[..2][..1]) == Step(r0, events[0]);
    assert RunAll(r0, events[..2]) == Step(Step(r0, events[0]), events[1]);
  }

  // ---- The reported quota ----------------------------------------------------------------------

  predicate BeforeReset(events: seq<Event>, resetAt: int) {
    forall i | 0 <= i < |events| :: events[i].now < resetAt && (events[i].Refreshing? ==> ValidateLimit(events[i].limit).Some?)
  }

  /** Until the next reset, and with no new limit, every grant takes one of what remains. */
  lemma {:induction false} GrantsTakeRemaining(r: Run, events: seq<Event>)
    requires Sound(r.s) && BeforeReset(events, r.s.resetAt)
    ensures var r' := RunAll(r, events);
            && |r'.grants| - |r.grants| + r'.s.remaining == r.s.remaining
            && r'.s.(remaining := r.s.remaining, readyAt := r.s.readyAt) == r.s
  {
    if events != [] {
      GrantsTakeRemaining(r, events[..|events| - 1]);
      assert forall i | 0 <= i < |events| - 1 :: events[..|events| - 1][i] == events[i];
    }
  }

  /**
   The quota that Discord reported is spent exactly: from a Refresh at one time until its reset time, the grants and what
   remains add up to the reported remaining, so no more are granted, and an attempt is refused for quota exactly when
   that many have been. It is told to come back at the reset time.
   */
  lemma ReportedQuotaIsSpent(r: Run, limit: Limit, loaded: int, events: seq<Event>, now: int, shardID: nat)
    requires Sound(r.s) && ValidateLimit(limit).None?
    requires var resetAt := loaded + limit.resetAfter * 1_000_000; BeforeReset(events, resetAt) && now < resetAt
    ensures var after := RunAll(Step(r, Refreshing(loaded, limit)), events);
            var granted := |after.grants| - |r.grants|;
            var v := Attempt(after.s, now, shardID).1;
            && after.s.remaining == limit.remaining - granted
            && 0 <= granted <= limit.remaining
            && (v.QuotaExhausted? <==> granted == limit.remaining)
            && (v.QuotaExhausted? ==> v == QuotaExhausted(limit.total, loaded + limit.resetAfter * 1_000_000 - now))
  {
    GrantsTakeRemaining(Step(r, Refreshing(loaded, limit)), events);
  }

  /** The same from the start of a coordinator. */
  lemma LoadedQuotaIsSpent(limit: Limit, loaded: int, events: seq<Event>, now: int, shardID: nat)
    requires ValidateLimit(limit).None?
    requires var resetAt := loaded + limit.resetAfter * 1_000_000; BeforeReset(events, resetAt) && now < resetAt
    ensures var after := RunAll(Start(limit, loaded), events);
            var v := Attempt(after.s, now, shardID).1;
            && after.s.remaining == limit.remaining - |after.grants|
            && (v.QuotaExhausted? <==> |after.grants| == limit.remaining)
            && (v.QuotaExhausted? ==> v == QuotaExhausted(limit.total, loaded + limit.resetAfter * 1_000_000 - now))
            && Status(after.s, now) == (after.s, loaded + limit.resetAfter * 1_000_000 - now)
  {
    GrantsTakeRemaining(Start(limit, loaded), events);
  }

  /** From the reset time on the whole total is there, and the next reset is a full window later. */
  lemma ResetRestoresTotal(limit: Limit, loaded: int, events: seq<Event>, now: int, shardID: nat)
    requires ValidateLimit(limit).None?
    requires var resetAt := loaded + limit.resetAfter * 1_000_000; BeforeReset(events, resetAt) && now >= resetAt
    ensures var s := RunAll(Start(limit, loaded), events).s;
            && !Attempt(s, now, shardID).1.QuotaExhausted?
            && Status(s, now).0.remaining == limit.total && Status(s, now).1 == limit.resetAfter * 1_000_000
  {
    GrantsTakeRemaining(Start(limit, loaded), events);
  }

  /** An attempt refused for quota is refused at every time before the one it is told to come back at, and not then. */
  lemma RetryAfterIsExact(s: State, now: int, later: int, shardID: nat)
    requires Sound(s) && Attempt(s, now, shardID).1.QuotaExhausted? && now <= later
    ensures var (s', v) := Attempt(s, now, shardID);
            Attempt(s', later, shardID).1.QuotaExhausted? <==> later < now + v.retryAfter
  {
  }

  // ---- The quota -----------------------------------------------------------------------------

  /** Charges stay inside the quota: what the current window was charged and what remains never exceed the total. */
  ghost predicate Charged(r: Run, total: nat, window: int, now: int) {
    var start := r.s.resetAt - r.s.resetWindow;
    && r.s.total == total && r.s.resetWindow == window && start <= now
    && Budgeted(r.charges, total, window)
    && ChargedTo(r.charges, start) + r.s.remaining <= total
    && (r.charges != [] ==> Precedes(r.charges[|r.charges| - 1], Charge(now, start), window))
  }

  lemma StepCharged(r: Run, total: nat, window: int, now: int, e: Event)
    requires Sound(r.s) && Charged(r, total, window, now) && now <= e.now && !e.Refreshing?
    ensures Charged(Step(r, e), total, window, e.now)
  {
    hide Charged;
    ResetCharged(r, total, window, now, e.now);
    var r1 := r.(s := ResetQuota(r.s, e.now));
    if e.Trying? && Attempt(r.s, e.now, e.shardID).1.Granted? {
      var bucket := e.shardID % r1.s.maxConcurrency;
      GrantCharged(r1, total, window, e.now, bucket);
      assert Step(r, e) == AfterGrant(r1, e.now, bucket);
    } else {
      assert Step(r, e) == r1;
    }
  }

  function AfterGrant(r: Run, now: int, bucket: nat): Run {
    Run(r.s.(remaining := r.s.remaining - 1, readyAt := r.s.readyAt[bucket := now + CONCURRENCY_WINDOW]),
        r.grants + [Grant(now, bucket)],
        r.charges + [Charge(now, r.s.resetAt - r.s.resetWindow)])
  }

  /** A due reset opens a window that nothing was charged to. */
  lemma ResetCharged(r: Run, total: nat, window: int, now: int, later: int)
    requires Sound(r.s) && Charged(r, total, window, now) && now <= later
    ensures Charged(r.(s := ResetQuota(r.s, later)), total, window, later)
  {
    var start := r.s.resetAt - r.s.resetWindow;
    if r.s.resetAt <= later {
      assert start + window <= later;
      assert r.charges != [] ==> r.charges[|r.charges| - 1].start != later;
    }
  }

  lemma GrantCharged(r: Run, total: nat, window: int, now: int, bucket: nat)
    requires Sound(r.s) && Charged(r, total, window, now) && now < r.s.resetAt && r.s.remaining > 0
    ensures Charged(AfterGrant(r, now, bucket), total, window, now)
  {
    var start := r.s.resetAt - r.s.resetWindow;
    ChargeKeepsBudget(r.charges, total, window, now, start);
    ghost var after := AfterGrant(r, now, bucket);
    assert after.charges == r.charges + [Charge(now, start)];
    assert after.charges[|after.charges| - 1] == Charge(now, start);
    assert after.s.resetAt - after.s.resetWindow == start && after.s.remaining == r.s.remaining - 1;
  }

  lemma {:induction false} RunCharged(limit: Limit, start: int, events: seq<Event>)
    requires ValidateLimit(limit).None? && Clocked(start, events)
    requires forall e | e in events :: !e.Refreshing?
    ensures Charged(RunAll(Start(limit, start), events), limit.total, limit.resetAfter * MILLISECOND,
                    if events == [] then start else events[|events| - 1].now)
  {
    if events != [] {
      var before := events[..|events| - 1];
      RunCharged(limit, start, before);
      StepCharged(RunAll(Start(limit, start), before), limit.total, limit.resetAfter * MILLISECOND,
                  if before == [] then start else before[|before| - 1].now, events[|events| - 1]);
    }
  }

  /**
   Without Refresh at most total grants fall between two quota resets, resets are a full window apart, and so any
   interval of one reset window holds at most twice the total.
   */
  lemma GrantsStayInQuota(limit: Limit, start: int, events: seq<Event>, from: int)
    requires ValidateLimit(limit).None? && Clocked(start, events)
    requires forall e | e in events :: !e.Refreshing?
    ensures var charges, window := RunAll(Start(limit, start), events).charges, limit.resetAfter * MILLISECOND;
            && Budgeted(charges, limit.total, window)
            && (forall m | 0 <= m < |charges| ::
                  CountWithin(Times(charges), charges[m].start, charges[m].start + window) <= limit.total)
            && CountWithin(Times(charges), from, from + window) <= 2 * limit.total
  {
    hide RunAll, CountWithin;
    RunCharged(limit, start, events);
    hide Budgeted;
    var charges := RunAll(Start(limit, start), events).charges;
    var window := limit.resetAfter * MILLISECOND;
    assert Budgeted(charges, limit.total, window);
    BudgetBoundsAnyInterval(charges, limit.total, window, from);
    forall m | 0 <= m < |charges|
      ensures CountWithin(Times(charges), charges[m].start, charges[m].start + window) <= limit.total
    {
      BudgetBoundsWindow(charges, limit.total, window, m);
    }
  }
}
