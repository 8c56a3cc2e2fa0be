/**
 The proactive global budget of the REST limiter (ratelimit.go): at most GlobalRateLimit reservations in a window that
 opens with the first look at the clock after the previous window ended.
 */
module GlobalBudget {
  import opened Base
  import opened Windows

  const DEFAULT_WINDOW := 1_000_000_000

  /** GlobalRateLimit and GlobalRateWindow. A limit that is not positive switches the budget off. */
  datatype Config = Config(limit: int, rateWindow: int) {
    function Window(): (w: int)
      ensures w > 0
    {
      if rateWindow <= 0 then DEFAULT_WINDOW else rateWindow
    }
  }

  /** The state of the budget: when the window opened, if one did, and how many requests it has taken. */
  datatype Budget = Budget(windowStart: Option<int>, requests: int)

  const Fresh := Budget(None, 0)

  /** resetGlobalWindowLocked: a window that is over makes way for one that opens now. */
  function Roll(c: Config, b: Budget, now: int): Budget {
    if b.windowStart.None? || now - b.windowStart.value >= c.Window() then Budget(Some(now), 0) else b
  }

  predicate Full(c: Config, b: Budget) {
    c.limit > 0 && b.requests >= c.limit
  }

  /** How long until the window of a full budget is over. */
  function TimeLeft(c: Config, b: Budget, now: int): int
    requires b.windowStart.Some?
  {
    var wait := b.windowStart.value + c.Window() - now;
    if wait < 0 then 0 else wait
  }

  datatype Event = Check(now: int) | Reserve(now: int)

  function Next(c: Config, b: Budget, e: Event): Budget {
    var rolled := Roll(c, b, e.now);
    if e.Reserve? && c.limit > 0 && !Full(c, rolled) then rolled.(requests := rolled.requests + 1) else rolled
  }

  /** The wait that a check or a refused reservation answers; 0 when there is room. */
  function WaitFor(c: Config, b: Budget, now: int): int {
    var rolled := Roll(c, b, now);
    if Full(c, rolled) then TimeLeft(c, rolled, now) else 0
  }

  class GlobalLimiter {
    const config: Config
    var windowStart: Option<int>
    var requests: int

    constructor (config: Config)
      ensures this.config == config && View() == Fresh
    {
      this.config := config;
      windowStart, requests := None, 0;
    }

    function View(): Budget
      reads this
    {
      Budget(windowStart, requests)
    }

    method ResetGlobalWindow(now: int)
      modifies this
      ensures View() == Roll(config, old(View()), now)
    {
      if windowStart.None? || now - windowStart.value >= config.Window() {
        windowStart := Some(now);
        requests := 0;
      }
    }

    method ProactiveGlobalWait(now: int) returns (wait: int)
      modifies this
      ensures View() == Next(config, old(View()), Check(now)) && wait == WaitFor(config, old(View()), now)
    {
      ResetGlobalWindow(now);
      if config.limit <= 0 || requests < config.limit {
        return 0;
      }
      wait := windowStart.value + config.Window() - now;
      if wait < 0 {
        wait := 0;
      }
    }

    method ReserveGlobalRequest(now: int) returns (wait: int, reserved: bool)
      modifies this
      ensures View() == Next(config, old(View()), Reserve(now)) && wait == WaitFor(config, old(View()), now)
      ensures reserved <==> !Full(config, Roll(config, old(View()), now))
    {
      ResetGlobalWindow(now);
      if config.limit <= 0 {
        return 0, true;
      }
      if requests >= config.limit {
        wait := windowStart.value + config.Window() - now;
        if wait < 0 {
          wait := 0;
        }
        return wait, false;
      }
      requests := requests + 1;
      return 0, true;
    }
  }

  // ---- Single steps --------------------------------------------------------------------------

  /**
   A full budget always asks for a positive wait, no longer than a window, and a wait that long makes room if no one
   else takes it; a budget that asks for no wait grants.
   */
  lemma WaitIsExact(c: Config, b: Budget, now: int, later: int)
    requires b.windowStart.Some? ==> b.windowStart.value <= now
    ensures WaitFor(c, b, now) > 0 <==> Full(c, Roll(c, b, now))
    ensures WaitFor(c, b, now) <= c.Window()
    ensures later >= now + WaitFor(c, b, now) ==> !Full(c, Roll(c, Next(c, b, Check(now)), later))
    ensures now <= later < now + WaitFor(c, b, now) ==> Full(c, Roll(c, Next(c, b, Check(now)), later))
  {
  }

  /** The configured window when it is positive, a second otherwise. */
  lemma WindowLength(c: Config)
    ensures c.rateWindow > 0 ==> c.Window() == c.rateWindow
    ensures c.rateWindow <= 0 ==> c.Window() == 1_000_000_000
  {
  }

  /** Without a limit nothing waits and everything is reserved. */
  lemma NoLimitNoBudget(c: Config, b: Budget, now: int)
    requires c.limit <= 0
    ensures WaitFor(c, b, now) == 0 && !Full(c, Roll(c, b, now))
  {
  }

  // ---- Runs ------------------------------------------------------------------------------------

  function TimesOf(events: seq<Event>): (r: seq<int>)
    ensures |r| == |events| && forall i | 0 <= i < |events| :: r[i] == events[i].now
  {
    seq(|events|, i requires 0 <= i < |events| => events[i].now)
  }

  function After(c: Config, events: seq<Event>): Budget {
    if events == [] then Fresh else Next(c, After(c, events[..|events| - 1]), events[|events| - 1])
  }

  /** The reservations granted, each with the window it was charged to. */
  function Granted(c: Config, events: seq<Event>): seq<Charge> {
    if events == [] then []
    else
      var rest, e := events[..|events| - 1], events[|events| - 1];
      Granted(c, rest) + Grant(c, Roll(c, After(c, rest), e.now), e)
  }

  /** What one event adds to the grants, in a window that covers it. */
  function Grant(c: Config, rolled: Budget, e: Event): seq<Charge>
    requires rolled.windowStart.Some?
  {
    if e.Reserve? && !Full(c, rolled) then [Charge(e.now, rolled.windowStart.value)] else []
  }

  /** The counter is the number of reservations charged to the current window. */
  ghost predicate Consistent(c: Config, b: Budget, log: seq<Charge>, now: int)
    requires c.limit > 0
  {
    && Budgeted(log, c.limit, c.Window())
    && (b.windowStart.None? ==> log == [])
    && (b.windowStart.Some? ==>
          var start := b.windowStart.value;
          && b.requests == ChargedTo(log, start) && start <= now
          && (log != [] ==>
                var last := log[|log| - 1];
                last.time <= now && (last.start == start || last.start + c.Window() <= start)))
  }

  lemma {:induction false} RunIsConsistent(c: Config, events: seq<Event>, now: int)
    requires c.limit > 0 && Nondecreasing(TimesOf(events) + [now])
    ensures Consistent(c, After(c, events), Granted(c, events), now)
  {
    if events != [] {
      var rest, e := events[..|events| - 1], events[|events| - 1];
      var times := TimesOf(events) + [now];
      assert TimesOf(rest) + [e.now] == times[..|events|];
      RunIsConsistent(c, rest, e.now);
      RollIsConsistent(c, After(c, rest), Granted(c, rest), e.now);
      GrantIsConsistent(c, Roll(c, After(c, rest), e.now), Granted(c, rest), e);
      assert times[|events| - 1] <= times[|events|];
      ConsistentLater(c, After(c, events), Granted(c, events), e.now, now);
    }
  }

  lemma ConsistentLater(c: Config, b: Budget, log: seq<Charge>, was: int, now: int)
    requires c.limit > 0 && Consistent(c, b, log, was) && was <= now
    ensures Consistent(c, b, log, now)
  {
  }

  lemma GrantIsConsistent(c: Config, rolled: Budget, log: seq<Charge>, e: Event)
    requires c.limit > 0 && Consistent(c, rolled, log, e.now)
    requires rolled.windowStart.Some? && e.now < rolled.windowStart.value + c.Window()
    ensures Consistent(c, Next(c, rolled, e), log + Grant(c, rolled, e), e.now)
  {
    if e.Reserve? && !Full(c, rolled) {
      ChargeKeepsBudget(log, c.limit, c.Window(), e.now, rolled.windowStart.value);
    } else {
      assert log + Grant(c, rolled, e) == log;
    }
  }

  lemma RollIsConsistent(c: Config, b: Budget, log: seq<Charge>, now: int)
    requires c.limit > 0 && Consistent(c, b, log, now)
    ensures Consistent(c, Roll(c, b, now), log, now)
  {
    if log != [] {
      var last := log[|log| - 1];
      assert last.start <= last.time < last.start + c.Window();
    }
  }

  lemma GrantsAreBudgeted(c: Config, events: seq<Event>)
    requires c.limit > 0 && Nondecreasing(TimesOf(events))
    ensures Budgeted(Granted(c, events), c.limit, c.Window())
  {
    var now := if events == [] then 0 else events[|events| - 1].now;
    RunIsConsistent(c, events, now);
  }

  /** At most the limit in any window, whatever the interleaving of checks and reservations. */
  lemma AtMostLimitPerWindow(c: Config, events: seq<Event>, m: nat)
    requires c.limit > 0 && Nondecreasing(TimesOf(events)) && m < |Granted(c, events)|
    ensures var log := Granted(c, events);
            CountWithin(Times(log), log[m].start, log[m].start + c.Window()) <= c.limit
  {
    GrantsAreBudgeted(c, events);
    BudgetBoundsWindow(Granted(c, events), c.limit, c.Window(), m);
  }

  /** At most twice the limit in any half-open interval of one window length. */
  lemma AtMostTwiceTheLimit(c: Config, events: seq<Event>, from: int)
    requires c.limit > 0 && Nondecreasing(TimesOf(events))
    ensures CountWithin(Times(Granted(c, events)), from, from + c.Window()) <= 2 * c.limit
  {
    GrantsAreBudgeted(c, events);
    BudgetBoundsAnyInterval(Granted(c, events), c.limit, c.Window(), from);
  }

  /** A reservation is refused exactly when the whole budget of the current window has been granted. */
  lemma RefusedExactlyWhenSpent(c: Config, events: seq<Event>, now: int)
    requires c.limit > 0 && Nondecreasing(TimesOf(events) + [now])
    ensures var rolled := Roll(c, After(c, events), now);
            var log, start := Granted(c, events), rolled.windowStart.value;
            && start <= now < start + c.Window()
            && (Full(c, rolled) <==> CountWithin(Times(log), start, start + c.Window()) >= c.limit)
  {
    hide Granted, After, ChargedTo, CountWithin, Budgeted;
    RunIsConsistent(c, events, now);
    RollIsConsistent(c, After(c, events), Granted(c, events), now);
    ChargedIsCounted(Granted(c, events), c.limit, c.Window(), Roll(c, After(c, events), now).windowStart.value);
  }

  // ---- Twice the limit is reached -------------------------------------------------------------

  function Repeat<T>(x: T, n: nat): (r: seq<T>)
    ensures |r| == n && forall i | 0 <= i < n :: r[i] == x
  {
    seq(n, i => x)
  }

  lemma RepeatStep<T>(x: T, n: nat)
    ensures Repeat(x, n + 1) == Repeat(x, n) + [x]
  {
  }

  /** The whole budget late in one window, and the whole budget at the start of the next. */
  function Burst(c: Config): seq<Event>
    requires c.limit > 0
  {
    [Check(0)] + Repeat(Reserve(c.Window() - 1), c.limit) + Repeat(Reserve(c.Window()), c.limit)
  }

  lemma BurstIsOrdered(c: Config)
    requires c.limit > 0
    ensures Nondecreasing(TimesOf(Burst(c)))
  {
    var w, burst := c.Window(), Burst(c);
    assert forall i | 0 <= i < |burst| :: burst[i].now == if i == 0 then 0 else if i <= c.limit then w - 1 else w;
  }

  /** n reservations at one time, in a window that has room for them, are all granted. */
  lemma {:induction false} ReservationsInARow(c: Config, events: seq<Event>, now: int, start: int, k: nat, n: nat)
    requires Roll(c, After(c, events), now) == Budget(Some(start), k) && k + n <= c.limit
    ensures var more := events + Repeat(Reserve(now), n);
            && Roll(c, After(c, more), now) == Budget(Some(start), k + n)
            && Times(Granted(c, more)) == Times(Granted(c, events)) + Repeat(now, n)
  {
    var more := events + Repeat(Reserve(now), n);
    if n == 0 {
      assert more == events;
    } else {
      ReservationsInARow(c, events, now, start, k, n - 1);
      var rest := events + Repeat(Reserve(now), n - 1);
      RepeatStep(Reserve(now), n - 1);
      RepeatStep(now, n - 1);
      var times := Times(Granted(c, events));
      assert times + Repeat(now, n) == times + Repeat(now, n - 1) + [now];
      assert more == rest + [Reserve(now)];
      LastEvent(c, rest, Reserve(now));
      OneReservation(c, After(c, rest), now, start, k + n - 1);
    }
  }

  lemma LastEvent(c: Config, rest: seq<Event>, e: Event)
    ensures After(c, rest + [e]) == Next(c, After(c, rest), e)
    ensures Times(Granted(c, rest + [e])) == Times(Granted(c, rest)) + Times(Grant(c, Roll(c, After(c, rest), e.now), e))
  {
    assert (rest + [e])[..|rest|] == rest;
  }

  lemma OneReservation(c: Config, b: Budget, now: int, start: int, k: nat)
    requires Roll(c, b, now) == Budget(Some(start), k) && k < c.limit
    ensures Roll(c, Next(c, b, Reserve(now)), now) == Budget(Some(start), k + 1)
    ensures Grant(c, Roll(c, b, now), Reserve(now)) == [Charge(now, start)]
  {
  }

  lemma {:induction false} CountEqual(times: seq<int>, time: int, n: nat, from: int, to: int)
    requires from <= time < to
    ensures CountWithin(times + Repeat(time, n), from, to) == CountWithin(times, from, to) + n
  {
    if n == 0 {
      assert times + Repeat(time, n) == times;
    } else {
      CountEqual(times, time, n - 1, from, to);
      assert times + Repeat(time, n) == times + Repeat(time, n - 1) + [time];
      CountAppend(times + Repeat(time, n - 1), time, from, to);
    }
  }

  /** The full window of a burst ends when its second half begins. */
  lemma WindowTurns(c: Config, b: Budget)
    requires c.limit > 0 && c.Window() > 1 && Roll(c, b, c.Window() - 1) == Budget(Some(0), c.limit)
    ensures Roll(c, b, c.Window()) == Budget(Some(c.Window()), 0)
  {
  }

  /** Every reservation of a burst is granted. */
  lemma BurstIsGranted(c: Config)
    requires c.limit > 0 && c.Window() > 1
    ensures Times(Granted(c, Burst(c))) == Repeat(c.Window() - 1, c.limit) + Repeat(c.Window(), c.limit)
  {
    var w := c.Window();
    var opening := [Check(0)];
    assert [] + opening == opening;
    LastEvent(c, [], Check(0));
    ReservationsInARow(c, opening, w - 1, 0, 0, c.limit);
    var first := opening + Repeat(Reserve(w - 1), c.limit);
    WindowTurns(c, After(c, first));
    ReservationsInARow(c, first, w, w, 0, c.limit);
  }

  /** The bound of AtMostTwiceTheLimit is attained for every limit, in every window longer than one tick. */
  lemma TwiceTheLimitIsReached(c: Config)
    requires c.limit > 0 && c.Window() > 1
    ensures Nondecreasing(TimesOf(Burst(c)))
    ensures var from := c.Window() - 1;
            CountWithin(Times(Granted(c, Burst(c))), from, from + c.Window()) == 2 * c.limit
  {
    var w, n := c.Window(), c.limit;
    BurstIsOrdered(c);
    BurstIsGranted(c);
    CountEqual([], w - 1, n, w - 1, w - 1 + w);
    assert [] + Repeat(w - 1, n) == Repeat(w - 1, n);
    CountEqual(Repeat(w - 1, n), w, n, w - 1, w - 1 + w);
  }
}
