/**
 The rolling budget of invalid requests (ratelimit.go): the times of the 401, 403 and 429 responses of the last window,
 the breaker that blocks requests once they reach the limit, and the warning that is given once per crossing.
 */
module InvalidRequests {
  import opened Base
  import opened Windows

  const DEFAULT_WINDOW := 600_000_000_000

  datatype Config = Config(limit: int, warningThreshold: int, invalidWindow: int) {
    function Window(): (w: int)
      ensures w > 0
    {
      if invalidWindow <= 0 then DEFAULT_WINDOW else invalidWindow
    }

    /** 0 when the breaker is off, else a threshold between 1 and the limit. */
    function Threshold(): (t: int)
      ensures if limit <= 0 then t == 0 else 1 <= t <= limit
      ensures limit > 0 ==> t == if 0 < warningThreshold <= limit then warningThreshold else limit
    {
      if limit <= 0 then 0
      else if warningThreshold <= 0 || warningThreshold > limit then limit
      else warningThreshold
    }
  }

  datatype Status = Status(count: int, resetAfter: int, warning: bool, warningTriggered: bool, blocked: bool)

  predicate IsInvalid(code: int) {
    code == 401 || code == 403 || code == 429
  }

  /** The configured window when it is positive, ten minutes otherwise. */
  lemma WindowLength(c: Config)
    ensures c.invalidWindow > 0 ==> c.Window() == c.invalidWindow
    ensures c.invalidWindow <= 0 ==> c.Window() == 600_000_000_000
  {
  }

  /** Unauthorized, Forbidden and Too Many Requests count. */
  lemma InvalidCodes(code: int)
    ensures IsInvalid(code) <==> code in {401, 403, 429}
  {
  }

  class InvalidRequestTracker {
    const config: Config
    var invalidRequests: seq<int>
    var invalidWarned: bool

    constructor (config: Config)
      ensures this.config == config && View() == Tracker([], false)
    {
      this.config := config;
      invalidRequests, invalidWarned := [], false;
    }

    function View(): Tracker
      reads this
    {
      Tracker(invalidRequests, invalidWarned)
    }

    /** The times at the front that are not after the cutoff go. */
    method Prune(now: int)
      modifies this
      ensures View() == Pruned(config, old(View()), now)
    {
      var cutoff := now - config.Window();
      var first := 0;
      while first < |invalidRequests| && !(invalidRequests[first] > cutoff)
        invariant first <= |invalidRequests|
        invariant DropOld(invalidRequests, cutoff) == DropOld(invalidRequests[first..], cutoff)
      {
        assert invalidRequests[first..][1..] == invalidRequests[first + 1..];
        first := first + 1;
      }
      if first > 0 {
        invalidRequests := invalidRequests[first..];
      }
      if |invalidRequests| < config.Threshold() {
        invalidWarned := false;
      }
    }

    /** The time left is measured by a second look at the clock. */
    method StatusAt(later: int, updateWarning: bool) returns (status: Status)
      modifies this
      ensures (View(), status) == Reported(config, old(View()), later, updateWarning)
    {
      var count := |invalidRequests|;
      var threshold := config.Threshold();
      status := Status(count, 0, threshold > 0 && count >= threshold, false, config.limit > 0 && count >= config.limit);
      if count > 0 {
        status := status.(resetAfter := invalidRequests[0] + config.Window() - later);
        if status.resetAfter < 0 {
          status := status.(resetAfter := 0);
        }
      }
      if updateWarning && status.warning && !invalidWarned {
        status := status.(warningTriggered := true);
        invalidWarned := true;
      }
    }

    method RecordResponse(code: int, now: int, later: int) returns (status: Status)
      modifies this
      ensures (View(), status) == Step(config, old(View()), Response(code, now, later))
    {
      Prune(now);
      if IsInvalid(code) {
        invalidRequests := invalidRequests + [now];
      }
      status := StatusAt(later, true);
    }

    /** InvalidRequestStatus, which CheckInvalidRequestLimit turns into an error when it is blocked. */
    method CurrentStatus(now: int, later: int) returns (status: Status)
      modifies this
      ensures (View(), status) == Step(config, old(View()), Query(now, later))
    {
      Prune(now);
      status := StatusAt(later, false);
    }
  }

  // ---- The steps as functions -----------------------------------------------------------------

  datatype Tracker = Tracker(times: seq<int>, warned: bool)

  datatype Event = Response(code: int, now: int, later: int) | Query(now: int, later: int)

  function DropOld(times: seq<int>, cutoff: int): seq<int> {
    if times == [] || times[0] > cutoff then times else DropOld(times[1..], cutoff)
  }

  function Pruned(c: Config, t: Tracker, now: int): Tracker {
    var times := DropOld(t.times, now - c.Window());
    Tracker(times, t.warned && |times| >= c.Threshold())
  }

  function Reported(c: Config, t: Tracker, later: int, updateWarning: bool): (Tracker, Status) {
    var count := |t.times|;
    var warning := c.Threshold() > 0 && count >= c.Threshold();
    var triggered := updateWarning && warning && !t.warned;
    var resetAfter := if count == 0 || t.times[0] + c.Window() - later < 0 then 0 else t.times[0] + c.Window() - later;
    (t.(warned := t.warned || triggered), Status(count, resetAfter, warning, triggered, c.limit > 0 && count >= c.limit))
  }

  /** The pruned list with the new response, if it is an invalid one. */
  function Recorded(c: Config, t: Tracker, e: Event): Tracker {
    var pruned := Pruned(c, t, e.now);
    if e.Response? && IsInvalid(e.code) then pruned.(times := pruned.times + [e.now]) else pruned
  }

  function Step(c: Config, t: Tracker, e: Event): (Tracker, Status) {
    Reported(c, Recorded(c, t, e), e.later, e.Response?)
  }

  function After(c: Config, events: seq<Event>): Tracker {
    if events == [] then Tracker([], false) else Step(c, After(c, events[..|events| - 1]), events[|events| - 1]).0
  }

  /** What event k of a run reports. */
  function StatusOf(c: Config, events: seq<Event>, k: nat): Status
    requires k < |events|
  {
    Step(c, After(c, events[..k]), events[k]).1
  }

  function TimesOf(events: seq<Event>): (r: seq<int>)
    ensures |r| == |events| && forall i | 0 <= i < |events| :: r[i] == events[i].now
  {
    seq(|events|, i requires 0 <= i < |events| => events[i].now)
  }

  // ---- The list is the recent part of the history ----------------------------------------------

  /** The times of all invalid responses so far. */
  function History(events: seq<Event>): seq<int> {
    if events == [] then []
    else
      var rest, e := History(events[..|events| - 1]), events[|events| - 1];
      if e.Response? && IsInvalid(e.code) then rest + [e.now] else rest
  }

  /** Those after a cutoff. */
  function Recent(times: seq<int>, cutoff: int): seq<int> {
    if times == [] then []
    else
      var rest, last := Recent(times[..|times| - 1], cutoff), times[|times| - 1];
      if last > cutoff then rest + [last] else rest
  }

  /** Dropping from the front of a list in time order is filtering it. */
  lemma {:induction false} DropOldIsRecent(times: seq<int>, cutoff: int)
    requires Nondecreasing(times)
    ensures DropOld(times, cutoff) == Recent(times, cutoff)
  {
    if times == [] {
    } else if times[0] > cutoff {
      RecentKeepsAll(times, cutoff);
    } else {
      DropOldIsRecent(times[1..], cutoff);
      RecentDropsFirst(times, cutoff);
    }
  }

  lemma {:induction false} RecentKeepsAll(times: seq<int>, cutoff: int)
    requires forall i | 0 <= i < |times| :: times[i] > cutoff
    ensures Recent(times, cutoff) == times
  {
    if times != [] {
      RecentKeepsAll(times[..|times| - 1], cutoff);
    }
  }

  lemma {:induction false} RecentDropsFirst(times: seq<int>, cutoff: int)
    requires times != [] && times[0] <= cutoff
    ensures Recent(times, cutoff) == Recent(times[1..], cutoff)
  {
    if |times| > 1 {
      RecentDropsFirst(times[..|times| - 1], cutoff);
      assert times[..|times| - 1][1..] == times[1..][..|times| - 2];
    }
  }

  lemma RecentAppend(times: seq<int>, t: int, cutoff: int)
    ensures Recent(times + [t], cutoff) == if t > cutoff then Recent(times, cutoff) + [t] else Recent(times, cutoff)
  {
    assert (times + [t])[..|times|] == times;
  }

  /** A list filtered before loses nothing that a later filter keeps. */
  lemma {:induction false} RecentTwice(times: seq<int>, cutoff: int, cutoff': int)
    requires cutoff <= cutoff'
    ensures Recent(Recent(times, cutoff), cutoff') == Recent(times, cutoff')
  {
    if times != [] {
      var rest, last := times[..|times| - 1], times[|times| - 1];
      RecentTwice(rest, cutoff, cutoff');
      RecentAppend(Recent(rest, cutoff), last, cutoff');
    }
  }

  /** Times in order, none after now. */
  predicate UpTo(times: seq<int>, now: int) {
    Nondecreasing(times) && forall i | 0 <= i < |times| :: times[i] <= now
  }

  lemma UpToAppend(times: seq<int>, t: int, now: int)
    requires UpTo(times, t) && t <= now
    ensures UpTo(times, now) && UpTo(times + [t], now)
  {
  }

  lemma {:induction false} RecentIsOrdered(times: seq<int>, cutoff: int, now: int)
    requires UpTo(times, now)
    ensures UpTo(Recent(times, cutoff), now)
  {
    if times != [] {
      var last := times[|times| - 1];
      RecentIsOrdered(times[..|times| - 1], cutoff, last);
      UpToAppend(Recent(times[..|times| - 1], cutoff), last, now);
    }
  }

  /** The length of a filtered list in time order counts a half-open interval. */
  lemma {:induction false} RecentCounts(times: seq<int>, cutoff: int, now: int)
    requires forall i | 0 <= i < |times| :: times[i] <= now
    ensures |Recent(times, cutoff)| == CountWithin(times, cutoff + 1, now + 1)
  {
    if times != [] {
      RecentCounts(times[..|times| - 1], cutoff, now);
    }
  }

  lemma RestUpTo(events: seq<Event>, now: int)
    requires events != [] && UpTo(TimesOf(events), now)
    ensures var n := |events| - 1; UpTo(TimesOf(events[..n]), events[n].now) && events[n].now <= now
  {
    var times := TimesOf(events);
    assert TimesOf(events[..|events| - 1]) == times[..|events| - 1];
    assert times[|events| - 1] == events[|events| - 1].now;
  }

  lemma {:induction false} HistoryIsOrdered(events: seq<Event>, now: int)
    requires UpTo(TimesOf(events), now)
    ensures UpTo(History(events), now)
  {
    if events != [] {
      var rest, e := events[..|events| - 1], events[|events| - 1];
      RestUpTo(events, now);
      HistoryIsOrdered(rest, e.now);
      UpToAppend(History(rest), e.now, now);
    }
  }

  /** With a clock that never goes back, pruning leaves exactly the part of the history inside the window. */
  lemma {:induction false} PrunedIsRecentHistory(c: Config, events: seq<Event>, now: int)
    requires UpTo(TimesOf(events), now)
    ensures Pruned(c, After(c, events), now).times == Recent(History(events), now - c.Window())
  {
    if events != [] {
      var rest, e := events[..|events| - 1], events[|events| - 1];
      RestUpTo(events, now);
      PrunedIsRecentHistory(c, rest, e.now);
      var cutoff := e.now - c.Window();
      RecentAppend(History(rest), e.now, cutoff);
      assert After(c, events).times == Recent(History(events), cutoff);
      HistoryIsOrdered(events, now);
      RecentIsOrdered(History(events), cutoff, now);
      DropOldIsRecent(Recent(History(events), cutoff), now - c.Window());
      RecentTwice(History(events), cutoff, now - c.Window());
    }
  }

  lemma HistoryAppend(rest: seq<Event>, e: Event)
    ensures History(rest + [e]) == if e.Response? && IsInvalid(e.code) then History(rest) + [e.now] else History(rest)
  {
    assert (rest + [e])[..|rest|] == rest;
  }

  /** So does recording: the list then covers the history up to and including the event. */
  lemma RecordedIsRecentHistory(c: Config, rest: seq<Event>, e: Event)
    requires UpTo(TimesOf(rest), e.now)
    ensures UpTo(History(rest + [e]), e.now)
    ensures Recorded(c, After(c, rest), e).times == Recent(History(rest + [e]), e.now - c.Window())
  {
    HistoryAppend(rest, e);
    PrunedIsRecentHistory(c, rest, e.now);
    HistoryIsOrdered(rest, e.now);
    UpToAppend(History(rest), e.now, e.now);
    RecentAppend(History(rest), e.now, e.now - c.Window());
  }

  /** Every report counts exactly the invalid responses of the last window, and blocks exactly when they reach the limit. */
  lemma ReportIsExact(c: Config, events: seq<Event>, k: nat)
    requires k < |events| && UpTo(TimesOf(events[..k]), events[k].now)
    ensures var now, status := events[k].now, StatusOf(c, events, k);
            var count := CountWithin(History(events[..k + 1]), now - c.Window() + 1, now + 1);
            && status.count == count
            && (status.blocked <==> 0 < c.limit <= count)
            && (status.warning <==> 0 < c.Threshold() <= count)
  {
    var rest, e := events[..k], events[k];
    assert events[..k + 1] == rest + [e];
    RecordedIsRecentHistory(c, rest, e);
    RecentCounts(History(rest + [e]), e.now - c.Window(), e.now);
  }

  /** After the reported reset time, and with no new invalid response, a breaker that was just at its limit is open. */
  lemma ResetUnblocks(c: Config, t: Tracker, e: Event, q: Event)
    requires q.Query? && Step(c, t, e).1.blocked && Step(c, t, e).1.count == c.limit
    requires q.now >= e.later + Step(c, t, e).1.resetAfter
    ensures !Step(c, Step(c, t, e).0, q).1.blocked
  {
    var times := Recorded(c, t, e).times;
    assert DropOld(times, q.now - c.Window()) == DropOld(times[1..], q.now - c.Window());
    DropOldSize(times[1..], q.now - c.Window());
  }

  /** The reported reset time is exact: with no new invalid response the count falls then, and not before. */
  lemma ResetIsExact(c: Config, t: Tracker, e: Event, q: Event)
    requires q.Query? && Nondecreasing(t.times) && q.now >= e.now && e.later >= e.now
    requires e.Response? ==> forall i | 0 <= i < |t.times| :: t.times[i] <= e.now
    requires Step(c, t, e).1.count > 0 && q.now >= e.later
    ensures Step(c, Step(c, t, e).0, q).1.count < Step(c, t, e).1.count <==> q.now >= e.later + Step(c, t, e).1.resetAfter
  {
    var times := Recorded(c, t, e).times;
    var cutoff := q.now - c.Window();
    if times[0] > cutoff {
      assert DropOld(times, cutoff) == times;
    } else {
      assert DropOld(times, cutoff) == DropOld(times[1..], cutoff);
      DropOldSize(times[1..], cutoff);
    }
  }

  lemma DropOldSize(times: seq<int>, cutoff: int)
    ensures |DropOld(times, cutoff)| <= |times|
  {
  }

  // ---- One warning per crossing ----------------------------------------------------------------

  /** Event k pruned the list below the warning threshold. */
  predicate Low(c: Config, events: seq<Event>, k: nat)
    requires k < |events|
  {
    |Pruned(c, After(c, events[..k]), events[k].now).times| < c.Threshold()
  }

  predicate Triggered(c: Config, events: seq<Event>, k: nat)
    requires k < |events|
  {
    StatusOf(c, events, k).warningTriggered
  }

  /** Event i gave a warning, and the list has not been low since, up to event n. */
  ghost predicate WarnedAt(c: Config, events: seq<Event>, i: nat, n: nat)
    requires i < n <= |events|
  {
    Triggered(c, events, i) && forall k: nat | i < k < n :: !Low(c, events, k)
  }

  ghost predicate WarnedBefore(c: Config, events: seq<Event>, n: nat)
    requires n <= |events|
  {
    exists i: nat | i < n :: WarnedAt(c, events, i, n)
  }

  lemma {:induction false} FlagIsWarnedBefore(c: Config, events: seq<Event>, n: nat)
    requires n <= |events|
    ensures After(c, events[..n]).warned <==> WarnedBefore(c, events, n)
  {
    if n > 0 {
      var m := n - 1;
      FlagIsWarnedBefore(c, events, m);
      assert events[..n][..m] == events[..m];
      FlagStep(c, After(c, events[..m]), events[m]);
      WarnedStep(c, events, n);
    }
  }

  lemma FlagStep(c: Config, t: Tracker, e: Event)
    ensures Step(c, t, e).0.warned <==>
            Step(c, t, e).1.warningTriggered || (t.warned && |Pruned(c, t, e.now).times| >= c.Threshold())
  {
  }

  lemma WarnedStep(c: Config, events: seq<Event>, n: nat)
    requires 0 < n <= |events|
    ensures WarnedBefore(c, events, n) <==>
            Triggered(c, events, n - 1) || (WarnedBefore(c, events, n - 1) && !Low(c, events, n - 1))
  {
    var m := n - 1;
    if Triggered(c, events, m) {
      assert WarnedAt(c, events, m, n);
    } else if i: nat :| i < m && WarnedAt(c, events, i, m) {
      assert WarnedAt(c, events, i, n) <==> !Low(c, events, m);
      assert forall j: nat | j < m :: WarnedAt(c, events, j, n) ==> !Low(c, events, m);
    } else {
      assert forall j: nat | j < m :: WarnedAt(c, events, j, n) ==> WarnedAt(c, events, j, m);
    }
  }

  /**
   A response report triggers the warning exactly when the count is at the threshold and no warning has been given since
   the list was last low.
   */
  lemma TriggeredExactly(c: Config, events: seq<Event>, k: nat)
    requires k < |events|
    ensures Triggered(c, events, k) <==>
            events[k].Response? && StatusOf(c, events, k).warning && (Low(c, events, k) || !WarnedBefore(c, events, k))
  {
    FlagIsWarnedBefore(c, events, k);
  }

  /** Between two warnings some step saw fewer invalid responses than the threshold. */
  lemma OneWarningPerCrossing(c: Config, events: seq<Event>, i: nat, j: nat)
    requires i < j < |events| && Triggered(c, events, i) && Triggered(c, events, j)
    ensures exists k: nat | i < k <= j :: Low(c, events, k)
  {
    TriggeredExactly(c, events, j);
    assert Low(c, events, j) || !WarnedAt(c, events, i, j);
  }
}
