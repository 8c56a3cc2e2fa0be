/** Counting events in time windows, for the limiters that promise at most so many in any interval of a given length. */
module Windows {
  /** A time never goes back. */
  predicate Nondecreasing(times: seq<int>) {
    forall i, j | 0 <= i <= j < |times| :: times[i] <= times[j]
  }

  /** How many events fall in [from, to). */
  function CountWithin(times: seq<int>, from: int, to: int): nat {
    if times == [] then 0
    else
      var last := times[|times| - 1];
      CountWithin(times[..|times| - 1], from, to) + if from <= last < to then 1 else 0
  }

  /** Events n apart in order are at least w apart in time. */
  predicate Spaced(times: seq<int>, n: nat, w: int) {
    forall i: nat | i + n < |times| :: SpacedAt(times, i, n, w)
  }

  predicate SpacedAt(times: seq<int>, i: nat, n: nat, w: int)
    requires i + n < |times|
  {
    times[i] + w <= times[i + n]
  }

  /** In order of time the events of an interval stand next to each other. */
  lemma {:induction false} WithinIsContiguous(times: seq<int>, from: int, to: int) returns (i: nat, j: nat)
    requires Nondecreasing(times)
    ensures i <= j <= |times| && CountWithin(times, from, to) == j - i
    ensures forall k | 0 <= k < |times| :: from <= times[k] < to <==> i <= k < j
  {
    if times == [] {
      i, j := 0, 0;
    } else {
      var n := |times| - 1;
      i, j := WithinIsContiguous(times[..n], from, to);
      assert forall k | 0 <= k < n :: times[..n][k] == times[k];
      if from <= times[n] < to {
        if i == j {
          i := n;
        } else {
          var k := if j < n then j else i;
          assert times[i] <= times[k] <= times[n];
        }
        j := n + 1;
      }
    }
  }

  /** Spacing bounds the count in every half-open interval of length w. */
  lemma SpacingBoundsCount(times: seq<int>, n: nat, w: int, from: int)
    requires Nondecreasing(times) && Spaced(times, n, w)
    ensures CountWithin(times, from, from + w) <= n
  {
    var i, j := WithinIsContiguous(times, from, from + w);
    if i + n < |times| {
      assert SpacedAt(times, i, n, w);
    }
  }

  lemma CountAppend(times: seq<int>, time: int, from: int, to: int)
    ensures CountWithin(times + [time], from, to) == CountWithin(times, from, to) + if from <= time < to then 1 else 0
  {
    assert (times + [time])[..|times|] == times;
  }

  // ---- Budgets that start over ---------------------------------------------------------------

  /** An event and the start of the budget window it was charged to. */
  datatype Charge = Charge(time: int, start: int)

  function Times(log: seq<Charge>): (r: seq<int>)
    ensures |r| == |log| && forall i | 0 <= i < |log| :: r[i] == log[i].time
  {
    seq(|log|, i requires 0 <= i < |log| => log[i].time)
  }

  /** Charges in time order, each inside its window; windows at least w apart; at most cap charges a window. */
  ghost predicate Budgeted(log: seq<Charge>, cap: nat, w: int) {
    && w > 0
    && (forall i | 0 <= i < |log| :: log[i].start <= log[i].time < log[i].start + w)
    && (forall i, j | 0 <= i <= j < |log| :: Precedes(log[i], log[j], w))
    && (forall i: nat | i + cap < |log| :: WindowChanges(log, i, cap))
  }

  /** Charge i + cap went to another window than charge i. */
  predicate WindowChanges(log: seq<Charge>, i: nat, cap: nat)
    requires i + cap < |log|
  {
    log[i].start != log[i + cap].start
  }

  /** u comes no later than v, and was charged to the same window or one that starts at least w earlier. */
  predicate Precedes(u: Charge, v: Charge, w: int) {
    u.time <= v.time && (u.start == v.start || u.start + w <= v.start)
  }

  /** How many of the last charges went to the window starting at start. */
  function ChargedTo(log: seq<Charge>, start: int): nat {
    if log == [] || log[|log| - 1].start != start then 0 else 1 + ChargedTo(log[..|log| - 1], start)
  }

  lemma {:induction false} ChargedToIsSuffix(log: seq<Charge>, start: int, i: nat)
    requires i < |log| && forall k | i <= k < |log| :: log[k].start == start
    ensures ChargedTo(log, start) >= |log| - i
  {
    if i < |log| - 1 {
      ChargedToIsSuffix(log[..|log| - 1], start, i);
    }
  }

  /** In a budget whose current window starts here, that is all the charges whose times fall in the window. */
  lemma {:induction false} ChargedIsCounted(log: seq<Charge>, cap: nat, w: int, start: int)
    requires Budgeted(log, cap, w)
    requires log != [] ==> log[|log| - 1].start == start || log[|log| - 1].start + w <= start
    ensures ChargedTo(log, start) == CountWithin(Times(log), start, start + w)
  {
    if log != [] {
      var n := |log| - 1;
      var rest, last := log[..n], log[n];
      assert Times(log)[..n] == Times(rest);
      assert Precedes(log[if n > 0 then n - 1 else n], last, w);
      ShorterBudget(log, cap, w);
      if last.start == start {
        ChargedIsCounted(rest, cap, w, start);
      } else {
        NoneThisLate(log, w, start, start + w);
      }
    }
  }

  lemma ShorterBudget(log: seq<Charge>, cap: nat, w: int)
    requires log != [] && Budgeted(log, cap, w)
    ensures Budgeted(log[..|log| - 1], cap, w)
  {
    var rest := log[..|log| - 1];
    forall i: nat | i + cap < |rest| ensures WindowChanges(rest, i, cap) {
      assert WindowChanges(log, i, cap);
    }
  }

  lemma {:induction false} NoneThisLate(log: seq<Charge>, w: int, from: int, to: int)
    requires forall i | 0 <= i < |log| :: log[i].time < from
    ensures CountWithin(Times(log), from, to) == 0
  {
    if log != [] {
      NoneThisLate(log[..|log| - 1], w, from, to);
      assert Times(log)[..|log| - 1] == Times(log[..|log| - 1]);
    }
  }

  /** A charge at a time inside the current window keeps the log budgeted while the window has room. */
  lemma ChargeKeepsBudget(log: seq<Charge>, cap: nat, w: int, now: int, start: int)
    requires Budgeted(log, cap, w) && ChargedTo(log, start) < cap && start <= now < start + w
    requires log != [] ==> Precedes(log[|log| - 1], Charge(now, start), w)
    ensures Budgeted(log + [Charge(now, start)], cap, w)
    ensures ChargedTo(log + [Charge(now, start)], start) == ChargedTo(log, start) + 1
  {
    var u := Charge(now, start);
    var log' := log + [u];
    var n := |log|;
    assert log'[..n] == log;
    forall i | 0 <= i < n ensures Precedes(log[i], u, w) {
      assert Precedes(log[i], log[n - 1], w);
    }
    forall i, j | 0 <= i <= j <= n ensures Precedes(log'[i], log'[j], w) {
      if i < j < n {
        assert Precedes(log[i], log[j], w);
      }
    }
    LastCapDiffers(log, cap, w, start);
    forall i: nat | i + cap <= n ensures WindowChanges(log', i, cap) {
      if i + cap < n {
        assert WindowChanges(log, i, cap);
      }
    }
  }

  /** While a window has room, the charge cap places back went to an earlier window. */
  lemma LastCapDiffers(log: seq<Charge>, cap: nat, w: int, start: int)
    requires Budgeted(log, cap, w) && ChargedTo(log, start) < cap
    requires log != [] ==> log[|log| - 1].start == start || log[|log| - 1].start + w <= start
    ensures cap <= |log| ==> log[|log| - cap].start != start
  {
    var n := |log|;
    if cap <= n && log[n - cap].start == start {
      forall k | n - cap <= k < n ensures log[k].start == start {
        assert Precedes(log[n - cap], log[k], w) && Precedes(log[k], log[n - 1], w);
      }
      ChargedToIsSuffix(log, start, n - cap);
    }
  }

  /** Charges two budgets apart are more than a window apart, so an interval of one window holds at most two budgets. */
  lemma BudgetBoundsAnyInterval(log: seq<Charge>, cap: nat, w: int, from: int)
    requires Budgeted(log, cap, w)
    ensures CountWithin(Times(log), from, from + w) <= 2 * cap
  {
    var times := Times(log);
    forall i: nat | i + 2 * cap < |times| ensures SpacedAt(times, i, 2 * cap, w) {
      assert WindowChanges(log, i, cap) && WindowChanges(log, i + cap, cap);
      assert Precedes(log[i], log[i + cap], w) && Precedes(log[i + cap], log[i + cap + cap], w);
    }
    forall i, j | 0 <= i <= j < |times| ensures times[i] <= times[j] {
      assert Precedes(log[i], log[j], w);
    }
    SpacingBoundsCount(times, 2 * cap, w, from);
  }

  /** A window that was charged to holds at most one budget. */
  lemma BudgetBoundsWindow(log: seq<Charge>, cap: nat, w: int, m: nat)
    requires Budgeted(log, cap, w) && m < |log|
    ensures CountWithin(Times(log), log[m].start, log[m].start + w) <= cap
  {
    var times, s := Times(log), log[m].start;
    forall i, j | 0 <= i <= j < |times| ensures times[i] <= times[j] {
      assert Precedes(log[i], log[j], w);
    }
    var i, j := WithinIsContiguous(times, s, s + w);
    forall k | i <= k < j ensures log[k].start == s {
      ChargedInside(log, cap, w, m, k);
    }
    assert i + cap < |log| ==> WindowChanges(log, i, cap);
  }

  /** Windows do not overlap: a charge inside a window was charged to it. */
  lemma ChargedInside(log: seq<Charge>, cap: nat, w: int, m: nat, k: nat)
    requires Budgeted(log, cap, w) && m < |log| && k < |log|
    requires log[m].start <= log[k].time < log[m].start + w
    ensures log[k].start == log[m].start
  {
    assert if m <= k then Precedes(log[m], log[k], w) else Precedes(log[k], log[m], w);
  }
}
