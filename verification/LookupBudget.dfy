/** The per-minute budget of account lookups one Hook process spends at Silicon Accounts. */
module LookupBudget {
  import opened Common

  const LOOKUPS_PER_MINUTE: nat := 300

  /** The start of the current window and what was spent in it. */
  datatype Window = Window(start: Instant, spent: nat)

  /** One request for a lookup: the window afterwards, and whether it was granted. */
  function Spend(w: Window, now: Instant): (Window, bool) {
    var open := if now - w.start >= MINUTE then Window(now, 0) else w;
    if open.spent >= LOOKUPS_PER_MINUTE then (open, false) else (open.(spent := open.spent + 1), true)
  }

  class Budget {
    var start: Instant
    var spent: nat

    constructor (now: Instant)
      ensures View() == Window(now, 0)
    {
      start, spent := now, 0;
    }

    ghost function View(): Window
      reads this
    {
      Window(start, spent)
    }

    method SpendLookup(now: Instant) returns (granted: bool)
      modifies this
      ensures (View(), granted) == Spend(old(View()), now)
    {
      if now - start >= MINUTE {
        start, spent := now, 0;
      }
      if spent >= LOOKUPS_PER_MINUTE {
        return false;
      }
      spent := spent + 1;
      return true;
    }
  }

  // ---------------------------------------------------------------------------
  // Runs: any number of lookups at non-decreasing instants.
  // ---------------------------------------------------------------------------

  function After(w: Window, calls: seq<Instant>): Window
    decreases |calls|
  {
    if calls == [] then w else After(Spend(w, calls[0]).0, calls[1..])
  }

  /** How many of the calls made at an instant in `[from, until)` were granted. */
  function Grants(w: Window, calls: seq<Instant>, from: Instant, until: Instant): nat
    decreases |calls|
  {
    if calls == [] then 0 else
    var (next, granted) := Spend(w, calls[0]);
    (if granted && from <= calls[0] < until then 1 else 0) + Grants(next, calls[1..], from, until)
  }

  ghost predicate Legal(w: Window, calls: seq<Instant>) {
    && w.spent <= LOOKUPS_PER_MINUTE
    && NonDecreasing(calls)
    && (calls != [] ==> w.start <= calls[0])
  }

  lemma LegalStep(w: Window, calls: seq<Instant>)
    requires Legal(w, calls) && calls != []
    ensures Legal(Spend(w, calls[0]).0, calls[1..])
    ensures Spend(w, calls[0]).0.start <= calls[0] < Spend(w, calls[0]).0.start + MINUTE
    ensures forall i :: 0 <= i < |calls[1..]| ==> calls[0] <= calls[1..][i]
  {
    assert forall i :: 0 <= i < |calls[1..]| ==> calls[1..][i] == calls[i + 1];
  }

  lemma {:induction false} NoGrantsBefore(w: Window, calls: seq<Instant>, from: Instant, until: Instant)
    requires forall i :: 0 <= i < |calls| ==> until <= calls[i]
    ensures Grants(w, calls, from, until) == 0
    decreases |calls|
  {
    if calls != [] {
      assert forall i :: 0 <= i < |calls[1..]| ==> calls[1..][i] == calls[i + 1];
      NoGrantsBefore(Spend(w, calls[0]).0, calls[1..], from, until);
    }
  }

  /** Any sliding minute sees at most two windows, the current one only up to what is left of it. */
  lemma {:induction false} SlidingMinute(w: Window, calls: seq<Instant>, from: Instant)
    requires Legal(w, calls)
    ensures Grants(w, calls, from, from + MINUTE) <=
            if from <= w.start then LOOKUPS_PER_MINUTE - w.spent
            else if from < w.start + MINUTE then 2 * LOOKUPS_PER_MINUTE - w.spent
            else 2 * LOOKUPS_PER_MINUTE
    decreases |calls|
  {
    if calls != [] {
      LegalStep(w, calls);
      var next := Spend(w, calls[0]).0;
      if from + MINUTE <= calls[0] {
        NoGrantsBefore(next, calls[1..], from, from + MINUTE);
      } else {
        SlidingMinute(next, calls[1..], from);
      }
    }
  }

  /** Silicon Accounts sees at most 600 lookups from this process in any sliding minute. */
  lemma AtMostSixHundredInAnyMinute(start: Instant, calls: seq<Instant>, from: Instant)
    requires NonDecreasing(calls) && (calls != [] ==> start <= calls[0])
    ensures Grants(Window(start, 0), calls, from, from + MINUTE) <= 600
  {
    SlidingMinute(Window(start, 0), calls, from);
  }

  /** The window's counter is exactly the number of grants since the window opened. */
  lemma {:induction false} CounterIsLedger(w: Window, calls: seq<Instant>)
    requires Legal(w, calls)
    ensures var e := After(w, calls);
            && w.start <= e.start && e.spent <= LOOKUPS_PER_MINUTE
            && (forall i :: 0 <= i < |calls| ==> calls[i] < e.start + MINUTE)
            && e.spent == Grants(w, calls, e.start, e.start + MINUTE) + (if e.start == w.start then w.spent else 0)
            && (e.start == w.start || (e.start >= w.start + MINUTE && e.start in calls))
    decreases |calls|
  {
    if calls != [] {
      LegalStep(w, calls);
      CounterIsLedger(Spend(w, calls[0]).0, calls[1..]);
      var e := After(w, calls);
      forall i | 0 <= i < |calls| ensures calls[i] < e.start + MINUTE {
        if i > 0 {
          assert calls[i] == calls[1..][i - 1];
        }
      }
    }
  }

  /**
   * No lookup is refused while budget remains: a refusal means that exactly 300 lookups were
   * granted in the window that is still open, which began less than a minute before.
   */
  lemma RefusedOnlyWhenSpent(start: Instant, calls: seq<Instant>, now: Instant)
    requires NonDecreasing(calls + [now]) && start <= (calls + [now])[0]
    ensures var w := After(Window(start, 0), calls);
            !Spend(w, now).1 <==>
              && now < w.start + MINUTE
              && Grants(Window(start, 0), calls, w.start, w.start + MINUTE) == LOOKUPS_PER_MINUTE
  {
    var all := calls + [now];
    assert forall i :: 0 <= i < |calls| ==> calls[i] == all[i];
    CounterIsLedger(Window(start, 0), calls);
  }

  // ---------------------------------------------------------------------------
  // What a sliding minute spends.
  // ---------------------------------------------------------------------------

  lemma {:induction false} GrantsSnoc(w: Window, calls: seq<Instant>, now: Instant, from: Instant, until: Instant)
    ensures After(w, calls + [now]) == Spend(After(w, calls), now).0
    ensures Grants(w, calls + [now], from, until) ==
              Grants(w, calls, from, until) + if Spend(After(w, calls), now).1 && from <= now < until then 1 else 0
    decreases |calls|
  {
    if calls == [] {
      assert [] + [now] == [now] && [now][1..] == [];
    } else {
      GrantsSnoc(Spend(w, calls[0]).0, calls[1..], now, from, until);
      assert (calls + [now])[1..] == calls[1..] + [now];
    }
  }

  lemma {:induction false} GrantsSplit(w: Window, calls: seq<Instant>, from: Instant, at: Instant, until: Instant)
    requires from <= at <= until
    ensures Grants(w, calls, from, until) == Grants(w, calls, from, at) + Grants(w, calls, at, until)
    decreases |calls|
  {
    if calls != [] {
      GrantsSplit(Spend(w, calls[0]).0, calls[1..], from, at, until);
    }
  }

  lemma {:induction false} NoGrantsPast(w: Window, calls: seq<Instant>, from: Instant, until: Instant)
    requires forall i :: 0 <= i < |calls| ==> calls[i] < from
    ensures Grants(w, calls, from, until) == 0
    decreases |calls|
  {
    if calls != [] {
      assert forall i :: 0 <= i < |calls[1..]| ==> calls[1..][i] == calls[i + 1];
      NoGrantsPast(Spend(w, calls[0]).0, calls[1..], from, until);
    }
  }

  /**
   * The minute that ends with a call spends exactly what was granted in it before the open window began,
   * and what the open window has spent.
   */
  lemma SlidingMinuteIsTwoWindows(start: Instant, calls: seq<Instant>, now: Instant)
    requires NonDecreasing(calls + [now]) && start <= (calls + [now])[0]
    ensures var first := Window(start, 0);
            var open := Spend(After(first, calls), now).0;
            && now - MINUTE < open.start <= now
            && Grants(first, calls + [now], now - MINUTE + 1, now + 1) ==
                 Grants(first, calls, now - MINUTE + 1, open.start) + open.spent
  {
    var first, all := Window(start, 0), calls + [now];
    var open := Spend(After(first, calls), now).0;
    CounterIsLedger(first, all);
    GrantsSnoc(first, calls, now, now - MINUTE + 1, open.start);
    assert all[|calls|] == now;
    LastWindowHasBegun(first, calls, now);
    GrantsSplit(first, all, now - MINUTE + 1, open.start, now + 1);
    GrantsSplit(first, all, open.start, now + 1, open.start + MINUTE);
    assert forall i :: 0 <= i < |all| ==> all[i] <= all[|calls|];
    NoGrantsPast(first, all, now + 1, open.start + MINUTE);
  }

  lemma {:induction false} LastWindowHasBegun(w: Window, calls: seq<Instant>, now: Instant)
    requires NonDecreasing(calls + [now]) && w.start <= (calls + [now])[0]
    ensures After(w, calls).start <= now
    decreases |calls|
  {
    if calls != [] {
      var all := calls + [now];
      assert all[1..] == calls[1..] + [now];
      assert forall i :: 0 <= i < |all[1..]| ==> all[1..][i] == all[i + 1];
      assert all[0] <= all[1];
      LastWindowHasBegun(Spend(w, calls[0]).0, calls[1..], now);
    }
  }

  /**
   * A sliding minute spends more than 300 exactly when, with this call, the open window has spent more
   * than was left over by the lookups granted in the minute before that window began.
   */
  lemma MoreThanThreeHundredExactlyAcrossWindows(start: Instant, calls: seq<Instant>, now: Instant)
    requires NonDecreasing(calls + [now]) && start <= (calls + [now])[0]
    ensures var first := Window(start, 0);
            var open := Spend(After(first, calls), now).0;
            Grants(first, calls + [now], now - MINUTE + 1, now + 1) > LOOKUPS_PER_MINUTE <==>
              open.spent > LOOKUPS_PER_MINUTE - Grants(first, calls, now - MINUTE + 1, open.start)
  {
    SlidingMinuteIsTwoWindows(start, calls, now);
  }

  // ---------------------------------------------------------------------------
  // 300 a minute is a bound per window, not per sliding minute.
  // ---------------------------------------------------------------------------

  function Repeat(t: Instant, n: nat): (r: seq<Instant>)
    ensures |r| == n && forall i :: 0 <= i < n ==> r[i] == t
  {
    seq(n, _ => t)
  }

  lemma {:induction false} BurstIsGranted(w: Window, t: Instant, n: nat, rest: seq<Instant>, from: Instant)
    requires w.start <= t < w.start + MINUTE && w.spent + n <= LOOKUPS_PER_MINUTE
    requires from <= t < from + MINUTE
    ensures Grants(w, Repeat(t, n) + rest, from, from + MINUTE)
            == n + Grants(w.(spent := w.spent + n), rest, from, from + MINUTE)
    decreases n
  {
    var calls := Repeat(t, n) + rest;
    if n == 0 {
      assert calls == rest;
    } else {
      assert calls[1..] == Repeat(t, n - 1) + rest;
      BurstIsGranted(Spend(w, t).0, t, n - 1, rest, from);
    }
  }

  /** Two bursts on either side of a window's end put 600 lookups into one second. */
  lemma TwiceTheBudgetInOneSecond() returns (calls: seq<Instant>)
    ensures NonDecreasing(calls) && |calls| == 600
    ensures forall i :: 0 <= i < |calls| ==> 59 * SECOND <= calls[i] <= 60 * SECOND
    ensures Grants(Window(0, 0), calls, 59 * SECOND, 59 * SECOND + MINUTE) == 600
  {
    var early, late := Repeat(59 * SECOND, 300), Repeat(MINUTE, 299);
    calls := early + ([MINUTE] + late);
    BurstIsGranted(Window(0, 0), 59 * SECOND, 300, [MINUTE] + late, 59 * SECOND);
    assert ([MINUTE] + late)[1..] == late + [];
    BurstIsGranted(Window(MINUTE, 1), MINUTE, 299, [], 59 * SECOND);
  }
}
