/** The cached signing keys of Silicon Accounts, fetched once at a time under a lock. */
module KeySet {
  import opened Common

  type CallerId = nat
  type KeysId = nat   // one fetched key set, told apart by identity

  const REFETCH_INTERVAL: Instant := SECOND

  /** The newest key set and when it arrived, once one was fetched. */
  datatype Cached = Empty | Cached(keys: KeysId, fetchedAt: Instant)

  /** May a caller that saw `seen` use what is cached, instead of fetching again? */
  predicate Usable(cached: Cached, seen: Option<KeysId>, now: Instant) {
    cached.Cached? && (seen != Some(cached.keys) || now - cached.fetchedAt < REFETCH_INTERVAL)
  }

  class JwksState {
    var keys: KeysId
    var fetchedAt: Option<Instant>

    constructor ()
      ensures View() == Empty
    {
      keys, fetchedAt := 0, None;
    }

    ghost function View(): Cached
      reads this
    {
      if fetchedAt.Some? then Cached(keys, fetchedAt.value) else Empty
    }

    /** What a caller holding the fetch lock does first. */
    method Recall(seen: Option<KeysId>, now: Instant) returns (usable: Option<KeysId>)
      ensures usable == if Usable(View(), seen, now) then Some(View().keys) else None
    {
      usable := None;
      if fetchedAt.Some? {
        var replaced := seen.None? || seen.value != keys;
        if replaced || now - fetchedAt.value < REFETCH_INTERVAL {
          usable := Some(keys);
        }
      }
    }

    method Store(fetched: KeysId, now: Instant)
      modifies this
      ensures View() == Cached(fetched, now)
    {
      keys, fetchedAt := fetched, Some(now);
    }
  }

  // ---------------------------------------------------------------------------
  // Interleaved callers.
  // ---------------------------------------------------------------------------

  datatype Phase =
    | Waiting(seen: Option<KeysId>)   // for the fetch lock
    | Locked(seen: Option<KeysId>)
    | Fetching(seen: Option<KeysId>)
    | Returned(keys: KeysId, seen: Option<KeysId>, fetchedAt: Instant, at: Instant)
    | Failed

  datatype Event = Started(at: Instant) | Succeeded(at: Instant, keys: KeysId)

  datatype Machine = Machine(
    now: Instant, cached: Cached, holder: Option<CallerId>, callers: map<CallerId, Phase>, log: seq<Event>)

  const Start := Machine(0, Empty, None, map[], [])

  datatype Step =
    | Tick(now: Instant)
    | CurrentKeys(caller: CallerId)
    | UnknownKey(caller: CallerId)
    | Acquire(caller: CallerId)
    | Look(caller: CallerId)
    | FetchSucceeds(caller: CallerId, keys: KeysId)
    | FetchFails(caller: CallerId)
    | Cancel(caller: CallerId)

  predicate Enabled(m: Machine, s: Step) {
    match s
    case Tick(now) => m.now <= now
    case CurrentKeys(c) => c !in m.callers
    case UnknownKey(c) => c in m.callers && m.callers[c].Returned?
    case Acquire(c) => c in m.callers && m.callers[c].Waiting? && m.holder.None?
    case Look(c) => c in m.callers && m.callers[c].Locked?
    case FetchSucceeds(c, keys) =>
      c in m.callers && m.callers[c].Fetching? && forall e :: e in m.log && e.Succeeded? ==> e.keys != keys
    case FetchFails(c) => c in m.callers && m.callers[c].Fetching?
    case Cancel(c) => c in m.callers
  }

  function Next(m: Machine, s: Step): Machine
    requires Enabled(m, s)
  {
    match s
    case Tick(now) => m.(now := now)
    case CurrentKeys(c) =>
      m.(callers := m.callers[c :=
           if m.cached.Cached? then Returned(m.cached.keys, None, m.cached.fetchedAt, m.now) else Waiting(None)])
    case UnknownKey(c) => m.(callers := m.callers[c := Waiting(Some(m.callers[c].keys))])
    case Acquire(c) => m.(callers := m.callers[c := Locked(m.callers[c].seen)], holder := Some(c))
    case Look(c) =>
      var seen := m.callers[c].seen;
      if Usable(m.cached, seen, m.now)
      then m.(callers := m.callers[c := Returned(m.cached.keys, seen, m.cached.fetchedAt, m.now)], holder := None)
      else m.(callers := m.callers[c := Fetching(seen)], log := m.log + [Started(m.now)])
    case FetchSucceeds(c, keys) =>
      m.(callers := m.callers[c := Returned(keys, m.callers[c].seen, m.now, m.now)], holder := None,
         cached := Cached(keys, m.now), log := m.log + [Succeeded(m.now, keys)])
    case FetchFails(c) => m.(callers := m.callers[c := Failed], holder := None)
    case Cancel(c) => m.(callers := m.callers - {c}, holder := if m.holder == Some(c) then None else m.holder)
  }

  function Exec(steps: seq<Step>): Option<Machine>
    decreases |steps|
  {
    if steps == [] then Some(Start) else
    var before := Exec(steps[..|steps| - 1]);
    var last := steps[|steps| - 1];
    if before.Some? && Enabled(before.value, last) then Some(Next(before.value, last)) else None
  }

  // ---------------------------------------------------------------------------
  // What every step keeps.
  // ---------------------------------------------------------------------------

  ghost predicate LockInv(m: Machine) {
    forall c: CallerId :: Busy(m, c) <==> m.holder == Some(c)
  }

  predicate Busy(m: Machine, c: CallerId) {
    c in m.callers && (m.callers[c].Locked? || m.callers[c].Fetching?)
  }

  /** Fetches and arrivals happened in the past; the cached set is the last that arrived. */
  ghost predicate LogInv(m: Machine) {
    && (forall i :: 0 <= i < |m.log| ==> m.log[i].at <= m.now)
    && (forall i :: 0 <= i < |m.log| && m.log[i].Succeeded? ==> m.cached.Cached? && m.log[i].at <= m.cached.fetchedAt)
    && (m.cached.Cached? ==> Succeeded(m.cached.fetchedAt, m.cached.keys) in m.log)
    && (forall i, j :: 0 <= i < j < |m.log| && m.log[i].Succeeded? && m.log[j].Started? ==>
          m.log[i].at + REFETCH_INTERVAL <= m.log[j].at)
    && (forall i, j :: 0 <= i < j < |m.log| && m.log[i].Succeeded? && m.log[j].Succeeded? ==>
          m.log[i].keys != m.log[j].keys)
  }

  /** A caller waits having seen an arrived set or none; a waiter that saw none may fetch only the first set. */
  ghost predicate CallerInv(m: Machine, p: Phase) {
    match p
    case Waiting(seen) => seen.Some? ==> Arrived(m, seen.value)
    case Locked(seen) => seen.Some? ==> Arrived(m, seen.value)
    case Fetching(seen) => (seen.Some? ==> Arrived(m, seen.value)) && !Usable(m.cached, seen, m.now)
    case Returned(keys, seen, fetchedAt, at) =>
      Succeeded(fetchedAt, keys) in m.log && fetchedAt <= at <= m.now
      && (seen.Some? ==> keys != seen.value || at - fetchedAt < REFETCH_INTERVAL)
    case Failed => true
  }

  ghost predicate Arrived(m: Machine, keys: KeysId) {
    exists at :: Succeeded(at, keys) in m.log
  }

  ghost predicate Inv(m: Machine) {
    LockInv(m) && LogInv(m) && forall c :: c in m.callers ==> CallerInv(m, m.callers[c])
  }

  /** A fetch starts only when the cached set, if any, arrived a whole interval ago. */
  lemma StartKeepsLog(m: Machine, c: CallerId)
    requires Enabled(m, Look(c)) && Inv(m) && !Usable(m.cached, m.callers[c].seen, m.now)
    ensures LogInv(Next(m, Look(c)))
  {
  }

  lemma ArrivalKeepsLog(m: Machine, c: CallerId, keys: KeysId)
    requires Enabled(m, FetchSucceeds(c, keys)) && Inv(m)
    ensures LogInv(Next(m, FetchSucceeds(c, keys)))
  {
    assert Next(m, FetchSucceeds(c, keys)).log[|m.log|] == Succeeded(m.now, keys);
  }

  lemma StepKeepsLog(m: Machine, s: Step)
    requires Enabled(m, s) && Inv(m)
    ensures LogInv(Next(m, s))
    ensures forall e :: e in m.log ==> e in Next(m, s).log
  {
    if s.FetchSucceeds? {
      ArrivalKeepsLog(m, s.caller, s.keys);
    } else if s.Look? && !Usable(m.cached, m.callers[s.caller].seen, m.now) {
      StartKeepsLog(m, s.caller);
    } else {
      assert Next(m, s).log == m.log && Next(m, s).cached == m.cached && m.now <= Next(m, s).now;
    }
  }

  lemma StepKeepsCaller(m: Machine, s: Step, c: CallerId)
    requires Enabled(m, s) && Inv(m) && c in Next(m, s).callers
    ensures CallerInv(Next(m, s), Next(m, s).callers[c])
  {
    StepKeepsLog(m, s);
    var n := Next(m, s);
    if c in m.callers {
      assert CallerInv(m, m.callers[c]);
      assert Busy(m, c) <==> m.holder == Some(c);
      if !s.Tick? { assert Busy(m, s.caller) <==> m.holder == Some(s.caller); }
      assert forall k :: Arrived(m, k) ==> Arrived(n, k);
      if s.FetchSucceeds? {
        assert CallerInv(m, m.callers[s.caller]);
        assert Succeeded(m.now, s.keys) == n.log[|m.log|];
      }
      if s.UnknownKey? && s.caller == c {
        assert Succeeded(m.callers[c].fetchedAt, m.callers[c].keys) in n.log;
      }
    }
  }

  lemma StepKeepsLock(m: Machine, s: Step)
    requires Enabled(m, s) && LockInv(m)
    ensures LockInv(Next(m, s))
  {
    forall c: CallerId ensures Busy(Next(m, s), c) <==> Next(m, s).holder == Some(c) {
      assert Busy(m, c) <==> m.holder == Some(c);
      if !s.Tick? { assert Busy(m, s.caller) <==> m.holder == Some(s.caller); }
    }
  }

  lemma {:induction false} RunKeepsInv(steps: seq<Step>)
    requires Exec(steps).Some?
    ensures Inv(Exec(steps).value)
    decreases |steps|
  {
    if steps != [] {
      var m, s := Exec(steps[..|steps| - 1]).value, steps[|steps| - 1];
      RunKeepsInv(steps[..|steps| - 1]);
      StepKeepsLock(m, s);
      StepKeepsLog(m, s);
      forall c | c in Next(m, s).callers ensures CallerInv(Next(m, s), Next(m, s).callers[c]) {
        StepKeepsCaller(m, s, c);
      }
    }
  }

  // ---------------------------------------------------------------------------
  // What every run guarantees.
  // ---------------------------------------------------------------------------

  /** The lock is held exactly while its holder looks or fetches: a failed, finished or cancelled call lets it go. */
  lemma LockIsHeldExactly(steps: seq<Step>, c: CallerId)
    requires Exec(steps).Some?
    ensures var m := Exec(steps).value;
            m.holder == Some(c) <==> c in m.callers && (m.callers[c].Locked? || m.callers[c].Fetching?)
  {
    RunKeepsInv(steps);
    assert Busy(Exec(steps).value, c) <==> Exec(steps).value.holder == Some(c);
  }

  /** The key set that arrived last, and when. */
  function LastArrival(steps: seq<Step>): Cached
    requires Exec(steps).Some?
    decreases |steps|
  {
    if steps == [] then Empty else
    var before, last := steps[..|steps| - 1], steps[|steps| - 1];
    if last.FetchSucceeds? then Cached(last.keys, Exec(before).value.now) else LastArrival(before)
  }

  lemma StepCaches(m: Machine, s: Step)
    requires Enabled(m, s)
    ensures Next(m, s).cached == if s.FetchSucceeds? then Cached(s.keys, m.now) else m.cached
  {
  }

  lemma {:induction false} CachedIsTheLastArrival(steps: seq<Step>)
    requires Exec(steps).Some?
    ensures Exec(steps).value.cached == LastArrival(steps)
    decreases |steps|
  {
    if steps != [] {
      CachedIsTheLastArrival(steps[..|steps| - 1]);
      StepCaches(Exec(steps[..|steps| - 1]).value, steps[|steps| - 1]);
    }
  }

  /** A caller gets the set that arrived last at once, and waits for the lock only when none has arrived. */
  lemma CallersGetTheLastArrival(steps: seq<Step>, c: CallerId)
    requires Exec(steps).Some? && Enabled(Exec(steps).value, CurrentKeys(c))
    ensures var n, last := Next(Exec(steps).value, CurrentKeys(c)), LastArrival(steps);
            && c in n.callers
            && n.callers[c] == if last.Empty? then Waiting(None)
                               else Returned(last.keys, None, last.fetchedAt, n.now)
  {
    CachedIsTheLastArrival(steps);
  }

  /**
   * Who gets the lock fetches exactly when no set has arrived, or the last to arrive is the one it saw
   * and came a whole second ago or more; else it gets that one.
   */
  lemma LockHolderFetchesExactly(steps: seq<Step>, c: CallerId)
    requires Exec(steps).Some? && Enabled(Exec(steps).value, Look(c))
    ensures var m, n, last := Exec(steps).value, Next(Exec(steps).value, Look(c)), LastArrival(steps);
            && c in n.callers
            && n.callers[c] ==
               if last.Empty? || (m.callers[c].seen == Some(last.keys) && last.fetchedAt + 1_000_000_000 <= m.now)
               then Fetching(m.callers[c].seen)
               else Returned(last.keys, m.callers[c].seen, last.fetchedAt, m.now)
  {
    CachedIsTheLastArrival(steps);
  }

  /** What a fetch that arrives gives to its caller, and to all that come next. */
  lemma ArrivalsAreReturned(steps: seq<Step>, c: CallerId, keys: KeysId)
    requires Exec(steps).Some? && Enabled(Exec(steps).value, FetchSucceeds(c, keys))
    ensures var m, after := Exec(steps).value, steps + [FetchSucceeds(c, keys)];
            && Exec(after).Some? && LastArrival(after) == Cached(keys, m.now) && Exec(after).value.holder.None?
            && c in Exec(after).value.callers
            && Exec(after).value.callers[c] == Returned(keys, m.callers[c].seen, m.now, m.now)
  {
    ExecSnoc(steps, FetchSucceeds(c, keys));
    assert (steps + [FetchSucceeds(c, keys)])[..|steps|] == steps;
  }

  /** The fetches that began and the sets that arrived, with their times, read from the steps. */
  function Logged(steps: seq<Step>): seq<Event>
    requires Exec(steps).Some?
    decreases |steps|
  {
    if steps == [] then [] else
    var before, last := steps[..|steps| - 1], steps[|steps| - 1];
    var m := Exec(before).value;
    if last.FetchSucceeds? then Logged(before) + [Succeeded(m.now, last.keys)]
    else if last.Look? && Next(m, last).callers[last.caller].Fetching? then Logged(before) + [Started(m.now)]
    else Logged(before)
  }

  lemma StepLogs(m: Machine, s: Step)
    requires Enabled(m, s)
    ensures Next(m, s).log ==
              if s.FetchSucceeds? then m.log + [Succeeded(m.now, s.keys)]
              else if s.Look? && Next(m, s).callers[s.caller].Fetching? then m.log + [Started(m.now)]
              else m.log
  {
  }

  /** The log the laws below speak of lists exactly the fetches that began and the sets that arrived. */
  lemma {:induction false} LogIsTheHistory(steps: seq<Step>)
    requires Exec(steps).Some?
    ensures Exec(steps).value.log == Logged(steps)
    decreases |steps|
  {
    if steps != [] {
      LogIsTheHistory(steps[..|steps| - 1]);
      StepLogs(Exec(steps[..|steps| - 1]).value, steps[|steps| - 1]);
    }
  }

  lemma FetchesNeverOverlap(steps: seq<Step>, c: CallerId, d: CallerId)
    requires Exec(steps).Some? && c in Exec(steps).value.callers && d in Exec(steps).value.callers
    requires Exec(steps).value.callers[c].Fetching? && Exec(steps).value.callers[d].Fetching?
    ensures c == d
  {
    LockIsHeldExactly(steps, c);
    LockIsHeldExactly(steps, d);
  }

  /** After a success no fetch starts for a whole interval. */
  lemma FetchesAreSpacedFromSuccesses(steps: seq<Step>, i: nat, j: nat)
    requires Exec(steps).Some? && i < j < |Exec(steps).value.log|
    requires Exec(steps).value.log[i].Succeeded? && Exec(steps).value.log[j].Started?
    ensures Exec(steps).value.log[i].at + REFETCH_INTERVAL <= Exec(steps).value.log[j].at
  {
    RunKeepsInv(steps);
  }

  /** Who asks again gets a set that really arrived: another than it saw, or one younger than the interval. */
  lemma RefetchIsNewOrRecent(steps: seq<Step>, c: CallerId)
    requires Exec(steps).Some? && c in Exec(steps).value.callers && Exec(steps).value.callers[c].Returned?
    ensures var r := Exec(steps).value.callers[c];
            && Succeeded(r.fetchedAt, r.keys) in Exec(steps).value.log && r.fetchedAt <= r.at
            && (r.seen.Some? ==> r.keys != r.seen.value || r.at - r.fetchedAt < REFETCH_INTERVAL)
  {
    RunKeepsInv(steps);
    assert CallerInv(Exec(steps).value, Exec(steps).value.callers[c]);
  }

  lemma ExecSnoc(steps: seq<Step>, s: Step)
    requires Exec(steps).Some? && Enabled(Exec(steps).value, s)
    ensures Exec(steps + [s]) == Some(Next(Exec(steps).value, s))
  {
    assert (steps + [s])[..|steps|] == steps;
  }

  ghost predicate StartsAreSpaced(log: seq<Event>) {
    forall i, j :: 0 <= i < j < |log| && log[i].Started? && log[j].Started? ==>
      log[i].at + REFETCH_INTERVAL <= log[j].at
  }

  /** A fetch started here, and none has arrived since. */
  predicate Unanswered(log: seq<Event>, i: int) {
    0 <= i < |log| && log[i].Started? && forall j :: i < j < |log| ==> !log[j].Succeeded?
  }

  /** Every fetch that failed or was given up since the last arrival began a whole interval ago. */
  ghost predicate UnansweredAreOld(log: seq<Event>, now: Instant) {
    forall i :: Unanswered(log, i) ==> log[i].at + REFETCH_INTERVAL <= now
  }

  ghost predicate Ordered(log: seq<Event>) {
    forall i, j :: 0 <= i < j < |log| ==> log[i].at <= log[j].at
  }

  lemma {:induction false} RunKeepsLogOrdered(steps: seq<Step>)
    requires Exec(steps).Some?
    ensures Ordered(Exec(steps).value.log)
    decreases |steps|
  {
    if steps != [] {
      var before := steps[..|steps| - 1];
      RunKeepsLogOrdered(before);
      RunKeepsInv(before);
    }
  }

  /** In a log, spacing from the unanswered starts and from every arrival is spacing from every start. */
  lemma SpacedFromUnansweredIsSpaced(m: Machine, now: Instant, i: nat)
    requires Ordered(m.log) && LogInv(m) && i < |m.log| && m.log[i].Started?
    requires m.cached.Cached? ==> m.cached.fetchedAt + REFETCH_INTERVAL <= now
    requires Unanswered(m.log, i) ==> m.log[i].at + REFETCH_INTERVAL <= now
    ensures m.log[i].at + REFETCH_INTERVAL <= now
  {
    if !Unanswered(m.log, i) {
      var j :| i < j < |m.log| && m.log[j].Succeeded?;
      assert m.log[i].at <= m.log[j].at <= m.cached.fetchedAt;
    }
  }

  lemma CacheIsUsedOrOld(steps: seq<Step>, c: CallerId)
    requires Exec(steps).Some? && Enabled(Exec(steps).value, Look(c))
    requires var m := Exec(steps).value; !Usable(m.cached, m.callers[c].seen, m.now)
    ensures var m := Exec(steps).value; m.cached.Cached? ==> m.cached.fetchedAt + REFETCH_INTERVAL <= m.now
  {
  }

  /**
   * A new fetch starts a whole interval after every earlier one exactly when every fetch left
   * unanswered since the last arrival began that long ago: only those are held back by nothing.
   */
  lemma StartIsSpacedExactlyFromOldFailures(steps: seq<Step>, c: CallerId)
    requires Exec(steps).Some? && Enabled(Exec(steps).value, Look(c)) && StartsAreSpaced(Exec(steps).value.log)
    requires var m := Exec(steps).value; !Usable(m.cached, m.callers[c].seen, m.now)
    ensures var m := Exec(steps).value;
            StartsAreSpaced(Next(m, Look(c)).log) <==> UnansweredAreOld(m.log, m.now)
  {
    var m := Exec(steps).value;
    var n := Next(m, Look(c));
    RunKeepsInv(steps);
    RunKeepsLogOrdered(steps);
    CacheIsUsedOrOld(steps, c);
    assert n.log == m.log + [Started(m.now)] && n.log[|m.log|] == Started(m.now);
    if UnansweredAreOld(m.log, m.now) {
      forall i | 0 <= i < |m.log| && m.log[i].Started? ensures m.log[i].at + REFETCH_INTERVAL <= m.now {
        SpacedFromUnansweredIsSpaced(m, m.now, i);
      }
    }
    if StartsAreSpaced(n.log) {
      forall i | Unanswered(m.log, i) ensures m.log[i].at + REFETCH_INTERVAL <= m.now {
        assert n.log[i] == m.log[i];
      }
    }
  }

  /** The step starts a fetch. */
  predicate Starts(m: Machine, s: Step) {
    s.Look? && Enabled(m, s) && !Usable(m.cached, m.callers[s.caller].seen, m.now)
  }

  /** Each fetch of the run starts when every unanswered one is old. */
  ghost predicate WaitsForFailures(steps: seq<Step>) {
    forall k :: 0 <= k < |steps| && Exec(steps[..k]).Some? && Starts(Exec(steps[..k]).value, steps[k]) ==>
      UnansweredAreOld(Exec(steps[..k]).value.log, Exec(steps[..k]).value.now)
  }

  lemma OtherStepsStartNothing(m: Machine, s: Step)
    requires Enabled(m, s) && !Starts(m, s)
    ensures StartsAreSpaced(Next(m, s).log) <==> StartsAreSpaced(m.log)
  {
    var n := Next(m, s);
    assert m.log == n.log[..|m.log|];
    assert forall i :: 0 <= i < |m.log| ==> n.log[i] == m.log[i];
  }

  lemma StartsOnlyGrow(m: Machine, s: Step)
    requires Enabled(m, s) && StartsAreSpaced(Next(m, s).log)
    ensures StartsAreSpaced(m.log)
  {
    assert forall i :: 0 <= i < |m.log| ==> Next(m, s).log[i] == m.log[i];
  }

  /** Over whole runs: no two fetches start within an interval exactly when no fetch ignores a recent failure. */
  lemma {:induction false} FetchesAreSpacedExactlyWhenFailuresAreWaitedOut(steps: seq<Step>)
    requires Exec(steps).Some?
    ensures StartsAreSpaced(Exec(steps).value.log) <==> WaitsForFailures(steps)
    decreases |steps|
  {
    if steps != [] {
      var before, last := steps[..|steps| - 1], steps[|steps| - 1];
      var m := Exec(before).value;
      FetchesAreSpacedExactlyWhenFailuresAreWaitedOut(before);
      assert forall k :: 0 <= k < |before| ==> before[..k] == steps[..k];
      assert WaitsForFailures(steps) <==>
             WaitsForFailures(before) && (Starts(m, last) ==> UnansweredAreOld(m.log, m.now));
      if Starts(m, last) {
        if StartsAreSpaced(m.log) {
          StartIsSpacedExactlyFromOldFailures(before, last.caller);
        } else if StartsAreSpaced(Next(m, last).log) {
          StartsOnlyGrow(m, last);
        }
      } else {
        OtherStepsStartNothing(m, last);
      }
    }
  }

  /** The step loses a fetch under way: it fails, or its caller gives up. */
  predicate LosesFetch(m: Machine, s: Step) {
    s.FetchFails? || (s.Cancel? && s.caller in m.callers && m.callers[s.caller].Fetching?)
  }

  ghost predicate NoFetchIsLost(steps: seq<Step>) {
    forall k :: 0 <= k < |steps| && Exec(steps[..k]).Some? ==> !LosesFetch(Exec(steps[..k]).value, steps[k])
  }

  ghost predicate InFlight(m: Machine) {
    m.holder.Some? && m.holder.value in m.callers && m.callers[m.holder.value].Fetching?
  }

  /** Every fetch that started arrived, except the last one while it is under way. */
  ghost predicate StartsArrive(m: Machine) {
    forall i :: 0 <= i < |m.log| && m.log[i].Started? ==>
      (m.cached.Cached? && m.log[i].at <= m.cached.fetchedAt) || (i == |m.log| - 1 && InFlight(m))
  }

  lemma StepKeepsStartsSpaced(m: Machine, s: Step)
    requires Enabled(m, s) && Inv(m) && !LosesFetch(m, s)
    requires StartsArrive(m) && StartsAreSpaced(m.log)
    ensures StartsArrive(Next(m, s)) && StartsAreSpaced(Next(m, s).log)
  {
    if s.Look? {
      assert m.holder == Some(s.caller);
    } else if s.Acquire? {
      assert !InFlight(m);
    }
  }

  /** While no fetch is lost, whoever else gives up waiting, no two fetches start within one interval. */
  lemma {:induction false} SuccessfulFetchesAreSpaced(steps: seq<Step>)
    requires Exec(steps).Some? && NoFetchIsLost(steps)
    ensures StartsArrive(Exec(steps).value) && StartsAreSpaced(Exec(steps).value.log)
    decreases |steps|
  {
    if steps != [] {
      var before := steps[..|steps| - 1];
      assert forall k :: 0 <= k < |before| ==> before[..k] == steps[..k];
      assert NoFetchIsLost(before);
      assert !LosesFetch(Exec(before).value, steps[|steps| - 1]);
      SuccessfulFetchesAreSpaced(before);
      RunKeepsInv(before);
      StepKeepsStartsSpaced(Exec(before).value, steps[|steps| - 1]);
    }
  }

  /** Only successes hold fetches back: two attempts may start at the same instant when one fails. */
  lemma FailedFetchesAreNotSpaced() returns (steps: seq<Step>)
    ensures Exec(steps).Some? && Exec(steps).value.log == [Started(0), Started(0)]
  {
    var s1 := [CurrentKeys(0)];
    ExecSnoc([], CurrentKeys(0));
    assert [] + s1 == s1;
    ExecSnoc(s1, CurrentKeys(1));
    var s2 := s1 + [CurrentKeys(1)];
    ExecSnoc(s2, Acquire(0));
    var s3 := s2 + [Acquire(0)];
    ExecSnoc(s3, Look(0));
    var s4 := s3 + [Look(0)];
    ExecSnoc(s4, FetchFails(0));
    var s5 := s4 + [FetchFails(0)];
    ExecSnoc(s5, Acquire(1));
    var s6 := s5 + [Acquire(1)];
    ExecSnoc(s6, Look(1));
    steps := s6 + [Look(1)];
  }
}
