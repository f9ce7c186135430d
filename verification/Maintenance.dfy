/** One cycle of retention maintenance: bounded batches, given to the tasks in fair rounds. */
module Maintenance {
  import opened Common

  const TASKS: nat := 6
  const U64_MAX: nat := 0xFFFF_FFFF_FFFF_FFFF

  datatype Outcome = Batch(rows: nat, more: bool) | Failed

  /** What the store answers to the `k`-th batch of a task, whatever the other tasks do. */
  type Answers = (nat, nat) -> Outcome

  // ---------------------------------------------------------------------------
  // A task by itself.
  // ---------------------------------------------------------------------------

  /** The task still has work after `n` batches of its own. */
  predicate Active(answers: Answers, task: nat, n: nat) {
    forall k :: 0 <= k < n ==> answers(task, k).Batch? && answers(task, k).more
  }

  /** How many batches a task gets in so many rounds: one a round, up to its first "no more work" or failure. */
  function Batches(answers: Answers, task: nat, rounds: nat): (n: nat)
    ensures n <= rounds
  {
    if rounds == 0 then 0
    else Batches(answers, task, rounds - 1) + if Active(answers, task, rounds - 1) then 1 else 0
  }

  function Rows(answers: Answers, task: nat, n: nat): nat {
    if n == 0 then 0
    else Rows(answers, task, n - 1) + if answers(task, n - 1).Batch? then answers(task, n - 1).rows else 0
  }

  predicate FailedWithin(answers: Answers, task: nat, n: nat) {
    exists k :: 0 <= k < n && answers(task, k).Failed?
  }

  lemma {:induction false} BatchesUntilTheEnd(answers: Answers, task: nat, rounds: nat)
    ensures Active(answers, task, rounds) ==> Batches(answers, task, rounds) == rounds
    ensures !Active(answers, task, rounds) ==>
              0 < Batches(answers, task, rounds) && !Active(answers, task, Batches(answers, task, rounds))
              && Active(answers, task, Batches(answers, task, rounds) - 1)
    decreases rounds
  {
    if rounds > 0 {
      BatchesUntilTheEnd(answers, task, rounds - 1);
    }
  }

  // ---------------------------------------------------------------------------
  // The rounds.
  // ---------------------------------------------------------------------------

  /** The tasks below `task` that get a batch in a round, in order. */
  function Round(answers: Answers, round: nat, task: nat): seq<nat> {
    if task == 0 then []
    else Round(answers, round, task - 1) + if Active(answers, task - 1, round) then [task - 1] else []
  }

  function Schedule(answers: Answers, rounds: nat): seq<nat> {
    if rounds == 0 then [] else Schedule(answers, rounds - 1) + Round(answers, rounds - 1, TASKS)
  }

  lemma {:induction false} IdleRoundsAddNothing(answers: Answers, round: nat, task: nat)
    requires forall t :: 0 <= t < task ==> !Active(answers, t, round)
    ensures Round(answers, round, task) == []
    decreases task
  {
    if task > 0 {
      assert !Active(answers, task - 1, round);
      IdleRoundsAddNothing(answers, round, task - 1);
    }
  }

  lemma {:induction false} NothingMoreHappens(answers: Answers, from: nat, rounds: nat)
    requires from <= rounds && forall t :: 0 <= t < TASKS ==> !Active(answers, t, from)
    ensures Schedule(answers, rounds) == Schedule(answers, from)
    ensures forall t :: 0 <= t < TASKS ==>
              Batches(answers, t, rounds) == Batches(answers, t, from) && !Active(answers, t, rounds)
    decreases rounds
  {
    if from < rounds {
      NothingMoreHappens(answers, from, rounds - 1);
      IdleRoundsAddNothing(answers, rounds - 1, TASKS);
    }
  }

  function CountFailed(answers: Answers, rounds: nat, tasks: nat): nat {
    if tasks == 0 then 0
    else CountFailed(answers, rounds, tasks - 1) +
         if FailedWithin(answers, tasks - 1, Batches(answers, tasks - 1, rounds)) then 1 else 0
  }

  lemma {:induction false} CountFailedIsSmall(answers: Answers, rounds: nat, tasks: nat)
    ensures CountFailed(answers, rounds, tasks) <= tasks
    decreases tasks
  {
    if tasks > 0 {
      CountFailedIsSmall(answers, rounds, tasks - 1);
    }
  }

  lemma {:induction false} CountFailedGrows(answers: Answers, rounds: nat, tasks: nat, more: nat)
    requires tasks <= more
    ensures CountFailed(answers, rounds, tasks) <= CountFailed(answers, rounds, more)
    decreases more
  {
    if tasks < more {
      CountFailedGrows(answers, rounds, tasks, more - 1);
    }
  }

  lemma {:induction false} SameBatchesSameFailures(answers: Answers, a: nat, b: nat, tasks: nat)
    requires forall t :: 0 <= t < tasks ==> Batches(answers, t, a) == Batches(answers, t, b)
    ensures CountFailed(answers, a, tasks) == CountFailed(answers, b, tasks)
    decreases tasks
  {
    if tasks > 0 {
      SameBatchesSameFailures(answers, a, b, tasks - 1);
    }
  }

  ghost predicate Progress(answers: Answers, task: nat, round: nat, active: bool, calls: nat, total: nat) {
    && active == Active(answers, task, round)
    && calls == Batches(answers, task, round)
    && total == Min(Rows(answers, task, calls), U64_MAX)
  }

  /** What one round does to one task. */
  lemma RoundOfTask(answers: Answers, task: nat, round: nat)
    ensures Active(answers, task, round) ==>
              && Batches(answers, task, round) == round && Batches(answers, task, round + 1) == round + 1
              && !FailedWithin(answers, task, round)
              && (FailedWithin(answers, task, round + 1) <==> answers(task, round).Failed?)
    ensures !Active(answers, task, round) ==>
              Batches(answers, task, round + 1) == Batches(answers, task, round) && !Active(answers, task, round + 1)
  {
    BatchesUntilTheEnd(answers, task, round);
  }

  /** Failures counted when a round has reached a task. */
  function FailedBy(answers: Answers, round: nat, task: nat): int {
    CountFailed(answers, round, TASKS) - CountFailed(answers, round, task) + CountFailed(answers, round + 1, task)
  }

  lemma FailuresAreCounted(answers: Answers, round: nat, task: nat)
    requires task < TASKS
    ensures FailedBy(answers, round, task + 1) == FailedBy(answers, round, task) +
              if Active(answers, task, round) && answers(task, round).Failed? then 1 else 0
    ensures 0 <= FailedBy(answers, round, task) < 255
  {
    RoundOfTask(answers, task, round);
    CountFailedGrows(answers, round, task, TASKS);
    CountFailedIsSmall(answers, round, TASKS);
    CountFailedIsSmall(answers, round + 1, task);
  }

  /** What a turn does to a task's progress. */
  lemma TurnOfTask(answers: Answers, task: nat, round: nat, active: bool, calls: nat, total: nat)
    requires Progress(answers, task, round, active, calls, total)
    ensures active == Active(answers, task, round) && (active ==> calls == round)
    ensures var answer := answers(task, round);
            if !active then Progress(answers, task, round + 1, false, calls, total)
            else if answer.Batch?
            then Progress(answers, task, round + 1, answer.more, calls + 1, SaturatingAdd(total, answer.rows, U64_MAX))
            else Progress(answers, task, round + 1, false, calls + 1, total)
  {
    RoundOfTask(answers, task, round);
  }

  /** One task's turn in a round: an active task gets one batch. */
  method RunTask(answers: Answers, ghost round: nat, index: nat, active: array<bool>, calls: array<nat>,
                 totals: array<nat>, failedBefore: nat)
    returns (ran: seq<nat>, failed: nat)
    requires active.Length == calls.Length == totals.Length == TASKS && calls != totals && index < TASKS
    requires Progress(answers, index, round, active[index], calls[index], totals[index])
    requires failedBefore == FailedBy(answers, round, index)
    modifies active, calls, totals
    ensures Progress(answers, index, round + 1, active[index], calls[index], totals[index])
    ensures forall t :: 0 <= t < TASKS && t != index ==>
              active[t] == old(active[t]) && calls[t] == old(calls[t]) && totals[t] == old(totals[t])
    ensures ran == if Active(answers, index, round) then [index] else []
    ensures failed == FailedBy(answers, round, index + 1)
  {
    ran, failed := [], failedBefore;
    TurnOfTask(answers, index, round, active[index], calls[index], totals[index]);
    FailuresAreCounted(answers, round, index);
    if active[index] {
      var outcome := answers(index, calls[index]);
      ran, calls[index] := [index], calls[index] + 1;
      match outcome {
        case Batch(rows, more) =>
          totals[index] := SaturatingAdd(totals[index], rows, U64_MAX);
          active[index] := more;
        case Failed =>
          active[index] := false;
          failed := Min(failed + 1, 255);
      }
    }
  }

  /** One round: each active task, in order, gets one batch. */
  method RunRound(answers: Answers, ghost round: nat, active: array<bool>, calls: array<nat>, totals: array<nat>,
                  failedBefore: nat)
    returns (ran: seq<nat>, failed: nat)
    requires active.Length == calls.Length == totals.Length == TASKS && calls != totals
    requires forall t :: 0 <= t < TASKS ==> Progress(answers, t, round, active[t], calls[t], totals[t])
    requires failedBefore == CountFailed(answers, round, TASKS)
    modifies active, calls, totals
    ensures forall t :: 0 <= t < TASKS ==> Progress(answers, t, round + 1, active[t], calls[t], totals[t])
    ensures ran == Round(answers, round, TASKS)
    ensures failed == CountFailed(answers, round + 1, TASKS)
  {
    ran, failed := [], failedBefore;
    var index := 0;
    while index < TASKS
      invariant 0 <= index <= TASKS
      invariant forall t :: 0 <= t < index ==> Progress(answers, t, round + 1, active[t], calls[t], totals[t])
      invariant forall t :: index <= t < TASKS ==> Progress(answers, t, round, active[t], calls[t], totals[t])
      invariant ran == Round(answers, round, index)
      invariant failed == FailedBy(answers, round, index)
    {
      var one: seq<nat>;
      one, failed := RunTask(answers, round, index, active, calls, totals, failed);
      ran, index := ran + one, index + 1;
    }
  }

  /**
   * A cycle runs exactly the schedule: for each task the batches it would get alone, and the rows they removed
   * added up in its own total, whatever happens to the others.
   */
  method RunMaintenanceCycle(answers: Answers, rounds: nat)
    returns (order: seq<nat>, totals: array<nat>, failed: nat, limitReached: bool)
    ensures fresh(totals) && totals.Length == TASKS
    ensures order == Schedule(answers, rounds)
    ensures forall t :: 0 <= t < TASKS ==> totals[t] == Min(Rows(answers, t, Batches(answers, t, rounds)), U64_MAX)
    ensures failed == CountFailed(answers, rounds, TASKS)
    ensures limitReached <==> exists t :: 0 <= t < TASKS && Active(answers, t, rounds)
  {
    var active := new bool[TASKS](_ => true);
    var calls := new nat[TASKS](_ => 0);
    totals := new nat[TASKS](_ => 0);
    order, failed, limitReached := [], 0, true;
    assert Active(answers, 0, 0);
    var round := 0;
    NoneFailedYet(answers, TASKS);
    while round < rounds && limitReached
      invariant 0 <= round <= rounds
      invariant forall t :: 0 <= t < TASKS ==> Progress(answers, t, round, active[t], calls[t], totals[t])
      invariant order == Schedule(answers, round) && failed == CountFailed(answers, round, TASKS)
      invariant limitReached <==> exists t :: 0 <= t < TASKS && Active(answers, t, round)
    {
      var ran: seq<nat>;
      ran, failed := RunRound(answers, round, active, calls, totals, failed);
      order := order + ran;
      round := round + 1;
      assert forall t :: 0 <= t < TASKS ==> active[t] == Active(answers, t, round);
      limitReached := AnyActive(active);
    }
    if round < rounds {
      NothingMoreHappens(answers, round, rounds);
      SameBatchesSameFailures(answers, round, rounds, TASKS);
    }
  }

  method AnyActive(active: array<bool>) returns (any: bool)
    ensures any <==> exists t :: 0 <= t < active.Length && active[t]
  {
    any := false;
    for i := 0 to active.Length
      invariant any <==> exists t :: 0 <= t < i && active[t]
    {
      any := any || active[i];
    }
  }

  lemma {:induction false} NoneFailedYet(answers: Answers, tasks: nat)
    ensures CountFailed(answers, 0, tasks) == 0
    decreases tasks
  {
    if tasks > 0 {
      NoneFailedYet(answers, tasks - 1);
    }
  }

  // ---------------------------------------------------------------------------
  // Fairness and independence.
  // ---------------------------------------------------------------------------

  /** How many batches a task got in an order. */
  function Got(order: seq<nat>, task: nat): nat
    decreases |order|
  {
    if order == [] then 0
    else Got(order[..|order| - 1], task) + if order[|order| - 1] == task then 1 else 0
  }

  lemma {:induction false} GotAdds(a: seq<nat>, b: seq<nat>, task: nat)
    ensures Got(a + b, task) == Got(a, task) + Got(b, task)
    decreases |b|
  {
    if b == [] {
      assert a + b == a;
    } else {
      GotAdds(a, b[..|b| - 1], task);
      assert (a + b)[..|a + b| - 1] == a + b[..|b| - 1];
    }
  }

  /** Within a round, a task gets its batch once the round has passed it. */
  lemma {:induction false} GotInRound(answers: Answers, round: nat, tasks: nat, task: nat)
    ensures Got(Round(answers, round, tasks), task) == if task < tasks && Active(answers, task, round) then 1 else 0
    decreases tasks
  {
    if tasks > 0 {
      GotInRound(answers, round, tasks - 1, task);
      GotAdds(Round(answers, round, tasks - 1), if Active(answers, tasks - 1, round) then [tasks - 1] else [], task);
      assert Got([tasks - 1], task) == if tasks - 1 == task then 1 else 0;
    }
  }

  lemma GotInOneMoreRound(answers: Answers, round: nat, task: nat)
    requires task < TASKS
    ensures Got(Schedule(answers, round + 1), task) ==
              Got(Schedule(answers, round), task) + if Active(answers, task, round) then 1 else 0
  {
    GotInRound(answers, round, TASKS, task);
    GotAdds(Schedule(answers, round), Round(answers, round, TASKS), task);
  }

  /** In the whole schedule, every task gets exactly what it would get alone. */
  lemma {:induction false} GotInSchedule(answers: Answers, rounds: nat, task: nat)
    requires task < TASKS
    ensures Got(Schedule(answers, rounds), task) == Batches(answers, task, rounds)
    decreases rounds
  {
    if rounds > 0 {
      GotInSchedule(answers, rounds - 1, task);
      GotInOneMoreRound(answers, rounds - 1, task);
    }
  }

  /** Every moment of a cycle lies in some round, after some of its tasks. */
  lemma {:induction false} EveryMomentIsInARound(answers: Answers, rounds: nat, n: nat) returns (round: nat, tasks: nat)
    requires n <= |Schedule(answers, rounds)|
    ensures round <= rounds && tasks <= TASKS
    ensures Schedule(answers, rounds)[..n] == Schedule(answers, round) + Round(answers, round, tasks)
    decreases rounds
  {
    round, tasks := 0, 0;
    if rounds > 0 {
      var before := Schedule(answers, rounds - 1);
      if n <= |before| {
        round, tasks := EveryMomentIsInARound(answers, rounds - 1, n);
        assert Schedule(answers, rounds)[..n] == before[..n];
      } else {
        round := rounds - 1;
        tasks := EveryPartOfARound(answers, round, TASKS, n - |before|);
        assert Schedule(answers, rounds)[..n] == before + Round(answers, round, TASKS)[..n - |before|];
      }
    }
  }

  lemma {:induction false} EveryPartOfARound(answers: Answers, round: nat, tasks: nat, n: nat) returns (some: nat)
    requires n <= |Round(answers, round, tasks)|
    ensures some <= tasks && Round(answers, round, tasks)[..n] == Round(answers, round, some)
    decreases tasks
  {
    some := tasks;
    if n < |Round(answers, round, tasks)| {
      some := EveryPartOfARound(answers, round, tasks - 1, n);
      assert Round(answers, round, tasks)[..n] == Round(answers, round, tasks - 1)[..n];
    }
  }

  /** At every moment of a cycle, no task with work left is more than one batch behind another. */
  lemma NoActiveTaskFallsBehind(answers: Answers, rounds: nat, n: nat, t: nat, u: nat)
    requires t < TASKS && u < TASKS && n <= |Schedule(answers, rounds)|
    requires var order := Schedule(answers, rounds)[..n]; Active(answers, t, Got(order, t))
    ensures var order := Schedule(answers, rounds)[..n]; Got(order, u) <= Got(order, t) + 1
  {
    var round, tasks := EveryMomentIsInARound(answers, rounds, n);
    forall v | v == t || v == u
      ensures Got(Schedule(answers, rounds)[..n], v) ==
                Batches(answers, v, round) + if v < tasks && Active(answers, v, round) then 1 else 0
    {
      GotAdds(Schedule(answers, round), Round(answers, round, tasks), v);
      GotInSchedule(answers, round, v);
      GotInRound(answers, round, tasks, v);
    }
    BatchesUntilTheEnd(answers, t, round);
  }

  lemma {:induction false} SameAnswersSameBatches(answers: Answers, others: Answers, task: nat, rounds: nat)
    requires forall k :: 0 <= k < rounds ==> answers(task, k) == others(task, k)
    ensures Active(answers, task, rounds) == Active(others, task, rounds)
    ensures Batches(answers, task, rounds) == Batches(others, task, rounds)
    ensures forall n :: 0 <= n <= rounds ==> Rows(answers, task, n) == Rows(others, task, n)
    decreases rounds
  {
    if rounds > 0 {
      SameAnswersSameBatches(answers, others, task, rounds - 1);
    }
  }

  /**
   * In the schedule of all tasks together, one task gets as many batches, and adds up as many rows, whatever
   * the store answers to the others, failures included.
   */
  lemma TasksAreIndependent(answers: Answers, others: Answers, task: nat, rounds: nat)
    requires task < TASKS && forall k :: 0 <= k < rounds ==> answers(task, k) == others(task, k)
    ensures var got := Got(Schedule(answers, rounds), task);
            && got == Got(Schedule(others, rounds), task)
            && Rows(answers, task, got) == Rows(others, task, got)
  {
    GotInSchedule(answers, rounds, task);
    GotInSchedule(others, rounds, task);
    SameAnswersSameBatches(answers, others, task, rounds);
  }

  // ---------------------------------------------------------------------------
  // The cycle's parts, from the answers alone.
  // ---------------------------------------------------------------------------

  /** The k-th batch of a task runs exactly when there are that many rounds and every answer before asked for more. */
  lemma BatchRunsExactlyWhileMoreWork(answers: Answers, task: nat, rounds: nat, k: nat)
    ensures k < Batches(answers, task, rounds) <==>
              k < rounds && forall j :: 0 <= j < k ==> answers(task, j) != Failed && answers(task, j).more
  {
    BatchesUntilTheEnd(answers, task, rounds);
    assert Active(answers, task, k) <==> forall j :: 0 <= j < k ==> answers(task, j) != Failed && answers(task, j).more;
    var n := Batches(answers, task, rounds);
    if k < n && n < rounds {
      assert Active(answers, task, n - 1);
    } else if n <= k < rounds {
      assert !Active(answers, task, n);
    }
  }

  function RowsIn(o: Outcome): nat {
    if o.Failed? then 0 else o.rows
  }

  /** A total is nothing where every batch failed, and follows each single batch row for row. */
  lemma {:induction false} RowsFollowEveryBatch(answers: Answers, others: Answers, task: nat, n: nat, k: nat)
    requires k < n && forall j :: 0 <= j < n && j != k ==> answers(task, j) == others(task, j)
    ensures Rows(answers, task, n) + RowsIn(others(task, k)) == Rows(others, task, n) + RowsIn(answers(task, k))
    ensures (forall j :: 0 <= j < n ==> answers(task, j) == Failed) ==> Rows(answers, task, n) == 0
    decreases n
  {
    if k < n - 1 {
      RowsFollowEveryBatch(answers, others, task, n - 1, k);
    } else {
      SameAnswersSameRows(answers, others, task, n - 1);
      NoRowsWhereAllFailed(answers, task, n - 1);
    }
  }

  lemma {:induction false} SameAnswersSameRows(answers: Answers, others: Answers, task: nat, n: nat)
    requires forall j :: 0 <= j < n ==> answers(task, j) == others(task, j)
    ensures Rows(answers, task, n) == Rows(others, task, n)
    decreases n
  {
    if n > 0 { SameAnswersSameRows(answers, others, task, n - 1); }
  }

  lemma {:induction false} NoRowsWhereAllFailed(answers: Answers, task: nat, n: nat)
    ensures (forall j :: 0 <= j < n ==> answers(task, j) == Failed) ==> Rows(answers, task, n) == 0
    decreases n
  {
    if n > 0 { NoRowsWhereAllFailed(answers, task, n - 1); }
  }

  /** The task had a batch that failed. */
  ghost predicate Fails(answers: Answers, rounds: nat, task: nat) {
    exists k :: 0 <= k < Batches(answers, task, rounds) && answers(task, k) == Failed
  }

  ghost function FailedTasks(answers: Answers, rounds: nat, tasks: nat): set<nat> {
    set t: nat | t < tasks && Fails(answers, rounds, t)
  }

  lemma OneMoreFailedTask(answers: Answers, rounds: nat, tasks: nat)
    ensures FailedTasks(answers, rounds, tasks + 1) ==
              FailedTasks(answers, rounds, tasks) + if Fails(answers, rounds, tasks) then {tasks} else {}
    ensures tasks !in FailedTasks(answers, rounds, tasks)
  {
  }

  /** The failures reported are the tasks, each once, that had a batch fail. */
  lemma {:induction false} FailuresAreTheFailedTasks(answers: Answers, rounds: nat, tasks: nat)
    ensures CountFailed(answers, rounds, tasks) == |FailedTasks(answers, rounds, tasks)|
    decreases tasks
  {
    if tasks > 0 {
      FailuresAreTheFailedTasks(answers, rounds, tasks - 1);
      OneMoreFailedTask(answers, rounds, tasks - 1);
      assert Fails(answers, rounds, tasks - 1) <==>
             FailedWithin(answers, tasks - 1, Batches(answers, tasks - 1, rounds));
    } else {
      assert FailedTasks(answers, rounds, 0) == {};
    }
  }

  ghost predicate Ascending(order: seq<nat>) {
    forall i, j :: 0 <= i < j < |order| ==> order[i] < order[j]
  }

  /** A round gives one batch to each task with work left, in the order of the tasks. */
  lemma {:induction false} RoundsAreInOrder(answers: Answers, round: nat, tasks: nat)
    ensures Ascending(Round(answers, round, tasks))
    ensures forall t :: t in Round(answers, round, tasks) <==> 0 <= t < tasks && Active(answers, t, round)
    decreases tasks
  {
    if tasks > 0 {
      RoundsAreInOrder(answers, round, tasks - 1);
      var before := Round(answers, round, tasks - 1);
      forall i | 0 <= i < |before| ensures before[i] < tasks - 1 {
        assert before[i] in before;
      }
    }
  }
}
