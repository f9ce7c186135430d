/** What the schedule of a run of observing Carbons says about its state: who stands, and who is sent what. */
module ObserverHistory {
  import opened Common
  import opened Histories
  import opened Observers

  type Kind = (Machine, Step) -> bool

  /** The steps of a run, each with the machine it found. */
  function Past(steps: seq<Step>): (past: seq<(Machine, Step)>)
    requires Exec(steps).Some?
    ensures |past| == |steps|
    decreases |steps|
  {
    if steps == [] then [] else
    var before := steps[..|steps| - 1];
    Past(before) + [(Exec(before).value, steps[|steps| - 1])]
  }

  // ---------------------------------------------------------------------------
  // Which subscriptions stand.
  // ---------------------------------------------------------------------------

  /** The transaction that inserted the row commits. */
  function Adding(id: SubId, sub: Sub): Kind {
    (m: Machine, s: Step) => s.Commit? && s.txn in m.txns && m.txns[s.txn] == Subscribing(sub, Inserted(id))
  }

  /** An unsubscription of the pair commits, or a change of access in Accounts removes the row. */
  function Removing(id: SubId, sub: Sub): Kind {
    (m: Machine, s: Step) =>
      || (s.Commit? && s.txn in m.txns && m.txns[s.txn].Unsubscribing? && m.txns[s.txn].sub == sub)
      || (s.AccountsChange? && id in s.removed)
  }

  ghost predicate Stands(m: Machine, id: SubId, sub: Sub) {
    id in m.subs && m.subs[id] == sub
  }

  lemma StepChangesSubs(m: Machine, s: Step, id: SubId, sub: Sub)
    requires Enabled(m, s) && RowInv(m)
    ensures Stands(Next(m, s), id, sub) <==>
              Adding(id, sub)(m, s) || (Stands(m, id, sub) && !Removing(id, sub)(m, s))
  {
    if s.Commit? && m.txns[s.txn].Subscribing? {
      assert StageOk(m, m.txns[s.txn].sub, m.txns[s.txn].stage);
    } else if s.Commit? || s.AccountsChange? {
    } else {
      QuietSteps(m, s);
    }
  }

  /** A subscription stands exactly while the subscribing that inserted it is committed and nothing removed it since. */
  lemma {:induction false} StandsExactlyUntilRemoved(steps: seq<Step>, id: SubId, sub: Sub)
    requires Exec(steps).Some?
    ensures Stands(Exec(steps).value, id, sub) <==> Standing(Past(steps), Adding(id, sub), Removing(id, sub))
    decreases |steps|
  {
    if steps != [] {
      var before := steps[..|steps| - 1];
      RunKeepsInv(before);
      StandsExactlyUntilRemoved(before, id, sub);
      StandingLast(Past(before), (Exec(before).value, steps[|before|]), Adding(id, sub), Removing(id, sub));
      StepChangesSubs(Exec(before).value, steps[|steps| - 1], id, sub);
    }
  }

  /** Once an unsubscribing is committed the pair is gone, and with it every queued copy it had. */
  lemma UnsubscribingEndsThePair(steps: seq<Step>, t: TxnId, c: Copy)
    requires Exec(steps).Some? && Enabled(Exec(steps).value, Commit(t)) && Exec(steps).value.txns[t].Unsubscribing?
    ensures var m, n := Exec(steps).value, Next(Exec(steps).value, Commit(t));
            && Absent(n, m.txns[t].sub)
            && (c.sub.Some? && Stands(m, c.sub.value, m.txns[t].sub) ==> c !in n.outbox)
            && (!(c.sub.Some? && Stands(m, c.sub.value, m.txns[t].sub)) ==> (c in n.outbox <==> c in m.outbox))
  {
    var m, n := Exec(steps).value, Next(Exec(steps).value, Commit(t));
    var sub := m.txns[t].sub;
    RunKeepsInv(steps);
    RunKeepsOutbox(steps);
    StepKeepsOutbox(m, Commit(t));
    forall id | id in n.subs ensures n.subs[id] != sub {
      StepChangesSubs(m, Commit(t), id, n.subs[id]);
    }
    if c.sub.Some? {
      OutboxFollows(m, n, t, c);
    } else {
      assert c in n.outbox <==> Owed(n, c);
      assert c in m.outbox <==> Owed(m, c);
    }
  }

  lemma OutboxFollows(m: Machine, n: Machine, t: TxnId, c: Copy)
    requires Enabled(m, Commit(t)) && m.txns[t].Unsubscribing? && n == Next(m, Commit(t)) && c.sub.Some?
    requires RowInv(m) && HoldsOwed(m) && HoldsOwed(n)
    ensures c in n.outbox <==> c in m.outbox && !Stands(m, c.sub.value, m.txns[t].sub)
  {
    var id := c.sub.value;
    assert c in n.outbox <==> Owed(n, c);
    assert c in m.outbox <==> Owed(m, c);
    if id in m.subs {
      StepChangesSubs(m, Commit(t), id, m.subs[id]);
    }
    if id in n.subs {
      StepChangesSubs(m, Commit(t), id, n.subs[id]);
    }
  }

  // ---------------------------------------------------------------------------
  // Undisturbed transactions.
  // ---------------------------------------------------------------------------

  lemma ExecSnoc(steps: seq<Step>, s: Step)
    requires Exec(steps).Some? && Enabled(Exec(steps).value, s)
    ensures Exec(steps + [s]) == Some(Next(Exec(steps).value, s))
  {
    assert (steps + [s])[..|steps|] == steps;
  }

  /** Why a Carbon does not get a new row. */
  ghost predicate Declined(m: Machine, sub: Sub) {
    !Absent(m, sub) || |RowsOf(m, sub.silicon)| >= 100 || sub.silicon == sub.recipient
  }

  /** The machine with one transaction moved on. */
  ghost predicate Moved(m: Machine, n: Machine, t: TxnId, txn: Txn) {
    && n.txns == m.txns[t := txn] && n.subs == m.subs && n.access == m.access
    && n.outbox == m.outbox && n.accepted == m.accepted
  }

  lemma SubscribingLooks(steps: seq<Step>, t: TxnId, sub: Sub) returns (more: seq<Step>)
    requires Exec(steps).Some? && t !in Exec(steps).value.txns && LockFree(Exec(steps).value, sub.silicon, true)
    ensures more == [BeginSubscribe(t, sub), Lock(t), FindExisting(t)]
    ensures var m, end := Exec(steps).value, Exec(steps + more);
            && end.Some? && end.value.ids == m.ids
            && Moved(m, end.value, t, if Absent(m, sub) then Subscribing(sub, NotFound) else Done)
  {
    more := [BeginSubscribe(t, sub), Lock(t), FindExisting(t)];
    ExecSnoc(steps, more[0]);
    ExecSnoc(steps + [more[0]], more[1]);
    ExecSnoc(steps + [more[0]] + [more[1]], more[2]);
    assert steps + more == steps + [more[0]] + [more[1]] + [more[2]];
  }

  /** The statements that follow the look for an existing row: count, insert, commit. */
  function Inserts(m: Machine, t: TxnId, id: SubId, sub: Sub): seq<Step> {
    if |RowsOf(m, sub.silicon)| >= 100 then [CountRows(t)]
    else if sub.silicon == sub.recipient then [CountRows(t), Insert(t, id)]
    else [CountRows(t), Insert(t, id), Commit(t)]
  }

  lemma SubscribingInserts(steps: seq<Step>, t: TxnId, id: SubId, sub: Sub)
    requires Exec(steps).Some? && t in Exec(steps).value.txns
    requires Exec(steps).value.txns[t] == Subscribing(sub, NotFound) && id !in Exec(steps).value.ids
    ensures var m := Exec(steps).value;
            var end := Exec(steps + Inserts(m, t, id, sub));
            && end.Some? && t in end.value.txns && end.value.txns[t].Done?
            && end.value.subs == if |RowsOf(m, sub.silicon)| >= 100 || sub.silicon == sub.recipient
                                 then m.subs else m.subs[id := sub]
  {
    var m := Exec(steps).value;
    ExecSnoc(steps, CountRows(t));
    var a := steps + [CountRows(t)];
    if |RowsOf(m, sub.silicon)| < 100 {
      assert Exec(a).value.txns[t] == Subscribing(sub, BelowLimit) && Exec(a).value.subs == m.subs;
      ExecSnoc(a, Insert(t, id));
      var b := a + [Insert(t, id)];
      if sub.silicon != sub.recipient {
        assert Exec(b).value.txns[t] == Subscribing(sub, Inserted(id)) && Exec(b).value.subs == m.subs;
        ExecSnoc(b, Commit(t));
        assert steps + Inserts(m, t, id, sub) == b + [Commit(t)];
      } else {
        assert steps + Inserts(m, t, id, sub) == b;
      }
    }
  }

  /**
   * An undisturbed subscribing leaves the pair standing, and adds a row exactly when the pair had
   * none, fewer than one hundred observe the Silicon, and the Silicon is not asking for itself.
   */
  lemma SubscribingTakesEffect(steps: seq<Step>, t: TxnId, id: SubId, sub: Sub) returns (more: seq<Step>)
    requires Exec(steps).Some? && t !in Exec(steps).value.txns && LockFree(Exec(steps).value, sub.silicon, true)
    requires id !in Exec(steps).value.ids
    ensures var m := Exec(steps).value;
            var end := Exec(steps + more);
            && end.Some? && t in end.value.txns && end.value.txns[t].Done?
            && end.value.subs == if Declined(m, sub) then m.subs else m.subs[id := sub]
  {
    var m := Exec(steps).value;
    more := SubscribingLooks(steps, t, sub);
    if Absent(m, sub) {
      var found := Exec(steps + more).value;
      assert RowsOf(found, sub.silicon) == RowsOf(m, sub.silicon);
      SubscribingInserts(steps + more, t, id, sub);
      assert steps + more + Inserts(found, t, id, sub) == steps + (more + Inserts(found, t, id, sub));
      more := more + Inserts(found, t, id, sub);
    }
  }

  /** An undisturbed unsubscribing leaves every other pair's rows, and none of its own. */
  lemma UnsubscribingTakesEffect(steps: seq<Step>, t: TxnId, sub: Sub)
    requires Exec(steps).Some? && t !in Exec(steps).value.txns && LockFree(Exec(steps).value, sub.silicon, true)
    ensures var m := Exec(steps).value;
            var end := Exec(steps + [BeginUnsubscribe(t, sub)] + [Lock(t)] + [Commit(t)]);
            && end.Some? && Absent(end.value, sub)
            && forall id, other :: other != sub ==> (Stands(end.value, id, other) <==> Stands(m, id, other))
  {
    ExecSnoc(steps, BeginUnsubscribe(t, sub));
    ExecSnoc(steps + [BeginUnsubscribe(t, sub)], Lock(t));
    ExecSnoc(steps + [BeginUnsubscribe(t, sub)] + [Lock(t)], Commit(t));
  }

  // ---------------------------------------------------------------------------
  // Acceptances.
  // ---------------------------------------------------------------------------

  /** The transaction accepting the event commits. */
  function AcceptCommits(event: EventId): Kind {
    (m: Machine, s: Step) =>
      s.Commit? && s.txn in m.txns && m.txns[s.txn].Accepting? && m.txns[s.txn].event == event
  }

  lemma StepAccepts(m: Machine, s: Step, event: EventId)
    requires Enabled(m, s)
    ensures event in Next(m, s).accepted <==> event in m.accepted || AcceptCommits(event)(m, s)
  {
  }

  /** An event is accepted exactly when the transaction accepting it committed. */
  lemma {:induction false} AcceptedExactlyOnCommit(steps: seq<Step>, event: EventId)
    requires Exec(steps).Some?
    ensures event in Exec(steps).value.accepted <==> Since(Past(steps), 0, AcceptCommits(event))
    decreases |steps|
  {
    if steps != [] {
      var before := steps[..|steps| - 1];
      AcceptedExactlyOnCommit(before, event);
      SinceLast(Past(before), (Exec(before).value, steps[|before|]), 0, AcceptCommits(event));
      StepAccepts(Exec(before).value, steps[|steps| - 1], event);
    }
  }

  ghost predicate Progressing(m: Machine, t: TxnId, event: EventId, silicon: Silicon, rows: seq<SubId>, sent: nat) {
    && t in m.txns && m.txns[t].Accepting? && m.txns[t].event == event && m.txns[t].silicon == silicon
    && m.txns[t].progress.Selected? && m.txns[t].progress.rows == rows && |m.txns[t].progress.pending| == sent
  }

  function Enqueues(t: TxnId, n: nat): seq<Step> {
    seq(n, _ => Enqueue(t))
  }

  lemma OneEnqueue(steps: seq<Step>, t: TxnId, event: EventId, s: Silicon, rows: seq<SubId>, sent: nat)
    requires Exec(steps).Some? && Progressing(Exec(steps).value, t, event, s, rows, sent) && 1 <= sent <= |rows|
    requires Elements(rows) <= Exec(steps).value.subs.Keys
    ensures var m, end := Exec(steps).value, Exec(steps + [Enqueue(t)]);
            && end.Some? && Progressing(end.value, t, event, s, rows, sent + 1)
            && end.value.subs == m.subs && end.value.accepted == m.accepted
  {
    assert rows[sent - 1] in Elements(rows);
    EnqueueFailsOnlyForARevokedObserver(steps, t);
    ExecSnoc(steps, Enqueue(t));
  }

  lemma {:induction false} EnqueuesRun(
    steps: seq<Step>, t: TxnId, event: EventId, s: Silicon, rows: seq<SubId>, n: nat)
    requires Exec(steps).Some? && Progressing(Exec(steps).value, t, event, s, rows, 1) && n <= |rows|
    requires Elements(rows) <= Exec(steps).value.subs.Keys
    ensures var m, end := Exec(steps).value, Exec(steps + Enqueues(t, n));
            && end.Some? && Progressing(end.value, t, event, s, rows, n + 1)
            && end.value.subs == m.subs && end.value.accepted == m.accepted
    decreases n
  {
    if n == 0 {
      assert steps + Enqueues(t, 0) == steps;
    } else {
      EnqueuesRun(steps, t, event, s, rows, n - 1);
      OneEnqueue(steps + Enqueues(t, n - 1), t, event, s, rows, n);
      assert steps + Enqueues(t, n) == steps + Enqueues(t, n - 1) + [Enqueue(t)];
    }
  }

  lemma AcceptingSelects(steps: seq<Step>, t: TxnId, event: EventId, s: Silicon, rows: seq<SubId>)
    requires Exec(steps).Some? && Enabled(Exec(steps).value, BeginAccept(t, event, s))
    requires LockFree(Exec(steps).value, s, false)
    requires Ascending(rows) && Elements(rows) == Eligible(Exec(steps).value, s)
    ensures var m, end := Exec(steps).value, Exec(steps + [BeginAccept(t, event, s)] + [Lock(t)] + [Select(t, rows)]);
            && end.Some? && Progressing(end.value, t, event, s, rows, 1)
            && end.value.subs == m.subs && end.value.accepted == m.accepted
  {
    var m := Exec(steps).value;
    ExecSnoc(steps, BeginAccept(t, event, s));
    var a := steps + [BeginAccept(t, event, s)];
    ExecSnoc(a, Lock(t));
    var b := a + [Lock(t)];
    var locked := Exec(b).value;
    assert locked.subs == m.subs && locked.access == m.access && locked.txns[t] == Accepting(event, s, Shared);
    assert Eligible(locked, s) == Eligible(m, s);
    ObserverLimitIsNeverExceeded(b, t, rows);
    ExecSnoc(b, Select(t, rows));
  }

  /** An undisturbed acceptance, whatever rows it selects, enqueues a copy for each and commits. */
  lemma AcceptingTakesEffect(steps: seq<Step>, t: TxnId, event: EventId, s: Silicon, rows: seq<SubId>)
    returns (more: seq<Step>)
    requires Exec(steps).Some? && Enabled(Exec(steps).value, BeginAccept(t, event, s))
    requires LockFree(Exec(steps).value, s, false)
    requires Ascending(rows) && Elements(rows) == Eligible(Exec(steps).value, s)
    ensures Exec(steps + more).Some? && event in Exec(steps + more).value.accepted
    ensures Exec(steps + more).value.accepted[event].silicon == s
  {
    AcceptingSelects(steps, t, event, s, rows);
    var c := steps + [BeginAccept(t, event, s)] + [Lock(t)] + [Select(t, rows)];
    EnqueuesRun(c, t, event, s, rows, |rows|);
    var d := c + Enqueues(t, |rows|);
    ExecSnoc(d, Commit(t));
    more := [BeginAccept(t, event, s), Lock(t), Select(t, rows)] + Enqueues(t, |rows|) + [Commit(t)];
    assert steps + more == d + [Commit(t)];
  }

  /** Access as the last change in Accounts left it. */
  function LastAccess(steps: seq<Step>): Access {
    if steps == [] then Access({}, {})
    else if steps[|steps| - 1].AccountsChange? then steps[|steps| - 1].access
    else LastAccess(steps[..|steps| - 1])
  }

  lemma {:induction false} AccessIsTheLast(steps: seq<Step>)
    requires Exec(steps).Some?
    ensures Exec(steps).value.access == LastAccess(steps)
    decreases |steps|
  {
    if steps != [] {
      AccessIsTheLast(steps[..|steps| - 1]);
      StepChangesAccess(Exec(steps[..|steps| - 1]).value, steps[|steps| - 1]);
    }
  }

  lemma StepChangesAccess(m: Machine, s: Step)
    requires Enabled(m, s)
    ensures Next(m, s).access == if s.AccountsChange? then s.access else m.access
  {
  }

  /** The Carbon observes the Silicon and may see its events, by what was committed and changed in these steps. */
  ghost predicate Observes(steps: seq<Step>, sub: Sub)
    requires Exec(steps).Some?
  {
    && (exists id :: Standing(Past(steps), Adding(id, sub), Removing(id, sub)))
    && sub in LastAccess(steps).holders && sub.recipient !in LastAccess(steps).deleted
  }

  lemma ObserversAreEligible(steps: seq<Step>, sub: Sub)
    requires Exec(steps).Some?
    ensures Observes(steps, sub) <==>
              exists id :: id in Eligible(Exec(steps).value, sub.silicon) && Exec(steps).value.subs[id] == sub
  {
    var m := Exec(steps).value;
    AccessIsTheLast(steps);
    forall id ensures Stands(m, id, sub) <==> Standing(Past(steps), Adding(id, sub), Removing(id, sub)) {
      StandsExactlyUntilRemoved(steps, id, sub);
    }
    if Observes(steps, sub) {
      var id :| Standing(Past(steps), Adding(id, sub), Removing(id, sub));
      assert Stands(m, id, sub);
      assert id in Eligible(m, sub.silicon);
    }
    if id :| id in Eligible(m, sub.silicon) && m.subs[id] == sub {
      assert Stands(m, id, sub);
    }
  }

  ghost predicate SentTo(sends: seq<Copy>, recipient: Carbon) {
    exists i :: 0 <= i < |sends| && sends[i].recipient == recipient
  }

  lemma OwedReaches(k: Machine, event: EventId, s: Silicon, sends: seq<Copy>, recipient: Carbon)
    requires ExactlyOwed(k, event, s, sends)
    ensures SentTo(sends, recipient) <==>
              recipient == s || exists id :: id in Eligible(k, s) && k.subs[id] == Sub(s, recipient)
  {
    if SentTo(sends, recipient) && recipient != s {
      var i :| 0 <= i < |sends| && sends[i].recipient == recipient;
      assert sends[i].sub.value in Eligible(k, s) && k.subs[sends[i].sub.value] == Sub(s, recipient);
    }
    if recipient == s {
      assert sends[0].recipient == recipient;
    }
    if id :| id in Eligible(k, s) && k.subs[id] == Sub(s, recipient) {
      var i :| 1 <= i < |sends| && sends[i].sub == Some(id);
      assert sends[i].recipient == recipient;
    }
  }

  /**
   * An accepted event reaches its Silicon and exactly the Carbons that, by the steps before its
   * selection, had subscribed, had not been removed, and still had access and an account.
   */
  lemma EventReachesExactlyTheObservers(steps: seq<Step>, e: EventId, recipient: Carbon)
    requires Exec(steps).Some? && e in Exec(steps).value.accepted
    ensures var a := Exec(steps).value.accepted[e];
            && a.selectedAt < |steps| && Exec(steps[..a.selectedAt]).Some?
            && (SentTo(a.sends, recipient) <==>
                  recipient == a.silicon || Observes(steps[..a.selectedAt], Sub(a.silicon, recipient)))
  {
    var a := Exec(steps).value.accepted[e];
    EveryObserverGetsExactlyOneCopy(steps, e);
    OwedReaches(Exec(steps[..a.selectedAt]).value, e, a.silicon, a.sends, recipient);
    ObserversAreEligible(steps[..a.selectedAt], Sub(a.silicon, recipient));
  }
}
