/** What the schedule of a publication run says about its state: each part is the work of named steps, and no other. */
module PublicationHistory {
  import opened Common
  import opened Histories
  import opened Publication

  type Kind = (Machine, Step) -> bool

  /** The steps of a run, each with the machine it found. */
  function Past(digest: string -> string, steps: seq<Step>): (past: seq<(Machine, Step)>)
    requires Exec(digest, steps).Some?
    ensures |past| == |steps|
    decreases |steps|
  {
    if steps == [] then [] else
    var before := steps[..|steps| - 1];
    Past(digest, before) + [(Exec(digest, before).value, steps[|steps| - 1])]
  }

  lemma {:induction false} PastIs(digest: string -> string, steps: seq<Step>, k: nat)
    requires Exec(digest, steps).Some? && k < |steps|
    ensures Past(digest, steps)[k].1 == steps[k] && Exec(digest, steps[..k]) == Some(Past(digest, steps)[k].0)
    ensures Enabled(Past(digest, steps)[k].0, steps[k])
    decreases |steps|
  {
    var before := steps[..|steps| - 1];
    if k < |before| {
      PastIs(digest, before, k);
      assert before[..k] == steps[..k];
    }
  }

  lemma SinceSnoc(digest: string -> string, steps: seq<Step>, j: nat, kind: Kind)
    requires Exec(digest, steps).Some? && j < |steps|
    ensures Exec(digest, steps[..|steps| - 1]).Some?
    ensures var before := steps[..|steps| - 1];
            Since(Past(digest, steps), j, kind) <==>
              Since(Past(digest, before), j, kind) || kind(Exec(digest, before).value, steps[|steps| - 1])
  {
    var before := steps[..|steps| - 1];
    SinceLast(Past(digest, before), (Exec(digest, before).value, steps[|steps| - 1]), j, kind);
  }

  // ---------------------------------------------------------------------------
  // The queue.
  // ---------------------------------------------------------------------------

  /** A send of the event to the recipient is queued while it has time left. */
  function Asking(event: string, recipient: string): Kind {
    (m: Machine, s: Step) => s.Enqueue? && s.event == event && s.recipient == recipient && m.now < s.expiresAt
  }

  /** One send per event and recipient is queued, by the first request that comes before its expiry. */
  lemma {:induction false} QueuedExactlyOnceAsked(
    digest: string -> string, steps: seq<Step>, event: string, recipient: string)
    requires Exec(digest, steps).Some?
    ensures Queued(Exec(digest, steps).value, event, recipient) <==>
              Since(Past(digest, steps), 0, Asking(event, recipient))
    decreases |steps|
  {
    if steps != [] {
      var before, last := steps[..|steps| - 1], steps[|steps| - 1];
      QueuedExactlyOnceAsked(digest, before, event, recipient);
      SinceSnoc(digest, steps, 0, Asking(event, recipient));
      var m := Exec(digest, before).value;
      StepQueues(digest, m, last, event, recipient);
    }
  }

  lemma StepQueues(digest: string -> string, m: Machine, s: Step, event: string, recipient: string)
    requires Enabled(m, s)
    ensures Queued(Next(digest, m, s), event, recipient) <==>
              Queued(m, event, recipient) || Asking(event, recipient)(m, s)
  {
    var n := Next(digest, m, s);
    StepEnqueues(digest, m, s);
    if s.Enqueue? && m.now < s.expiresAt && !Queued(m, s.event, s.recipient) {
      assert s.row in n.enqueued && n.enqueued[s.row].event == s.event;
      assert forall r :: r in m.enqueued ==> r in n.enqueued && n.enqueued[r] == m.enqueued[r];
      assert forall r :: r in n.enqueued && r != s.row ==> r in m.enqueued && n.enqueued[r] == m.enqueued[r];
      if s.event == event && s.recipient == recipient {
        assert n.enqueued[s.row].event == event && n.enqueued[s.row].recipient == recipient;
      }
    }
  }

  /** The row is queued now, as asked: one hook event, under the key of its event and recipient, due at once. */
  function Queueing(digest: string -> string, row: RowId, queued: Row): Kind {
    (m: Machine, s: Step) =>
      && s.Enqueue? && s.row == row && m.now < s.expiresAt && !Queued(m, s.event, s.recipient)
      && queued == Row(s.event, s.recipient,
                       Body("hook.webhook.received", s.recipient, "hook:" + s.event + ":" + digest(s.recipient),
                            s.data, s.required),
                       s.expiresAt, Progress(m.now, 0, None, None, false))
  }

  /** Every queued row is what one request asked for, and every first request in time queued its row. */
  lemma {:induction false} RowsAreQueuedAsAsked(digest: string -> string, steps: seq<Step>, row: RowId, queued: Row)
    requires Exec(digest, steps).Some?
    ensures row in Exec(digest, steps).value.enqueued && Exec(digest, steps).value.enqueued[row] == queued <==>
              Since(Past(digest, steps), 0, Queueing(digest, row, queued))
    decreases |steps|
  {
    if steps != [] {
      var before := steps[..|steps| - 1];
      RowsAreQueuedAsAsked(digest, before, row, queued);
      SinceSnoc(digest, steps, 0, Queueing(digest, row, queued));
      StepQueuesRow(digest, Exec(digest, before).value, steps[|steps| - 1], row, queued);
    }
  }

  lemma PreparedBody(digest: string -> string, event: string, recipient: string, data: string, required: bool)
    ensures PrepareEvent(digest, event, recipient, data, required)
            == Body("hook.webhook.received", recipient, "hook:" + event + ":" + digest(recipient), data, required)
  {
  }

  lemma StepQueuesRow(digest: string -> string, m: Machine, s: Step, row: RowId, queued: Row)
    requires Enabled(m, s)
    ensures var n := Next(digest, m, s);
            row in n.enqueued && n.enqueued[row] == queued <==>
              (row in m.enqueued && m.enqueued[row] == queued) || Queueing(digest, row, queued)(m, s)
  {
    if s.Enqueue? {
      PreparedBody(digest, s.event, s.recipient, s.data, s.required);
    } else {
      StepEnqueues(digest, m, s);
    }
  }

  lemma StepKeepsRow(digest: string -> string, m: Machine, s: Step, row: RowId)
    requires Enabled(m, s)
    ensures row in m.enqueued ==> row in Next(digest, m, s).enqueued
    ensures row in Next(digest, m, s).rows <==>
              (row in m.rows && s != Purge(row)) || (row in Next(digest, m, s).enqueued && row !in m.enqueued)
  {
    if s.Enqueue? {
    } else {
      StepEnqueues(digest, m, s);
    }
  }

  /** A queued row stays in the outbox until its event is removed. */
  lemma {:induction false} RowsStayUntilPurged(digest: string -> string, steps: seq<Step>, row: RowId)
    requires Exec(digest, steps).Some?
    ensures row in Exec(digest, steps).value.rows <==>
              row in Exec(digest, steps).value.enqueued && Purge(row) !in steps
    decreases |steps|
  {
    if steps != [] {
      var before, last := steps[..|steps| - 1], steps[|steps| - 1];
      RowsStayUntilPurged(digest, before, row);
      assert steps == before + [last];
      var m := Exec(digest, before).value;
      StepKeepsRow(digest, m, last, row);
      if row !in m.enqueued && Purge(row) in before {
        PurgesFollowQueueing(digest, before, row);
      }
      StepEnqueues(digest, m, last);
    }
  }

  lemma {:induction false} PurgesFollowQueueing(digest: string -> string, steps: seq<Step>, row: RowId)
    requires Exec(digest, steps).Some? && Purge(row) in steps
    ensures row in Exec(digest, steps).value.enqueued
    decreases |steps|
  {
    var before, last := steps[..|steps| - 1], steps[|steps| - 1];
    assert steps == before + [last];
    StepKeepsRow(digest, Exec(digest, before).value, last, row);
    RunKeepsInv(digest, before);
    if last != Purge(row) {
      PurgesFollowQueueing(digest, before, row);
    }
  }

  lemma StepRetires(digest: string -> string, m: Machine, s: Step, row: RowId)
    requires Enabled(m, s) && row in Next(digest, m, s).rows && (row in m.rows ==> row in m.enqueued)
    ensures Next(digest, m, s).rows[row].progress.legacy <==>
              s == Retire(row) || (row in m.rows && m.rows[row].progress.legacy)
  {
  }

  /** A stored row is retired exactly when its recipient's identity was retired after it was queued. */
  lemma {:induction false} RetiredExactlyOnceAsked(digest: string -> string, steps: seq<Step>, row: RowId)
    requires Exec(digest, steps).Some? && row in Exec(digest, steps).value.rows
    ensures Exec(digest, steps).value.rows[row].progress.legacy <==> Retire(row) in steps
    decreases |steps|
  {
    var before, last := steps[..|steps| - 1], steps[|steps| - 1];
    var m := Exec(digest, before).value;
    assert steps == before + [last];
    RunKeepsInv(digest, before);
    StepRetires(digest, m, last, row);
    StepKeepsRow(digest, m, last, row);
    if row in m.rows {
      RetiredExactlyOnceAsked(digest, before, row);
    } else if Retire(row) in before {
      RetirementsFollowQueueing(digest, before, row);
    }
  }

  lemma {:induction false} RetirementsFollowQueueing(digest: string -> string, steps: seq<Step>, row: RowId)
    requires Exec(digest, steps).Some? && Retire(row) in steps
    ensures row in Exec(digest, steps).value.enqueued
    decreases |steps|
  {
    var before, last := steps[..|steps| - 1], steps[|steps| - 1];
    assert steps == before + [last];
    StepKeepsRow(digest, Exec(digest, before).value, last, row);
    RunKeepsInv(digest, before);
    if last != Retire(row) {
      RetirementsFollowQueueing(digest, before, row);
    }
  }

  // ---------------------------------------------------------------------------
  // Leases.
  // ---------------------------------------------------------------------------

  /** The lease is over early: its row is gone or retired, or its publisher reports. */
  function Ending(row: RowId, lease: LeaseId): Kind {
    (m: Machine, s: Step) =>
      || s == Purge(row) || s == Retire(row)
      || (s.Complete? && s.publisher in m.publishers && m.publishers[s.publisher].Acknowledged?
          && m.publishers[s.publisher].row == row && m.publishers[s.publisher].lease == lease)
      || (s.Retry? && s.publisher in m.publishers && m.publishers[s.publisher] == Failed(row, lease))
  }

  ghost predicate Unended(m: Machine, row: RowId, lease: LeaseId, until: Instant) {
    row in m.rows && m.rows[row].progress.lease == Some(Lease(lease, until)) && m.rows[row].progress.accepted.None?
  }

  lemma StepKeepsUnended(
    digest: string -> string, m: Machine, s: Step, row: RowId, lease: LeaseId, until: Instant)
    requires Enabled(m, s) && row in m.enqueued && m.now < until && Unended(m, row, lease, until)
    requires until <= m.rows[row].expiresAt
    ensures Unended(Next(digest, m, s), row, lease, until) <==> !Ending(row, lease)(m, s)
  {
  }

  lemma StepKeepsEnded(digest: string -> string, m: Machine, s: Step, row: RowId, lease: LeaseId, until: Instant)
    requires Enabled(m, s) && row in m.enqueued && lease in m.leases && !Unended(m, row, lease, until)
    ensures !Unended(Next(digest, m, s), row, lease, until)
  {
  }

  /** The lease, where it still stands, runs until then, and its row was due when it was claimed. */
  ghost predicate StandsUntil(m: Machine, row: RowId, lease: LeaseId, until: Instant) {
    && row in m.enqueued && lease in m.leases
    && (row in m.rows && m.rows[row].progress.lease.Some? && m.rows[row].progress.lease.value.id == lease ==>
          m.rows[row].progress.lease.value.until == until && m.rows[row].progress.nextAttemptAt <= m.now)
  }

  lemma StepKeepsStandsUntil(
    digest: string -> string, m: Machine, s: Step, row: RowId, lease: LeaseId, until: Instant)
    requires Enabled(m, s) && StandsUntil(m, row, lease, until)
    ensures StandsUntil(Next(digest, m, s), row, lease, until)
  {
  }

  /** When the claim at step j lets its publisher go, unless something ends it before. */
  ghost function LeaseEnd(digest: string -> string, steps: seq<Step>, j: nat): Instant
    requires Exec(digest, steps).Some? && j < |steps| && steps[j].Claim?
  {
    PastIs(digest, steps, j);
    var m := Past(digest, steps)[j].0;
    Min(m.rows[steps[j].row].expiresAt, m.now + 180 * SECOND)
  }

  /** Where the claim's lease is in time, it stands unless it ended early. */
  ghost predicate LeaseStands(m: Machine, row: RowId, lease: LeaseId, until: Instant, ended: bool) {
    && StandsUntil(m, row, lease, until) && until <= m.enqueued[row].expiresAt
    && (m.now < until ==> (Unended(m, row, lease, until) <==> !ended))
  }

  lemma ClaimsStand(digest: string -> string, m: Machine, s: Step)
    requires Enabled(m, s) && s.Claim? && RowInv(digest, m)
    ensures var n, until := Next(digest, m, s), Min(m.rows[s.row].expiresAt, m.now + 180 * SECOND);
            StandsUntil(n, s.row, s.lease, until) && until <= n.enqueued[s.row].expiresAt
            && Unended(n, s.row, s.lease, until)
  {
  }

  lemma TimeOnlyPasses(digest: string -> string, m: Machine, s: Step)
    requires Enabled(m, s)
    ensures m.now <= Next(digest, m, s).now
  {
  }

  lemma StepKeepsLease(
    digest: string -> string, m: Machine, s: Step, row: RowId, lease: LeaseId, until: Instant, ended: bool)
    requires Enabled(m, s) && RowInv(digest, m) && LeaseStands(m, row, lease, until, ended)
    ensures LeaseStands(Next(digest, m, s), row, lease, until, ended || Ending(row, lease)(m, s))
  {
    StepKeepsStandsUntil(digest, m, s, row, lease, until);
    StepGrows(digest, m, s);
    TimeOnlyPasses(digest, m, s);
    if m.now < until {
      if Unended(m, row, lease, until) {
        StepKeepsUnended(digest, m, s, row, lease, until);
      } else {
        StepKeepsEnded(digest, m, s, row, lease, until);
      }
    }
  }

  lemma {:induction false} LeasesStandUntilEnded(digest: string -> string, steps: seq<Step>, j: nat)
    requires Exec(digest, steps).Some? && j < |steps| && steps[j].Claim?
    ensures var s := steps[j];
            LeaseStands(Exec(digest, steps).value, s.row, s.lease, LeaseEnd(digest, steps, j),
                        Since(Past(digest, steps), j + 1, Ending(s.row, s.lease)))
    decreases |steps|
  {
    var before, last := steps[..|steps| - 1], steps[|steps| - 1];
    var m, s := Exec(digest, before).value, steps[j];
    RunKeepsInv(digest, before);
    if j < |before| {
      LeasesStandUntilEnded(digest, before, j);
      assert Past(digest, before)[j] == Past(digest, steps)[j] && before[j] == s;
      SinceSnoc(digest, steps, j + 1, Ending(s.row, s.lease));
      StepKeepsLease(digest, m, last, s.row, s.lease, LeaseEnd(digest, before, j),
                     Since(Past(digest, before), j + 1, Ending(s.row, s.lease)));
    } else {
      ClaimsStand(digest, m, last);
    }
  }

  /**
   * A claim holds its row for three minutes, or until the row expires, and no other claim, retry or
   * crash takes it away: only its own report, or the removal or retirement of the row, does.
   */
  lemma LeaseLastsExactly(digest: string -> string, steps: seq<Step>, j: nat)
    requires Exec(digest, steps).Some? && j < |steps| && steps[j].Claim?
    ensures var m, s := Exec(digest, steps).value, steps[j];
            Current(m, s.row, s.lease) <==>
              m.now < LeaseEnd(digest, steps, j) && !Since(Past(digest, steps), j + 1, Ending(s.row, s.lease))
  {
    LeasesStandUntilEnded(digest, steps, j);
    RunKeepsInv(digest, steps);
  }

  /** A claim whose publisher crashed or hangs frees its row exactly when the lease ends. */
  lemma UnreportedClaimIsDueAtItsEnd(digest: string -> string, steps: seq<Step>, j: nat, at: Instant)
    requires Exec(digest, steps).Some? && j < |steps| && steps[j].Claim? && Exec(digest, steps).value.now <= at
    requires Exec(digest, steps).value.now < LeaseEnd(digest, steps, j)
    requires !Since(Past(digest, steps), j + 1, Ending(steps[j].row, steps[j].lease))
    ensures var m, row := Exec(digest, steps).value, steps[j].row;
            row in m.rows && (Due(m.(now := at), row) <==>
                                LeaseEnd(digest, steps, j) <= at < m.rows[row].expiresAt)
  {
    LeasesStandUntilEnded(digest, steps, j);
    RunKeepsWaitsBounded(digest, steps);
    assert WaitIsBounded(Exec(digest, steps).value.rows[steps[j].row].progress, Exec(digest, steps).value.now);
  }

  ghost function Claims(steps: seq<Step>, row: RowId): nat {
    if steps == [] then 0 else
    Claims(steps[..|steps| - 1], row) + (if steps[|steps| - 1].Claim? && steps[|steps| - 1].row == row then 1 else 0)
  }

  lemma ClaimsFollowQueueing(digest: string -> string, steps: seq<Step>, row: RowId)
    requires Exec(digest, steps).Some? && row !in Exec(digest, steps).value.enqueued
    ensures Claims(steps, row) == 0
    decreases |steps|
  {
    if steps != [] {
      var before, last := steps[..|steps| - 1], steps[|steps| - 1];
      StepKeepsRow(digest, Exec(digest, before).value, last, row);
      RunKeepsInv(digest, before);
      ClaimsFollowQueueing(digest, before, row);
    }
  }

  lemma StepCountsClaim(digest: string -> string, m: Machine, s: Step, row: RowId)
    requires Enabled(m, s) && row in Next(digest, m, s).rows && row in m.enqueued
    ensures row in m.rows
    ensures Next(digest, m, s).rows[row].progress.attempts
            == m.rows[row].progress.attempts + if s.Claim? && s.row == row then 1 else 0
  {
  }

  /** The attempts of a row are its claims, crashed and repeated ones included. */
  lemma {:induction false} AttemptsAreClaims(digest: string -> string, steps: seq<Step>, row: RowId)
    requires Exec(digest, steps).Some? && row in Exec(digest, steps).value.rows
    ensures Exec(digest, steps).value.rows[row].progress.attempts == Claims(steps, row)
    decreases |steps|
  {
    var before, last := steps[..|steps| - 1], steps[|steps| - 1];
    var m := Exec(digest, before).value;
    RunKeepsInv(digest, before);
    if row in m.enqueued {
      StepCountsClaim(digest, m, last, row);
      AttemptsAreClaims(digest, before, row);
    } else {
      ClaimsFollowQueueing(digest, before, row);
      StepQueuesUnaccepted(digest, m, last, row);
    }
  }

  // ---------------------------------------------------------------------------
  // Acceptance.
  // ---------------------------------------------------------------------------

  /** A publisher completes the row with this id while its lease is current. */
  function Accepting(row: RowId, id: TingId): Kind {
    (m: Machine, s: Step) =>
      && s.Complete? && s.publisher in m.publishers && m.publishers[s.publisher].Acknowledged?
      && m.publishers[s.publisher].row == row && m.publishers[s.publisher].id == id
      && Current(m, row, m.publishers[s.publisher].lease)
  }

  lemma StepAccepts(digest: string -> string, m: Machine, s: Step, row: RowId, id: TingId)
    requires Enabled(m, s) && row in Next(digest, m, s).rows && row in m.rows && row in m.enqueued
    ensures Next(digest, m, s).rows[row].progress.accepted == Some(id) <==>
              m.rows[row].progress.accepted == Some(id) || Accepting(row, id)(m, s)
  {
  }

  lemma {:induction false} AcceptancesFollowQueueing(
    digest: string -> string, steps: seq<Step>, row: RowId, id: TingId)
    requires Exec(digest, steps).Some? && row !in Exec(digest, steps).value.enqueued
    ensures !Since(Past(digest, steps), 0, Accepting(row, id))
    decreases |steps|
  {
    if steps != [] {
      var before, last := steps[..|steps| - 1], steps[|steps| - 1];
      StepKeepsRow(digest, Exec(digest, before).value, last, row);
      RunKeepsInv(digest, before);
      AcceptancesFollowQueueing(digest, before, row, id);
      SinceSnoc(digest, steps, 0, Accepting(row, id));
    }
  }

  /** A stored row is accepted with an id exactly when a publisher completed it with that id in time. */
  lemma {:induction false} AcceptedExactlyByCompletion(
    digest: string -> string, steps: seq<Step>, row: RowId, id: TingId)
    requires Exec(digest, steps).Some? && row in Exec(digest, steps).value.rows
    ensures Exec(digest, steps).value.rows[row].progress.accepted == Some(id) <==>
              Since(Past(digest, steps), 0, Accepting(row, id))
    decreases |steps|
  {
    var before, last := steps[..|steps| - 1], steps[|steps| - 1];
    var m := Exec(digest, before).value;
    RunKeepsInv(digest, before);
    SinceSnoc(digest, steps, 0, Accepting(row, id));
    StepKeepsRow(digest, m, last, row);
    if row in m.enqueued {
      AcceptedExactlyByCompletion(digest, before, row, id);
      StepAccepts(digest, m, last, row, id);
    } else {
      AcceptancesFollowQueueing(digest, before, row, id);
      StepQueuesUnaccepted(digest, m, last, row);
    }
  }

  lemma StepQueuesUnaccepted(digest: string -> string, m: Machine, s: Step, row: RowId)
    requires Enabled(m, s) && row !in m.rows && row in Next(digest, m, s).rows
    ensures s.Enqueue?
    ensures Next(digest, m, s).rows[row].progress.accepted.None? && Next(digest, m, s).rows[row].progress.attempts == 0
  {
  }

  // ---------------------------------------------------------------------------
  // The wire and the receiver.
  // ---------------------------------------------------------------------------

  /** A publisher whose claim is still current sends the body it claimed. */
  function SendingOff(body: Body): Kind {
    (m: Machine, s: Step) =>
      && s.CheckCurrent? && s.publisher in m.publishers && m.publishers[s.publisher].Claimed?
      && m.publishers[s.publisher].body == body
      && Current(m, m.publishers[s.publisher].row, m.publishers[s.publisher].lease)
  }

  lemma StepSendsExactly(digest: string -> string, m: Machine, s: Step, body: Body)
    requires Enabled(m, s)
    ensures body in Next(digest, m, s).wire <==> body in m.wire || SendingOff(body)(m, s)
  {
  }

  /** A request is on the wire exactly when a publisher with a current claim sent it. */
  lemma {:induction false} SentExactlyUnderACurrentClaim(digest: string -> string, steps: seq<Step>, body: Body)
    requires Exec(digest, steps).Some?
    ensures body in Exec(digest, steps).value.wire <==> Since(Past(digest, steps), 0, SendingOff(body))
    decreases |steps|
  {
    if steps != [] {
      var before := steps[..|steps| - 1];
      SentExactlyUnderACurrentClaim(digest, before, body);
      SinceSnoc(digest, steps, 0, SendingOff(body));
      StepSendsExactly(digest, Exec(digest, before).value, steps[|steps| - 1], body);
    }
  }

  /** A refused request reached the receiver. */
  function Refusing(): Kind {
    (m: Machine, s: Step) => s.Receive? && s.refuse
  }

  /** A well-formed request under the key reaches the receiver, and is not its one refusal. */
  function Recording(key: string): Kind {
    (m: Machine, s: Step) =>
      && s.Receive? && s.body.key == key && key != "" && s.body.recipient != ""
      && s.body.kind == "hook.webhook.received" && !(s.refuse && !m.refusedOnce)
  }

  lemma StepRefuses(digest: string -> string, m: Machine, s: Step)
    requires Enabled(m, s)
    ensures Next(digest, m, s).refusedOnce <==> m.refusedOnce || Refusing()(m, s)
  {
  }

  /** The receiver refuses the first request it is asked to, and none after. */
  lemma {:induction false} RefusedOnceExactly(digest: string -> string, steps: seq<Step>)
    requires Exec(digest, steps).Some?
    ensures Exec(digest, steps).value.refusedOnce <==> Since(Past(digest, steps), 0, Refusing())
    decreases |steps|
  {
    if steps != [] {
      var before := steps[..|steps| - 1];
      RefusedOnceExactly(digest, before);
      SinceSnoc(digest, steps, 0, Refusing());
      StepRefuses(digest, Exec(digest, before).value, steps[|steps| - 1]);
    }
  }

  lemma ReceiverRecords(m: Machine, body: Body, refuse: bool, id: TingId, key: string)
    ensures var n := Received(m, body, refuse, id);
            && (key in n.keys <==> key in m.keys || Recording(key)(m, Receive(body, refuse, id)))
            && (key in n.keys ==> n.keys[key] == if key in m.keys then m.keys[key] else Record(id, body))
  {
  }

  /** The receiver takes the key for the first time, with this record. */
  function RecordingFirst(key: string, record: Record): Kind {
    (m: Machine, s: Step) => Recording(key)(m, s) && key !in m.keys && record == Record(s.id, s.body)
  }

  /** The record of a key is that of the first well-formed request that was not refused. */
  lemma {:induction false} RecordedByTheFirstRequest(
    digest: string -> string, steps: seq<Step>, key: string, record: Record)
    requires Exec(digest, steps).Some?
    ensures key in Exec(digest, steps).value.keys <==> Since(Past(digest, steps), 0, Recording(key))
    ensures key in Exec(digest, steps).value.keys && Exec(digest, steps).value.keys[key] == record <==>
              Since(Past(digest, steps), 0, RecordingFirst(key, record))
    decreases |steps|
  {
    if steps != [] {
      var before, last := steps[..|steps| - 1], steps[|steps| - 1];
      RecordedByTheFirstRequest(digest, before, key, record);
      SinceSnoc(digest, steps, 0, Recording(key));
      SinceSnoc(digest, steps, 0, RecordingFirst(key, record));
      var m := Exec(digest, before).value;
      if last.Receive? {
        ReceiverRecords(m, last.body, last.refuse, last.id, key);
      } else {
        StepKeepsRecords(digest, m, last);
        assert Next(digest, m, last).keys == m.keys;
      }
    }
  }

  /** Every request the receiver did not refuse is answered with the record of its key, now or for the first time. */
  function Answering(answer: AcceptanceAnswer): Kind {
    (m: Machine, s: Step) =>
      && Recording(answer.key)(m, s) && answer.required == s.body.required
      && answer.id == if answer.key in m.keys then m.keys[answer.key].id else s.id
  }

  lemma StepAnswersExactly(digest: string -> string, m: Machine, s: Step, answer: AcceptanceAnswer)
    requires Enabled(m, s)
    ensures answer in Next(digest, m, s).answers <==> answer in m.answers || Answering(answer)(m, s)
  {
    if s.Receive? {
      ReceiverAnswers(m, s.body, s.refuse, s.id, answer);
    } else {
      assert Next(digest, m, s).answers == m.answers && !Recording(answer.key)(m, s);
    }
  }

  lemma ReceiverAnswers(m: Machine, body: Body, refuse: bool, id: TingId, answer: AcceptanceAnswer)
    ensures answer in Received(m, body, refuse, id).answers <==>
              answer in m.answers || Answering(answer)(m, Receive(body, refuse, id))
  {
    var record := if body.key in m.keys then m.keys[body.key] else Record(id, body);
    var given := AcceptanceAnswer(record.id, body.key, body.required);
    var s := Receive(body, refuse, id);
    var recorded := Recording(body.key)(m, s);
    assert Received(m, body, refuse, id).answers == if recorded then m.answers + {given} else m.answers;
    if Answering(answer)(m, s) {
      assert Recording(answer.key)(m, s) && answer.key == body.key;
    } else if answer.key == body.key {
      assert recorded == Recording(answer.key)(m, s);
    }
  }

  lemma {:induction false} AnsweredExactly(digest: string -> string, steps: seq<Step>, answer: AcceptanceAnswer)
    requires Exec(digest, steps).Some?
    ensures answer in Exec(digest, steps).value.answers <==> Since(Past(digest, steps), 0, Answering(answer))
    decreases |steps|
  {
    if steps != [] {
      var before := steps[..|steps| - 1];
      AnsweredExactly(digest, before, answer);
      SinceSnoc(digest, steps, 0, Answering(answer));
      StepAnswersExactly(digest, Exec(digest, before).value, steps[|steps| - 1], answer);
    }
  }

  // ---------------------------------------------------------------------------
  // Whole deliveries.
  // ---------------------------------------------------------------------------

  lemma ExecSnoc(digest: string -> string, steps: seq<Step>, s: Step)
    requires Exec(digest, steps).Some? && Enabled(Exec(digest, steps).value, s)
    ensures Exec(digest, steps + [s]) == Some(Next(digest, Exec(digest, steps).value, s))
  {
    assert (steps + [s])[..|steps|] == steps;
  }

  lemma RowIsWellFormed(digest: string -> string, steps: seq<Step>, row: RowId)
    requires Exec(digest, steps).Some? && row in Exec(digest, steps).value.rows
    ensures var r := Exec(digest, steps).value.rows[row];
            r.body.kind == "hook.webhook.received" && r.body.recipient == r.recipient && r.body.key != ""
  {
    RunKeepsInv(digest, steps);
    RowsAreQueuedAsAsked(digest, steps, row, Exec(digest, steps).value.enqueued[row]);
  }

  /** What the receiver answers to a well-formed body: the record its key has, or the one it gets now. */
  function AnswerTo(m: Machine, body: Body, id: TingId): AcceptanceAnswer {
    AcceptanceAnswer(if body.key in m.keys then m.keys[body.key].id else id, body.key, body.required)
  }

  /** The five steps of one send that nothing disturbs. */
  function Delivery(m: Machine, p: PublisherId, row: RowId, lease: LeaseId, id: TingId): seq<Step>
    requires row in m.rows
  {
    var body := m.rows[row].body;
    [Claim(p, row, lease), CheckCurrent(p), Receive(body, false, id), Answered(p, AnswerTo(m, body, id)), Complete(p)]
  }

  lemma ClaimedRowIsSent(digest: string -> string, m: Machine, p: PublisherId, row: RowId, lease: LeaseId)
    requires Enabled(m, Claim(p, row, lease))
    ensures var n := Next(digest, m, Claim(p, row, lease));
            && Enabled(n, CheckCurrent(p))
            && var sent := Next(digest, n, CheckCurrent(p));
            && sent.keys == m.keys && sent.now == m.now && sent.answers == m.answers
            && m.rows[row].body in sent.wire
            && p in sent.publishers && sent.publishers[p] == Sending(row, lease, m.rows[row].body)
            && Current(sent, row, lease)
            && sent.rows[row].(progress := m.rows[row].progress) == m.rows[row]
  {
  }

  lemma ReceivedRequestIsAnswered(digest: string -> string, m: Machine, body: Body, id: TingId)
    requires Enabled(m, Receive(body, false, id))
    requires body.kind == "hook.webhook.received" && body.recipient != "" && body.key != ""
    ensures var n := Next(digest, m, Receive(body, false, id));
            && AnswerTo(m, body, id) in n.answers && n.publishers == m.publishers && n.rows == m.rows && n.now == m.now
            && body.key in n.keys && n.keys[body.key].id == AnswerTo(m, body, id).id
  {
  }

  lemma ConfirmedSendIsAccepted(
    digest: string -> string, m: Machine, p: PublisherId, row: RowId, lease: LeaseId, answer: AcceptanceAnswer)
    requires p in m.publishers && m.publishers[p].Sending? && m.publishers[p].row == row
    requires m.publishers[p].lease == lease && Current(m, row, lease) && answer in m.answers
    requires answer.key == m.publishers[p].body.key && answer.required == m.publishers[p].body.required
    ensures Enabled(m, Answered(p, answer)) && Enabled(Next(digest, m, Answered(p, answer)), Complete(p))
    ensures var n := Next(digest, Next(digest, m, Answered(p, answer)), Complete(p));
            && n.rows == m.rows[row := m.rows[row].(progress :=
                 m.rows[row].progress.(accepted := Some(answer.id), lease := None))]
            && n.publishers == m.publishers[p := Idle] && n.keys == m.keys
  {
  }

  ghost predicate Leads(digest: string -> string, m: Machine, s: Step, n: Machine) {
    Enabled(m, s) && Next(digest, m, s) == n
  }

  lemma StepRuns(digest: string -> string, steps: seq<Step>, m: Machine, s: Step, n: Machine)
    requires Exec(digest, steps) == Some(m) && Leads(digest, m, s, n)
    ensures Exec(digest, steps + [s]) == Some(n)
  {
    ExecSnoc(digest, steps, s);
  }

  /** The machines an undisturbed delivery passes through. */
  ghost predicate Delivers(digest: string -> string, m: seq<Machine>, s: seq<Step>) {
    |m| == |s| + 1 && forall i {:trigger s[i]} :: 0 <= i < |s| ==> Leads(digest, m[i], s[i], m[i + 1])
  }

  lemma {:induction false} ChainRuns(
    digest: string -> string, steps: seq<Step>, s: seq<Step>, m: seq<Machine>, k: nat)
    requires Delivers(digest, m, s) && Exec(digest, steps) == Some(m[0]) && k <= |s|
    ensures Exec(digest, steps + s[..k]) == Some(m[k])
    decreases k
  {
    if k == 0 {
      assert steps + s[..0] == steps;
    } else {
      var j := k - 1;
      ChainRuns(digest, steps, s, m, j);
      StepRuns(digest, steps + s[..j], m[j], s[j], m[j + 1]);
      assert steps + s[..k] == steps + s[..j] + [s[j]];
    }
  }

  lemma DeliveryIsPossible(
    digest: string -> string, m: Machine, p: PublisherId, row: RowId, lease: LeaseId, id: TingId)
    returns (ms: seq<Machine>)
    requires Due(m, row) && lease !in m.leases && (p in m.publishers ==> m.publishers[p].Idle?)
    requires forall k :: k in m.keys ==> m.keys[k].id != id
    requires var body := m.rows[row].body;
             body.kind == "hook.webhook.received" && body.recipient != "" && body.key != ""
    ensures Delivers(digest, ms, Delivery(m, p, row, lease, id)) && ms[0] == m
    ensures var end := ms[5];
            && row in end.rows && end.rows[row].progress.accepted == Some(AnswerTo(m, m.rows[row].body, id).id)
            && end.rows[row].progress.lease.None? && m.rows[row].body.key in end.keys
            && end.keys[m.rows[row].body.key].id == AnswerTo(m, m.rows[row].body, id).id
  {
    var body, s := m.rows[row].body, Delivery(m, p, row, lease, id);
    ClaimedRowIsSent(digest, m, p, row, lease);
    var m1 := Next(digest, m, s[0]);
    var m2 := Next(digest, m1, s[1]);
    ReceivedRequestIsAnswered(digest, m2, body, id);
    var m3 := Next(digest, m2, s[2]);
    ConfirmedSendIsAccepted(digest, m3, p, row, lease, AnswerTo(m, body, id));
    var m4 := Next(digest, m3, s[3]);
    ms := [m, m1, m2, m3, m4, Next(digest, m4, s[4])];
  }

  /** A due row is claimed, sent, recorded and accepted under the receiver's own id by one undisturbed delivery. */
  lemma UndisturbedDeliveryIsAccepted(
    digest: string -> string, steps: seq<Step>, p: PublisherId, row: RowId, lease: LeaseId, id: TingId)
    requires Exec(digest, steps).Some? && Due(Exec(digest, steps).value, row)
    requires var m := Exec(digest, steps).value;
             && m.rows[row].recipient != "" && lease !in m.leases && (p in m.publishers ==> m.publishers[p].Idle?)
             && forall k :: k in m.keys ==> m.keys[k].id != id
    ensures var m := Exec(digest, steps).value;
            var end := Exec(digest, steps + Delivery(m, p, row, lease, id));
            && end.Some? && row in end.value.rows && end.value.rows[row].progress.lease.None?
            && m.rows[row].body.key in end.value.keys
            && end.value.rows[row].progress.accepted == Some(end.value.keys[m.rows[row].body.key].id)
            && end.value.keys[m.rows[row].body.key].id == AnswerTo(m, m.rows[row].body, id).id
  {
    var m := Exec(digest, steps).value;
    RowIsWellFormed(digest, steps, row);
    var ms := DeliveryIsPossible(digest, m, p, row, lease, id);
    var s := Delivery(m, p, row, lease, id);
    ChainRuns(digest, steps, s, ms, 5);
    assert s[..5] == s;
  }

  /** The send went unanswered, or its answer was for another key or another delivery mode. */
  predicate Fails(s: Step, p: PublisherId, body: Body) {
    || s == Unanswered(p)
    || (s.Answered? && s.publisher == p && (s.answer.key != body.key || s.answer.required != body.required))
  }

  lemma FailedSendIsReleased(
    digest: string -> string, m: Machine, p: PublisherId, row: RowId, lease: LeaseId, s: Step, delay: Instant)
    requires p in m.publishers && m.publishers[p].Sending? && m.publishers[p].row == row
    requires m.publishers[p].lease == lease && Current(m, row, lease)
    requires Enabled(m, s) && Fails(s, p, m.publishers[p].body) && 0 <= delay
    ensures Enabled(Next(digest, m, s), Retry(p, delay))
    ensures var n := Next(digest, Next(digest, m, s), Retry(p, delay));
            && n.now == m.now && n.keys == m.keys && n.publishers == m.publishers[p := Idle]
            && n.rows == m.rows[row := m.rows[row].(progress := m.rows[row].progress.(
                 nextAttemptAt := Min(m.rows[row].expiresAt, m.now + Min(delay, 3600 * SECOND)), lease := None))]
  {
  }

  /** A send that failed is due again exactly after its delay, an hour at most, while its row has time left. */
  lemma FailedSendIsDueAfterItsDelay(
    digest: string -> string, steps: seq<Step>, p: PublisherId, s: Step, delay: Instant, at: Instant)
    requires Exec(digest, steps).Some? && p in Exec(digest, steps).value.publishers && 0 <= delay
    requires var m := Exec(digest, steps).value;
             && m.now <= at && m.publishers[p].Sending? && Current(m, m.publishers[p].row, m.publishers[p].lease)
             && Enabled(m, s) && Fails(s, p, m.publishers[p].body)
    ensures var m := Exec(digest, steps).value;
            var row := m.publishers[p].row;
            var end := Exec(digest, steps + [s] + [Retry(p, delay)]);
            && end.Some?
            && (Due(end.value.(now := at), row) <==>
                  m.now + Min(delay, 3600 * SECOND) <= at < m.rows[row].expiresAt)
  {
    var m := Exec(digest, steps).value;
    FailedSendIsReleased(digest, m, p, m.publishers[p].row, m.publishers[p].lease, s, delay);
    ExecSnoc(digest, steps, s);
    ExecSnoc(digest, steps + [s], Retry(p, delay));
    RunKeepsWaitsBounded(digest, steps);
    assert WaitIsBounded(m.rows[m.publishers[p].row].progress, m.now);
  }
}
