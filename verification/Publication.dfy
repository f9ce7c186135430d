/**
 * Publishing queued sends: leased claims, requests and answers that may be lost, repeated or
 * misdelivered, crashes, and a receiver that is idempotent by producer key.
 */
module Publication {
  import opened Common

  type RowId = nat
  type LeaseId = nat
  type PublisherId = nat
  type TingId = nat

  const LEASE: Instant := 180 * SECOND
  const MAX_RETRY_DELAY: Instant := 3600 * SECOND

  /** The prepared request; its bytes are persisted once and parsed back only by their fields. */
  datatype Body = Body(kind: string, recipient: string, key: string, data: string, required: bool)

  datatype Lease = Lease(id: LeaseId, until: Instant)

  /** An outbox row: what was enqueued, and the progress of its send. */
  datatype Row = Row(event: string, recipient: string, body: Body, expiresAt: Instant, progress: Progress)

  /** `legacy` marks a send to an identity that was renamed since: it never leaves. */
  datatype Progress = Progress(
    nextAttemptAt: Instant, attempts: nat, lease: Option<Lease>, accepted: Option<TingId>, legacy: bool)

  /** The receiver's record of one producer key. */
  datatype Record = Record(id: TingId, body: Body)

  datatype AcceptanceAnswer = AcceptanceAnswer(id: TingId, key: string, required: bool)

  /** A publisher between its database transactions. */
  datatype Publisher =
    | Idle
    | Claimed(row: RowId, lease: LeaseId, body: Body)
    | Sending(row: RowId, lease: LeaseId, body: Body)
    | Acknowledged(row: RowId, lease: LeaseId, id: TingId)
    | Failed(row: RowId, lease: LeaseId)

  /**
   * `enqueued` remembers every row ever queued as it was queued; `wire` the requests ever sent and
   * `answers` the answers ever given, any of which may arrive late, twice or never.
   */
  datatype Machine = Machine(
    rows: map<RowId, Row>,
    enqueued: map<RowId, Row>,
    leases: set<LeaseId>,
    publishers: map<PublisherId, Publisher>,
    wire: set<Body>,
    answers: set<AcceptanceAnswer>,
    keys: map<string, Record>,
    refusedOnce: bool,
    now: Instant)

  const Start := Machine(map[], map[], {}, map[], {}, {}, map[], false, 0)

  datatype Step =
    | Enqueue(row: RowId, event: string, recipient: string, data: string, required: bool, expiresAt: Instant)
    | Claim(publisher: PublisherId, row: RowId, lease: LeaseId)
    | CheckCurrent(publisher: PublisherId)
    | Receive(body: Body, refuse: bool, id: TingId)
    | Answered(publisher: PublisherId, answer: AcceptanceAnswer)
    | Unanswered(publisher: PublisherId)
    | Complete(publisher: PublisherId)
    | Retry(publisher: PublisherId, delay: Instant)
    | Crash(publisher: PublisherId)
    | Purge(row: RowId)
    | Retire(row: RowId)
    | Tick(now: Instant)

  // ---------------------------------------------------------------------------
  // The producer key.
  // ---------------------------------------------------------------------------

  /** `digest` stands for the hexadecimal SHA-256 of the recipient. */
  function ProducerKey(digest: string -> string, event: string, recipient: string): string {
    "hook:" + event + ":" + digest(recipient)
  }

  /** Event ids are hyphenated UUIDs. */
  predicate IsEventId(event: string) {
    forall i :: 0 <= i < |event| ==> event[i] != ':'
  }

  ghost predicate CollisionFree(digest: string -> string) {
    forall a, b :: digest(a) == digest(b) ==> a == b
  }

  lemma FirstColon(e: string, x: string, e': string, x': string)
    requires IsEventId(e') && e + x == e' + x' && x != [] && x[0] == ':'
    ensures |e'| <= |e|
  {
    assert (e + x)[|e|] == ':';
    assert forall i :: 0 <= i < |e'| ==> (e' + x')[i] == e'[i];
  }

  /** The key names one event and one recipient. */
  lemma ProducerKeyIsInjective(digest: string -> string, e: string, r: string, e': string, r': string)
    requires CollisionFree(digest) && IsEventId(e) && IsEventId(e')
    requires ProducerKey(digest, e, r) == ProducerKey(digest, e', r')
    ensures e == e' && r == r'
  {
    var a, b := e + (":" + digest(r)), e' + (":" + digest(r'));
    assert ProducerKey(digest, e, r) == "hook:" + a && ProducerKey(digest, e', r') == "hook:" + b;
    assert a == ("hook:" + a)[5..] == ("hook:" + b)[5..] == b;
    FirstColon(e, ":" + digest(r), e', ":" + digest(r'));
    FirstColon(e', ":" + digest(r'), e, ":" + digest(r));
    assert e == a[..|e|] && e' == b[..|e'|];
    assert digest(r) == a[|e| + 1..] && digest(r') == b[|e'| + 1..];
  }

  function PrepareEvent(digest: string -> string, event: string, recipient: string, data: string, required: bool): Body
  {
    Body("hook.webhook.received", recipient, ProducerKey(digest, event, recipient), data, required)
  }

  // ---------------------------------------------------------------------------
  // Steps.
  // ---------------------------------------------------------------------------

  /** The claim's own lease, unexpired, on a row that is neither accepted nor expired. */
  predicate Current(m: Machine, row: RowId, lease: LeaseId) {
    && row in m.rows
    && m.rows[row].progress.lease.Some? && m.rows[row].progress.lease.value.id == lease
    && m.rows[row].progress.accepted.None?
    && m.now < m.rows[row].progress.lease.value.until && m.now < m.rows[row].expiresAt
  }

  predicate Due(m: Machine, row: RowId) {
    && row in m.rows
    && var p := m.rows[row].progress;
    && p.accepted.None? && !p.legacy && m.now < m.rows[row].expiresAt && p.nextAttemptAt <= m.now
    && (p.lease.Some? ==> p.lease.value.until <= m.now)
  }

  /** One send per event and recipient: a removed event is gone, so it is never queued again. */
  predicate Queued(m: Machine, event: string, recipient: string) {
    exists r :: r in m.enqueued && m.enqueued[r].event == event && m.enqueued[r].recipient == recipient
  }

  predicate Enabled(m: Machine, s: Step) {
    match s
    case Enqueue(row, event, recipient, _, _, _) =>
      row !in m.enqueued && IsEventId(event)
    case Claim(p, row, lease) =>
      && (p in m.publishers ==> m.publishers[p].Idle?) && Due(m, row) && lease !in m.leases
    case CheckCurrent(p) => p in m.publishers && m.publishers[p].Claimed?
    case Receive(body, _, id) => body in m.wire && forall k :: k in m.keys ==> m.keys[k].id != id
    case Answered(p, answer) => p in m.publishers && m.publishers[p].Sending? && answer in m.answers
    case Unanswered(p) => p in m.publishers && m.publishers[p].Sending?
    case Complete(p) => p in m.publishers && m.publishers[p].Acknowledged?
    case Retry(p, delay) => p in m.publishers && m.publishers[p].Failed? && 0 <= delay
    case Crash(p) => p in m.publishers
    case Purge(row) => row in m.rows
    case Retire(row) => row in m.rows && m.rows[row].progress.accepted.None?
    case Tick(now) => m.now <= now
  }

  function Go(m: Machine, p: PublisherId, publisher: Publisher): Machine {
    m.(publishers := m.publishers[p := publisher])
  }

  function Update(m: Machine, row: RowId, progress: Progress): Machine
    requires row in m.rows
  {
    m.(rows := m.rows[row := m.rows[row].(progress := progress)])
  }

  /** The receiver: a bad request or a refused proof stores nothing, a known key answers its record. */
  function Received(m: Machine, body: Body, refuse: bool, id: TingId): Machine {
    if refuse && !m.refusedOnce then m.(refusedOnce := true)
    else if body.kind != "hook.webhook.received" || body.recipient == "" || body.key == "" then m
    else
      var record := if body.key in m.keys then m.keys[body.key] else Record(id, body);
      m.(keys := m.keys[body.key := record],
         answers := m.answers + {AcceptanceAnswer(record.id, body.key, body.required)})
  }

  /** The acceptance must confirm the key and the delivery mode of the request. */
  predicate Confirms(answer: AcceptanceAnswer, body: Body) {
    answer.key == body.key && answer.required == body.required
  }

  function Next(digest: string -> string, m: Machine, s: Step): Machine
    requires Enabled(m, s)
  {
    match s
    case Enqueue(row, event, recipient, data, required, expiresAt) =>
      var queued := Row(event, recipient, PrepareEvent(digest, event, recipient, data, required), expiresAt,
                       Progress(m.now, 0, None, None, false));
      if Queued(m, event, recipient) || expiresAt <= m.now then m
      else m.(rows := m.rows[row := queued], enqueued := m.enqueued[row := queued])
    case Claim(p, row, lease) =>
      var progress := m.rows[row].progress;
      var until := Min(m.rows[row].expiresAt, m.now + LEASE);
      var leased := Update(m, row, progress.(lease := Some(Lease(lease, until)), attempts := progress.attempts + 1));
      Go(leased.(leases := m.leases + {lease}), p, Claimed(row, lease, m.rows[row].body))
    case CheckCurrent(p) =>
      var c := m.publishers[p];
      if Current(m, c.row, c.lease) then Go(m.(wire := m.wire + {c.body}), p, Sending(c.row, c.lease, c.body))
      else Go(m, p, Idle)
    case Receive(body, refuse, id) => Received(m, body, refuse, id)
    case Answered(p, answer) =>
      var c := m.publishers[p];
      Go(m, p, if Confirms(answer, c.body) then Acknowledged(c.row, c.lease, answer.id) else Failed(c.row, c.lease))
    case Unanswered(p) => Go(m, p, Failed(m.publishers[p].row, m.publishers[p].lease))
    case Complete(p) =>
      var c := m.publishers[p];
      if Current(m, c.row, c.lease)
      then Go(Update(m, c.row, m.rows[c.row].progress.(accepted := Some(c.id), lease := None)), p, Idle)
      else Go(m, p, Idle)
    case Retry(p, delay) =>
      var c := m.publishers[p];
      if Current(m, c.row, c.lease) then
        var at := Min(m.rows[c.row].expiresAt, m.now + Min(delay, MAX_RETRY_DELAY));
        Go(Update(m, c.row, m.rows[c.row].progress.(nextAttemptAt := at, lease := None)), p, Idle)
      else Go(m, p, Idle)
    case Crash(p) => Go(m, p, Idle)
    case Purge(row) => m.(rows := m.rows - {row})
    case Retire(row) =>
      Update(m, row, m.rows[row].progress.(nextAttemptAt := m.rows[row].expiresAt, lease := None, legacy := true))
    case Tick(now) => m.(now := now)
  }

  /** The machine after a schedule, or nothing when a step of it was not possible. */
  function Exec(digest: string -> string, steps: seq<Step>): Option<Machine>
    decreases |steps|
  {
    if steps == [] then Some(Start) else
    var before := Exec(digest, steps[..|steps| - 1]);
    var last := steps[|steps| - 1];
    if before.Some? && Enabled(before.value, last) then Some(Next(digest, before.value, last)) else None
  }

  // ---------------------------------------------------------------------------
  // What every step keeps.
  // ---------------------------------------------------------------------------

  /** Queued rows keep what was enqueued; keys are built from distinct events and recipients. */
  ghost predicate RowInv(digest: string -> string, m: Machine) {
    && (forall r :: r in m.rows ==> r in m.enqueued && m.rows[r].(progress := m.enqueued[r].progress) == m.enqueued[r])
    && (forall r :: r in m.enqueued ==>
          var e := m.enqueued[r];
          && IsEventId(e.event) && e.body.recipient == e.recipient
          && e.body.key == ProducerKey(digest, e.event, e.recipient))
    && (forall r, q :: r in m.enqueued && q in m.enqueued && r != q ==>
          m.enqueued[r].event != m.enqueued[q].event || m.enqueued[r].recipient != m.enqueued[q].recipient)
  }

  ghost predicate Persisted(m: Machine, row: RowId, body: Body) {
    row in m.enqueued && m.enqueued[row].body == body
  }

  ghost predicate PublisherOk(m: Machine, p: Publisher) {
    match p
    case Idle => true
    case Claimed(row, _, body) => Persisted(m, row, body)
    case Sending(row, _, body) => Persisted(m, row, body)
    case Acknowledged(row, _, id) => row in m.enqueued && Holds(m, m.enqueued[row].body.key, id)
    case Failed(row, _) => true
  }

  ghost predicate Holds(m: Machine, key: string, id: TingId) {
    key in m.keys && m.keys[key].id == id
  }

  ghost predicate WireInv(m: Machine) {
    && (forall b :: b in m.wire ==> exists r :: Persisted(m, r, b))
    && (forall k :: k in m.keys ==> m.keys[k].body.key == k && exists r :: Persisted(m, r, m.keys[k].body))
    && (forall j, k :: j in m.keys && k in m.keys && m.keys[j].id == m.keys[k].id ==> j == k)
    && (forall a :: a in m.answers ==> Holds(m, a.key, a.id))
    && (forall p :: p in m.publishers ==> PublisherOk(m, m.publishers[p]))
    && (forall r :: r in m.rows && m.rows[r].progress.accepted.Some? ==>
          Holds(m, m.rows[r].body.key, m.rows[r].progress.accepted.value))
  }

  /** Rows, records and acceptances only ever grow. */
  ghost predicate Grows(m: Machine, n: Machine) {
    && (forall r :: r in m.enqueued ==> r in n.enqueued && n.enqueued[r] == m.enqueued[r])
    && (forall k :: k in m.keys ==> k in n.keys && n.keys[k] == m.keys[k])
    && (forall r :: r in n.rows && r in m.rows && m.rows[r].progress.accepted.Some? ==>
          n.rows[r].progress.accepted == m.rows[r].progress.accepted)
    && (forall r :: r in n.rows && r in m.enqueued ==> r in m.rows)
  }

  lemma StepEnqueues(digest: string -> string, m: Machine, s: Step)
    requires Enabled(m, s)
    ensures var n := Next(digest, m, s);
            if s.Enqueue? && m.now < s.expiresAt && !Queued(m, s.event, s.recipient) then
              && s.row in n.enqueued && n.enqueued == m.enqueued[s.row := n.enqueued[s.row]]
              && n.enqueued[s.row].event == s.event && n.enqueued[s.row].recipient == s.recipient
              && n.enqueued[s.row].body == PrepareEvent(digest, s.event, s.recipient, s.data, s.required)
            else n.enqueued == m.enqueued
  {
  }

  /** A row is queued as enqueued, or it is an old row that changed its progress only. */
  lemma StepMovesRow(digest: string -> string, m: Machine, s: Step, r: RowId)
    requires Enabled(m, s) && r in Next(digest, m, s).rows
    ensures var n := Next(digest, m, s);
            || (s.Enqueue? && r == s.row && r in n.enqueued && n.rows[r] == n.enqueued[r]
                && n.rows[r].progress.accepted.None?)
            || (r in m.rows && n.rows[r].(progress := m.rows[r].progress) == m.rows[r]
                && (n.rows[r].progress.accepted == m.rows[r].progress.accepted
                    || (s.Complete? && m.rows[r].progress.accepted.None? && m.publishers[s.publisher].row == r
                        && n.rows[r].progress.accepted == Some(m.publishers[s.publisher].id))))
  {
  }

  lemma StepKeepsRecords(digest: string -> string, m: Machine, s: Step)
    requires Enabled(m, s)
    ensures var n := Next(digest, m, s);
            && (forall k :: k in m.keys ==> k in n.keys && n.keys[k] == m.keys[k])
            && (forall k :: k in n.keys && k !in m.keys ==>
                  s.Receive? && k == s.body.key && n.keys[k] == Record(s.id, s.body))
            && (forall a :: a in n.answers && a !in m.answers ==> Holds(n, a.key, a.id))
  {
    if s.Receive? {
      ReceiverKeepsRecords(m, s.body, s.refuse, s.id);
    } else {
      assert Next(digest, m, s).keys == m.keys && Next(digest, m, s).answers == m.answers;
    }
  }

  lemma ReceiverKeepsRecords(m: Machine, body: Body, refuse: bool, id: TingId)
    ensures var n := Received(m, body, refuse, id);
            && (forall k :: k in m.keys ==> k in n.keys && n.keys[k] == m.keys[k])
            && (forall k :: k in n.keys && k !in m.keys ==> k == body.key && n.keys[k] == Record(id, body))
            && (forall a :: a in n.answers && a !in m.answers ==> Holds(n, a.key, a.id))
  {
  }

  lemma StepGrows(digest: string -> string, m: Machine, s: Step)
    requires Enabled(m, s) && RowInv(digest, m)
    ensures Grows(m, Next(digest, m, s))
  {
    StepEnqueues(digest, m, s);
    StepKeepsRecords(digest, m, s);
    forall r | r in Next(digest, m, s).rows && r in m.enqueued
      ensures r in m.rows
      ensures m.rows[r].progress.accepted.Some? ==>
                Next(digest, m, s).rows[r].progress.accepted == m.rows[r].progress.accepted
    {
      StepMovesRow(digest, m, s, r);
    }
  }

  lemma NewRowIsNew(digest: string -> string, m: Machine, s: Step)
    requires Enabled(m, s) && RowInv(digest, m) && Next(digest, m, s).enqueued != m.enqueued
    ensures s.Enqueue? && s.row !in m.enqueued
    ensures var e := Next(digest, m, s).enqueued[s.row];
            && IsEventId(e.event) && e.body.recipient == e.recipient
            && e.body.key == ProducerKey(digest, e.event, e.recipient)
            && forall r :: r in m.enqueued ==> m.enqueued[r].event != e.event || m.enqueued[r].recipient != e.recipient
  {
    StepEnqueues(digest, m, s);
    assert !Queued(m, s.event, s.recipient);
  }

  lemma StepKeepsQueue(digest: string -> string, m: Machine, s: Step, r: RowId)
    requires Enabled(m, s) && RowInv(digest, m) && r in Next(digest, m, s).rows
    ensures var n := Next(digest, m, s);
            r in n.enqueued && n.rows[r].(progress := n.enqueued[r].progress) == n.enqueued[r]
  {
    StepEnqueues(digest, m, s);
    StepMovesRow(digest, m, s, r);
  }

  lemma StepKeepsRows(digest: string -> string, m: Machine, s: Step)
    requires Enabled(m, s) && RowInv(digest, m)
    ensures RowInv(digest, Next(digest, m, s))
  {
    StepEnqueues(digest, m, s);
    if Next(digest, m, s).enqueued != m.enqueued {
      NewRowIsNew(digest, m, s);
    }
    forall r | r in Next(digest, m, s).rows
      ensures var n := Next(digest, m, s);
              r in n.enqueued && n.rows[r].(progress := n.enqueued[r].progress) == n.enqueued[r]
    {
      StepKeepsQueue(digest, m, s, r);
    }
  }

  lemma StepSends(digest: string -> string, m: Machine, s: Step, b: Body)
    requires Enabled(m, s) && b in Next(digest, m, s).wire && b !in m.wire
    ensures s.CheckCurrent? && b == m.publishers[s.publisher].body
  {
  }

  lemma StepKeepsWire(digest: string -> string, m: Machine, s: Step, b: Body)
    requires Enabled(m, s) && RowInv(digest, m) && WireInv(m) && b in Next(digest, m, s).wire
    ensures exists r :: Persisted(Next(digest, m, s), r, b)
  {
    StepGrows(digest, m, s);
    if b in m.wire {
      var r :| Persisted(m, r, b);
      assert Persisted(Next(digest, m, s), r, b);
    } else {
      StepSends(digest, m, s, b);
      assert PublisherOk(m, m.publishers[s.publisher]);
      assert Persisted(Next(digest, m, s), m.publishers[s.publisher].row, b);
    }
  }

  lemma StepKeepsKey(digest: string -> string, m: Machine, s: Step, k: string)
    requires Enabled(m, s) && RowInv(digest, m) && WireInv(m) && k in Next(digest, m, s).keys
    ensures var n := Next(digest, m, s); n.keys[k].body.key == k && exists r :: Persisted(n, r, n.keys[k].body)
  {
    var n := Next(digest, m, s);
    StepGrows(digest, m, s);
    StepKeepsRecords(digest, m, s);
    var r :| Persisted(m, r, n.keys[k].body);
    assert Persisted(n, r, n.keys[k].body);
  }

  lemma StepKeepsIds(digest: string -> string, m: Machine, s: Step, j: string, k: string)
    requires Enabled(m, s) && WireInv(m)
    requires j in Next(digest, m, s).keys && k in Next(digest, m, s).keys
    requires Next(digest, m, s).keys[j].id == Next(digest, m, s).keys[k].id
    ensures j == k
  {
    StepKeepsRecords(digest, m, s);
    assert s.Receive? ==> forall k :: k in m.keys ==> m.keys[k].id != s.id;
  }

  lemma GrowthKeepsPublisher(m: Machine, n: Machine, p: Publisher)
    requires Grows(m, n) && PublisherOk(m, p)
    ensures PublisherOk(n, p)
  {
  }

  /** A publisher stays as it was or takes one of its own steps. */
  lemma StepMovesPublisher(digest: string -> string, m: Machine, s: Step, p: PublisherId)
    requires Enabled(m, s) && p in Next(digest, m, s).publishers
    ensures var a := Next(digest, m, s).publishers[p];
            || (p in m.publishers && a == m.publishers[p]) || a.Idle? || a.Failed?
            || (s.Claim? && a == Claimed(s.row, s.lease, m.rows[s.row].body))
            || (p in m.publishers && m.publishers[p].Claimed? && a.Sending? && a.row == m.publishers[p].row
                && a.body == m.publishers[p].body)
            || (s.Answered? && p == s.publisher && p in m.publishers && m.publishers[p].Sending?
                && a.Acknowledged? && a.row == m.publishers[p].row && a.id == s.answer.id && s.answer in m.answers
                && s.answer.key == m.publishers[p].body.key)
  {
  }

  lemma StepKeepsPublisher(digest: string -> string, m: Machine, s: Step, p: PublisherId)
    requires Enabled(m, s) && RowInv(digest, m) && WireInv(m) && p in Next(digest, m, s).publishers
    ensures PublisherOk(Next(digest, m, s), Next(digest, m, s).publishers[p])
  {
    var a := Next(digest, m, s).publishers[p];
    StepGrows(digest, m, s);
    StepMovesPublisher(digest, m, s, p);
    assert PublisherOk(m, a) by {
      assert p in m.publishers ==> PublisherOk(m, m.publishers[p]);
    }
    GrowthKeepsPublisher(m, Next(digest, m, s), a);
  }

  lemma GrowthKeepsHolds(m: Machine, n: Machine, key: string, id: TingId)
    requires Grows(m, n) && Holds(m, key, id)
    ensures Holds(n, key, id)
  {
  }

  lemma StepKeepsAccepted(digest: string -> string, m: Machine, s: Step, r: RowId)
    requires Enabled(m, s) && RowInv(digest, m) && WireInv(m)
    requires r in Next(digest, m, s).rows && Next(digest, m, s).rows[r].progress.accepted.Some?
    ensures var n := Next(digest, m, s); Holds(n, n.rows[r].body.key, n.rows[r].progress.accepted.value)
  {
    var row := Next(digest, m, s).rows[r];
    StepMovesRow(digest, m, s, r);
    StepGrows(digest, m, s);
    assert Holds(m, row.body.key, row.progress.accepted.value) by {
      if m.rows[r].progress.accepted.None? {
        assert PublisherOk(m, m.publishers[s.publisher]);
      }
    }
    GrowthKeepsHolds(m, Next(digest, m, s), row.body.key, row.progress.accepted.value);
  }

  lemma StepKeepsWireInv(digest: string -> string, m: Machine, s: Step)
    requires Enabled(m, s) && RowInv(digest, m) && WireInv(m)
    ensures WireInv(Next(digest, m, s))
  {
    var n := Next(digest, m, s);
    StepGrows(digest, m, s);
    StepKeepsRecords(digest, m, s);
    forall b | b in n.wire ensures exists r :: Persisted(n, r, b) { StepKeepsWire(digest, m, s, b); }
    forall k | k in n.keys ensures n.keys[k].body.key == k && exists r :: Persisted(n, r, n.keys[k].body) {
      StepKeepsKey(digest, m, s, k);
    }
    forall j, k | j in n.keys && k in n.keys && n.keys[j].id == n.keys[k].id ensures j == k {
      StepKeepsIds(digest, m, s, j, k);
    }
    forall a | a in n.answers ensures Holds(n, a.key, a.id) {
      assert a in m.answers ==> Holds(m, a.key, a.id);
    }
    forall p | p in n.publishers ensures PublisherOk(n, n.publishers[p]) { StepKeepsPublisher(digest, m, s, p); }
    forall r | r in n.rows && n.rows[r].progress.accepted.Some?
      ensures Holds(n, n.rows[r].body.key, n.rows[r].progress.accepted.value)
    {
      StepKeepsAccepted(digest, m, s, r);
    }
  }

  lemma {:induction false} RunKeepsInv(digest: string -> string, steps: seq<Step>)
    requires Exec(digest, steps).Some?
    ensures RowInv(digest, Exec(digest, steps).value) && WireInv(Exec(digest, steps).value)
    decreases |steps|
  {
    if steps != [] {
      var before := steps[..|steps| - 1];
      RunKeepsInv(digest, before);
      StepKeepsRows(digest, Exec(digest, before).value, steps[|steps| - 1]);
      StepKeepsWireInv(digest, Exec(digest, before).value, steps[|steps| - 1]);
    }
  }

  // ---------------------------------------------------------------------------
  // What every run of any number of publishers guarantees.
  // ---------------------------------------------------------------------------

  /** The record the receiver holds for a queued row, if any, carries exactly the bytes persisted with that row. */
  lemma RecordCarriesThePersistedBody(digest: string -> string, steps: seq<Step>, row: RowId)
    requires CollisionFree(digest) && Exec(digest, steps).Some?
    requires var m := Exec(digest, steps).value; row in m.enqueued && m.enqueued[row].body.key in m.keys
    ensures var m := Exec(digest, steps).value; m.keys[m.enqueued[row].body.key].body == m.enqueued[row].body
  {
    var m := Exec(digest, steps).value;
    RunKeepsInv(digest, steps);
    var key := m.enqueued[row].body.key;
    var r :| Persisted(m, r, m.keys[key].body);
    OneRowPerKey(digest, m, row, r);
  }

  lemma OneRowPerKey(digest: string -> string, m: Machine, r: RowId, q: RowId)
    requires CollisionFree(digest) && RowInv(digest, m) && r in m.enqueued && q in m.enqueued
    requires m.enqueued[r].body.key == m.enqueued[q].body.key
    ensures r == q
  {
    var a, b := m.enqueued[r], m.enqueued[q];
    ProducerKeyIsInjective(digest, a.event, a.recipient, b.event, b.recipient);
  }

  ghost predicate RecordOf(m: Machine, row: RowId, record: Record) {
    row in m.enqueued && m.enqueued[row].body.key in m.keys && m.keys[m.enqueued[row].body.key] == record
  }

  /** Every record belongs to exactly one queued row, so a row is never recorded twice. */
  lemma EveryRecordHasOneRow(digest: string -> string, steps: seq<Step>, key: string)
    requires CollisionFree(digest) && Exec(digest, steps).Some? && key in Exec(digest, steps).value.keys
    ensures var m := Exec(digest, steps).value;
            && (exists row :: RecordOf(m, row, m.keys[key]))
            && (forall r, q :: RecordOf(m, r, m.keys[key]) && RecordOf(m, q, m.keys[key]) ==> r == q)
  {
    var m := Exec(digest, steps).value;
    RunKeepsInv(digest, steps);
    var row :| Persisted(m, row, m.keys[key].body);
    assert RecordOf(m, row, m.keys[key]);
    forall r, q | RecordOf(m, r, m.keys[key]) && RecordOf(m, q, m.keys[key]) ensures r == q {
      OneRowPerKey(digest, m, r, q);
    }
  }

  /** The receiver holds the record an accepted row names, with its persisted body; no other has its id or body. */
  lemma AcceptedRowNamesItsRecord(digest: string -> string, steps: seq<Step>, row: RowId)
    requires CollisionFree(digest) && Exec(digest, steps).Some?
    requires var m := Exec(digest, steps).value; row in m.rows && m.rows[row].progress.accepted.Some?
    ensures var m := Exec(digest, steps).value;
            && m.rows[row].body.key in m.keys
            && m.keys[m.rows[row].body.key] == Record(m.rows[row].progress.accepted.value, m.rows[row].body)
    ensures var m := Exec(digest, steps).value;
            forall key :: key in m.keys ==>
              (m.keys[key].id == m.rows[row].progress.accepted.value <==> m.keys[key].body == m.rows[row].body)
  {
    var m := Exec(digest, steps).value;
    RunKeepsInv(digest, steps);
    assert Holds(m, m.rows[row].body.key, m.rows[row].progress.accepted.value);
    RecordCarriesThePersistedBody(digest, steps, row);
  }

  /** Whatever follows, a record keeps its id and body, and a row its acceptance for as long as it exists. */
  lemma {:induction false} AcceptanceIsFinal(digest: string -> string, steps: seq<Step>, k: nat)
    requires k <= |steps| && Exec(digest, steps).Some?
    ensures Exec(digest, steps[..k]).Some?
    ensures Grows(Exec(digest, steps[..k]).value, Exec(digest, steps).value)
    decreases |steps|
  {
    if k == |steps| {
      assert steps[..k] == steps;
      RunKeepsInv(digest, steps);
    } else {
      var before := steps[..|steps| - 1];
      AcceptanceIsFinal(digest, before, k);
      assert before[..k] == steps[..k];
      RunKeepsInv(digest, before);
      RunKeepsInv(digest, steps[..k]);
      StepGrows(digest, Exec(digest, before).value, steps[|steps| - 1]);
      GrowsTransitively(digest, Exec(digest, steps[..k]).value, Exec(digest, before).value, Exec(digest, steps).value);
    }
  }

  /** No live row waits for more than its lease and an hour: both bounds are kept by every step. */
  ghost predicate WaitIsBounded(p: Progress, now: Instant) {
    && (!p.legacy ==> p.nextAttemptAt <= now + MAX_RETRY_DELAY)
    && (p.lease.Some? ==> !p.legacy && p.lease.value.until <= now + LEASE)
  }

  ghost predicate WaitsAreBounded(m: Machine) {
    forall r :: r in m.rows ==> WaitIsBounded(m.rows[r].progress, m.now)
  }

  lemma StepPostpones(digest: string -> string, m: Machine, s: Step, r: RowId)
    requires Enabled(m, s) && r in Next(digest, m, s).rows
    ensures m.now <= Next(digest, m, s).now
    ensures var p := Next(digest, m, s).rows[r].progress;
            || (r in m.rows && p == m.rows[r].progress)
            || (s.Enqueue? && p.lease.None? && !p.legacy && p.nextAttemptAt <= m.now)
            || (r in m.rows && Postponed(m, m.rows[r].progress, p))
  {
  }

  /** How a row's wait changes: it is released, put off, leased, or retired for good. */
  ghost predicate Postponed(m: Machine, before: Progress, after: Progress) {
    || (after.lease.None? && after.legacy == before.legacy && after.nextAttemptAt == before.nextAttemptAt)
    || (before.lease.Some? && after.lease.None? && after.legacy == before.legacy
        && after.nextAttemptAt <= m.now + MAX_RETRY_DELAY)
    || (!before.legacy && !after.legacy && after.lease.Some? && after.lease.value.until <= m.now + LEASE
        && after.nextAttemptAt == before.nextAttemptAt)
    || (after.legacy && after.lease.None?)
  }

  lemma StepKeepsWaitBounded(digest: string -> string, m: Machine, s: Step, r: RowId)
    requires Enabled(m, s) && WaitsAreBounded(m) && r in Next(digest, m, s).rows
    ensures WaitIsBounded(Next(digest, m, s).rows[r].progress, Next(digest, m, s).now)
  {
    StepPostpones(digest, m, s, r);
    assert r in m.rows ==> WaitIsBounded(m.rows[r].progress, m.now);
  }

  lemma {:induction false} RunKeepsWaitsBounded(digest: string -> string, steps: seq<Step>)
    requires Exec(digest, steps).Some?
    ensures WaitsAreBounded(Exec(digest, steps).value)
    decreases |steps|
  {
    if steps != [] {
      var before := steps[..|steps| - 1];
      RunKeepsWaitsBounded(digest, before);
      forall r | r in Exec(digest, steps).value.rows
        ensures WaitIsBounded(Exec(digest, steps).value.rows[r].progress, Exec(digest, steps).value.now)
      {
        StepKeepsWaitBounded(digest, Exec(digest, before).value, steps[|steps| - 1], r);
      }
    }
  }

  /** Whatever crashed or failed, a row neither accepted, expired nor retired is due again within an hour. */
  lemma UnacceptedRowsBecomeDue(digest: string -> string, steps: seq<Step>, row: RowId, at: Instant)
    requires Exec(digest, steps).Some? && row in Exec(digest, steps).value.rows
    requires Exec(digest, steps).value.now + MAX_RETRY_DELAY <= at
    ensures var m := Exec(digest, steps).value;
            Due(m.(now := at), row) <==>
              m.rows[row].progress.accepted.None? && !m.rows[row].progress.legacy && at < m.rows[row].expiresAt
  {
    RunKeepsWaitsBounded(digest, steps);
    assert WaitIsBounded(Exec(digest, steps).value.rows[row].progress, Exec(digest, steps).value.now);
  }

  /** A row retired without being accepted never will be: its publisher's acceptance comes too late. */
  lemma {:induction false} RetiredRowsAreNeverAccepted(digest: string -> string, steps: seq<Step>, row: RowId)
    requires Exec(digest, steps).Some? && row in Exec(digest, steps).value.rows
    ensures Exec(digest, steps).value.rows[row].progress.legacy ==>
              Exec(digest, steps).value.rows[row].progress.accepted.None?
    decreases |steps|
  {
    if steps != [] {
      var before := steps[..|steps| - 1];
      RunKeepsWaitsBounded(digest, before);
      if row in Exec(digest, before).value.rows {
        RetiredRowsAreNeverAccepted(digest, before, row);
      }
      StepKeepsRetired(digest, Exec(digest, before).value, steps[|steps| - 1], row);
    }
  }

  lemma StepKeepsRetired(digest: string -> string, m: Machine, s: Step, row: RowId)
    requires Enabled(m, s) && WaitsAreBounded(m) && row in Next(digest, m, s).rows
    requires row in m.rows && m.rows[row].progress.legacy ==> m.rows[row].progress.accepted.None?
    ensures Next(digest, m, s).rows[row].progress.legacy ==> Next(digest, m, s).rows[row].progress.accepted.None?
  {
    StepMovesRow(digest, m, s, row);
    assert row in m.rows ==> WaitIsBounded(m.rows[row].progress, m.now);
  }

  lemma GrowsTransitively(digest: string -> string, a: Machine, b: Machine, c: Machine)
    requires Grows(a, b) && Grows(b, c) && RowInv(digest, a)
    ensures Grows(a, c)
  {
  }
}
