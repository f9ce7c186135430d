/**
 * Carbons observing a Silicon: subscribing, unsubscribing and accepting events as transactions
 * that hold the Silicon's advisory lock, interleaved statement by statement.
 */
module Observers {
  import opened Common

  type Silicon = string
  type Carbon = string
  type SubId = nat
  type TxnId = nat
  type EventId = nat

  const MAX_OBSERVERS_PER_SILICON: nat := 100

  datatype Sub = Sub(silicon: Silicon, recipient: Carbon)

  /** A queued send: the Silicon's own (no subscription) or an observer's copy. */
  datatype Copy = Copy(event: EventId, recipient: Carbon, sub: Option<SubId>)

  /** Who may see a Silicon's events: grants and custodians, and which accounts were deleted. */
  datatype Access = Access(holders: set<Sub>, deleted: set<Carbon>)

  datatype Txn =
    | Subscribing(sub: Sub, stage: Stage)
    | Unsubscribing(sub: Sub, locked: bool)
    | Accepting(event: EventId, silicon: Silicon, progress: Progress)
    | Done

  /** The statements of `subscribe`: lock, look for an existing row, count, insert. */
  datatype Stage = Waiting | Locked | NotFound | BelowLimit | Inserted(id: SubId)

  /** The statements of an acceptance: lock, select the observers, enqueue one copy each. */
  datatype Progress =
    | Queued
    | Shared
    | Selected(at: nat, rows: seq<SubId>, pending: seq<Copy>)

  /** An accepted event, the sends it enqueued, and the steps at which it selected and committed. */
  datatype Accepted = Accepted(silicon: Silicon, sends: seq<Copy>, selectedAt: nat, committedAt: nat)

  /** `ids` are the subscription ids ever generated; they are never reused. */
  datatype Machine = Machine(
    subs: map<SubId, Sub>,
    ids: set<SubId>,
    access: Access,
    txns: map<TxnId, Txn>,
    outbox: set<Copy>,
    accepted: map<EventId, Accepted>,
    clock: nat)

  const Start := Machine(map[], {}, Access({}, {}), map[], {}, map[], 0)

  datatype Step =
    | BeginSubscribe(txn: TxnId, sub: Sub)
    | BeginUnsubscribe(txn: TxnId, sub: Sub)
    | BeginAccept(txn: TxnId, event: EventId, silicon: Silicon)
    | Lock(txn: TxnId)
    | FindExisting(txn: TxnId)
    | CountRows(txn: TxnId)
    | Insert(txn: TxnId, id: SubId)
    | Select(txn: TxnId, rows: seq<SubId>)
    | Enqueue(txn: TxnId)
    | Commit(txn: TxnId)
    | Abort(txn: TxnId)
    | AccountsChange(access: Access, removed: set<SubId>)

  function RowsOf(m: Machine, s: Silicon): set<SubId> {
    set id | id in m.subs && m.subs[id].silicon == s
  }

  /** The rows the acceptance's query returns. */
  function Eligible(m: Machine, s: Silicon): set<SubId> {
    set id | id in m.subs && m.subs[id].silicon == s
          && m.subs[id].recipient !in m.access.deleted && m.subs[id] in m.access.holders
  }

  predicate HoldsExclusive(t: Txn, s: Silicon) {
    || (t.Subscribing? && t.sub.silicon == s && !t.stage.Waiting?)
    || (t.Unsubscribing? && t.sub.silicon == s && t.locked)
  }

  predicate HoldsShared(t: Txn, s: Silicon) {
    t.Accepting? && t.silicon == s && !t.progress.Queued?
  }

  /** Shared advisory locks exclude exclusive ones, exclusive ones exclude everything. */
  predicate LockFree(m: Machine, s: Silicon, exclusive: bool) {
    forall t :: t in m.txns ==>
      !HoldsExclusive(m.txns[t], s) && (exclusive ==> !HoldsShared(m.txns[t], s))
  }

  /** A row referenced by an uncommitted copy cannot be deleted until that copy commits. */
  predicate Referenced(m: Machine, id: SubId) {
    exists t :: t in m.txns && m.txns[t].Accepting? && m.txns[t].progress.Selected?
             && exists i :: 0 <= i < |m.txns[t].progress.pending| && m.txns[t].progress.pending[i].sub == Some(id)
  }

  predicate Ascending(rows: seq<SubId>) {
    forall i, j :: 0 <= i < j < |rows| ==> rows[i] < rows[j]
  }

  function Elements(rows: seq<SubId>): set<SubId> {
    set i | 0 <= i < |rows| :: rows[i]
  }

  /** The next row whose copy an acceptance still has to enqueue. */
  function NextRow(p: Progress): nat
    requires p.Selected? && p.pending != []
  {
    |p.pending| - 1
  }

  /** The foreign key holds and no other copy of the event goes to the same recipient. */
  predicate CanEnqueue(m: Machine, p: Progress, id: SubId)
    requires p.Selected?
  {
    && id in m.subs
    && forall i :: 0 <= i < |p.pending| ==> p.pending[i].recipient != m.subs[id].recipient
  }

  predicate Enabled(m: Machine, s: Step) {
    match s
    case BeginSubscribe(t, _) => t !in m.txns
    case BeginUnsubscribe(t, _) => t !in m.txns
    case BeginAccept(t, event, _) =>
      // Event ids are never reused.
      && t !in m.txns && event !in m.accepted
      && forall u :: u in m.txns && m.txns[u].Accepting? ==> m.txns[u].event != event
    case Lock(t) => t in m.txns && (
      match m.txns[t]
      case Subscribing(sub, stage) => stage.Waiting? && LockFree(m, sub.silicon, true)
      case Unsubscribing(sub, locked) => !locked && LockFree(m, sub.silicon, true)
      case Accepting(_, silicon, progress) => progress.Queued? && LockFree(m, silicon, false)
      case Done => false)
    case FindExisting(t) => t in m.txns && m.txns[t].Subscribing? && m.txns[t].stage.Locked?
    case CountRows(t) => t in m.txns && m.txns[t].Subscribing? && m.txns[t].stage.NotFound?
    case Insert(t, id) =>
      t in m.txns && m.txns[t].Subscribing? && m.txns[t].stage.BelowLimit? && id !in m.ids
    case Select(t, rows) =>
      && t in m.txns && m.txns[t].Accepting? && m.txns[t].progress.Shared?
      && Ascending(rows) && Elements(rows) == Eligible(m, m.txns[t].silicon)
    case Enqueue(t) =>
      && t in m.txns && m.txns[t].Accepting? && m.txns[t].progress.Selected?
      && 1 <= |m.txns[t].progress.pending| <= |m.txns[t].progress.rows|
    case Commit(t) => t in m.txns && (
      match m.txns[t]
      case Subscribing(_, stage) => stage.Inserted?
      case Unsubscribing(_, locked) => locked
      case Accepting(_, _, progress) => progress.Selected? && |progress.pending| == |progress.rows| + 1
      case Done => false)
    case Abort(t) => t in m.txns && !m.txns[t].Done?
    case AccountsChange(_, removed) => forall id :: id in removed ==> !Referenced(m, id)
  }

  function Go(m: Machine, t: TxnId, txn: Txn): Machine {
    m.(txns := m.txns[t := txn])
  }

  /** Deleting subscriptions deletes the queued sends that reference them. */
  function Remove(m: Machine, removed: set<SubId>): Machine {
    m.(subs := m.subs - removed,
       outbox := set c | c in m.outbox && (c.sub.None? || c.sub.value !in removed))
  }

  function Committed(m: Machine, t: TxnId): Machine
    requires Enabled(m, Commit(t))
  {
    match m.txns[t]
    case Subscribing(sub, stage) => Go(m.(subs := m.subs[stage.id := sub]), t, Done)
    case Unsubscribing(sub, _) => Go(Remove(m, set id | id in m.subs && m.subs[id] == sub), t, Done)
    case Accepting(event, silicon, progress) =>
      Go(m.(outbox := m.outbox + (set c | c in progress.pending),
            accepted := m.accepted[event := Accepted(silicon, progress.pending, progress.at, m.clock)]), t, Done)
  }

  function Effect(m: Machine, s: Step): Machine
    requires Enabled(m, s)
  {
    match s
    case BeginSubscribe(t, sub) => Go(m, t, Subscribing(sub, Waiting))
    case BeginUnsubscribe(t, sub) => Go(m, t, Unsubscribing(sub, false))
    case BeginAccept(t, event, silicon) => Go(m, t, Accepting(event, silicon, Queued))
    case Lock(t) =>
      (match m.txns[t]
       case Subscribing(sub, _) => Go(m, t, Subscribing(sub, Locked))
       case Unsubscribing(sub, _) => Go(m, t, Unsubscribing(sub, true))
       case Accepting(event, silicon, _) => Go(m, t, Accepting(event, silicon, Shared)))
    case FindExisting(t) =>
      var sub := m.txns[t].sub;
      // An existing subscription is returned as it is.
      if exists id :: id in m.subs && m.subs[id] == sub then Go(m, t, Done)
      else Go(m, t, Subscribing(sub, NotFound))
    case CountRows(t) =>
      var sub := m.txns[t].sub;
      if |RowsOf(m, sub.silicon)| >= MAX_OBSERVERS_PER_SILICON then Go(m, t, Done)
      else Go(m, t, Subscribing(sub, BelowLimit))
    case Insert(t, id) =>
      var sub := m.txns[t].sub;
      // A Silicon cannot observe itself.
      if sub.silicon == sub.recipient then Go(m, t, Done)
      else Go(m.(ids := m.ids + {id}), t, Subscribing(sub, Inserted(id)))
    case Select(t, rows) =>
      var txn := m.txns[t];
      if |rows| > MAX_OBSERVERS_PER_SILICON then Go(m, t, Done)
      else
        // The Silicon's own send was enqueued before the observers' copies.
        Go(m, t, Accepting(txn.event, txn.silicon, Selected(m.clock, rows, [Copy(txn.event, txn.silicon, None)])))
    case Enqueue(t) =>
      var txn := m.txns[t];
      var p := txn.progress;
      var id := p.rows[NextRow(p)];
      if CanEnqueue(m, p, id) then
        Go(m, t, Accepting(txn.event, txn.silicon,
                           p.(pending := p.pending + [Copy(txn.event, m.subs[id].recipient, Some(id))])))
      else Go(m, t, Done)
    case Commit(t) => Committed(m, t)
    case Abort(t) => Go(m, t, Done)
    case AccountsChange(access, removed) => Remove(m.(access := access), removed)
  }

  function Next(m: Machine, s: Step): Machine
    requires Enabled(m, s)
  {
    Effect(m, s).(clock := m.clock + 1)
  }

  /** The machine after a schedule, or nothing when a step of it was not possible. */
  function Exec(steps: seq<Step>): Option<Machine>
    decreases |steps|
  {
    if steps == [] then Some(Start) else
    var before := Exec(steps[..|steps| - 1]);
    var last := steps[|steps| - 1];
    if before.Some? && Enabled(before.value, last) then Some(Next(before.value, last)) else None
  }

  // ---------------------------------------------------------------------------
  // Locks.
  // ---------------------------------------------------------------------------

  ghost predicate LockInv(m: Machine) {
    && (forall t, u, s :: Exclusive(m, t, s) && Exclusive(m, u, s) ==> t == u)
    && (forall t, u, s :: Exclusive(m, t, s) ==> !SharedBy(m, u, s))
  }

  /** The transaction a step advances. */
  function Actor(s: Step): Option<TxnId> {
    if s.AccountsChange? then None else Some(s.txn)
  }

  predicate Exclusive(m: Machine, t: TxnId, s: Silicon) {
    t in m.txns && HoldsExclusive(m.txns[t], s)
  }

  predicate SharedBy(m: Machine, t: TxnId, s: Silicon) {
    t in m.txns && HoldsShared(m.txns[t], s)
  }

  lemma OthersStay(m: Machine, s: Step)
    requires Enabled(m, s)
    ensures forall u :: u in Next(m, s).txns && Some(u) != Actor(s) ==> u in m.txns && Next(m, s).txns[u] == m.txns[u]
  {
  }

  /** A lock is gained by a lock statement only, and only while it is free. */
  lemma LocksAreGainedWhenFree(m: Machine, s: Step, t: TxnId, x: Silicon)
    requires Enabled(m, s)
    ensures Exclusive(Next(m, s), t, x) && !Exclusive(m, t, x) ==> s == Lock(t) && LockFree(m, x, true)
    ensures SharedBy(Next(m, s), t, x) && !SharedBy(m, t, x) ==> s == Lock(t) && LockFree(m, x, false)
  {
  }

  lemma StepKeepsLocks(m: Machine, s: Step)
    requires Enabled(m, s) && LockInv(m)
    ensures LockInv(Next(m, s))
  {
    var n := Next(m, s);
    forall t, u, x | Exclusive(n, t, x) && Exclusive(n, u, x)
      ensures t == u
    {
      LocksAreGainedWhenFree(m, s, t, x);
      LocksAreGainedWhenFree(m, s, u, x);
    }
    forall t, u, x | Exclusive(n, t, x)
      ensures !SharedBy(n, u, x)
    {
      LocksAreGainedWhenFree(m, s, t, x);
      LocksAreGainedWhenFree(m, s, u, x);
      OthersStay(m, s);
    }
  }

  // ---------------------------------------------------------------------------
  // The limit and the uniqueness of subscriptions.
  // ---------------------------------------------------------------------------

  ghost predicate Absent(m: Machine, sub: Sub) {
    forall id :: id in m.subs ==> m.subs[id] != sub
  }

  ghost predicate StageOk(m: Machine, sub: Sub, stage: Stage) {
    match stage
    case NotFound => Absent(m, sub)
    case BelowLimit => Absent(m, sub) && |RowsOf(m, sub.silicon)| < MAX_OBSERVERS_PER_SILICON
    case Inserted(id) =>
      && Absent(m, sub) && |RowsOf(m, sub.silicon)| < MAX_OBSERVERS_PER_SILICON
      && id in m.ids && id !in m.subs && sub.silicon != sub.recipient
    case _ => true
  }

  ghost predicate TableInv(m: Machine) {
    && m.subs.Keys <= m.ids
    && (forall i, j :: i in m.subs && j in m.subs && m.subs[i] == m.subs[j] ==> i == j)
    && (forall i :: i in m.subs ==> m.subs[i].silicon != m.subs[i].recipient)
    && (forall s :: |RowsOf(m, s)| <= MAX_OBSERVERS_PER_SILICON)
  }

  predicate Inserting(t: Txn) {
    t.Subscribing? && t.stage.Inserted?
  }

  ghost predicate RowInv(m: Machine) {
    && TableInv(m)
    && (forall t :: t in m.txns && m.txns[t].Subscribing? ==> StageOk(m, m.txns[t].sub, m.txns[t].stage))
    && (forall t, u :: t in m.txns && u in m.txns && t != u && Inserting(m.txns[t]) && Inserting(m.txns[u]) ==>
          m.txns[t].stage.id != m.txns[u].stage.id)
  }

  lemma SubsetIsSmaller<T>(a: set<T>, b: set<T>)
    requires a <= b
    ensures |a| <= |b|
  {
    assert b == a + (b - a);
  }

  lemma FewerRows(m: Machine, n: Machine, s: Silicon)
    requires forall id :: id in n.subs ==> id in m.subs && n.subs[id] == m.subs[id]
    ensures |RowsOf(n, s)| <= |RowsOf(m, s)|
  {
    SubsetIsSmaller(RowsOf(n, s), RowsOf(m, s));
  }

  /** Steps that add no row keep what subscribers know. */
  lemma ShrinkingKeepsRows(m: Machine, n: Machine)
    requires TableInv(m) && n.ids >= m.ids
    requires forall id :: id in n.subs ==> id in m.subs && n.subs[id] == m.subs[id]
    ensures TableInv(n)
    ensures forall sub, stage :: StageOk(m, sub, stage) ==> StageOk(n, sub, stage)
  {
    forall s ensures |RowsOf(n, s)| <= |RowsOf(m, s)| {
      FewerRows(m, n, s);
    }
  }

  lemma OneMoreRow(m: Machine, n: Machine, id: SubId, sub: Sub, s: Silicon)
    requires id !in m.subs && n.subs == m.subs[id := sub]
    ensures |RowsOf(n, s)| == |RowsOf(m, s)| + if s == sub.silicon then 1 else 0
  {
    assert RowsOf(n, s) == RowsOf(m, s) + if s == sub.silicon then {id} else {};
  }

  lemma InsertingKeepsTable(m: Machine, n: Machine, id: SubId, sub: Sub)
    requires TableInv(m) && StageOk(m, sub, Inserted(id))
    requires n.subs == m.subs[id := sub] && n.ids == m.ids
    ensures TableInv(n)
  {
    forall s ensures |RowsOf(n, s)| <= MAX_OBSERVERS_PER_SILICON {
      OneMoreRow(m, n, id, sub, s);
    }
  }

  lemma CommitSubscribeKeepsStage(m: Machine, t: TxnId, u: TxnId)
    requires Enabled(m, Commit(t)) && m.txns[t].Subscribing? && LockInv(m) && RowInv(m)
    requires u in m.txns && u != t && m.txns[u].Subscribing?
    ensures StageOk(Next(m, Commit(t)), m.txns[u].sub, m.txns[u].stage)
  {
    var n := Next(m, Commit(t));
    var s := m.txns[u].sub.silicon;
    assert StageOk(m, m.txns[u].sub, m.txns[u].stage);
    if !m.txns[u].stage.Waiting? {
      assert Exclusive(m, u, s) && Exclusive(m, t, m.txns[t].sub.silicon);
      assert s != m.txns[t].sub.silicon;
      assert StageOk(m, m.txns[t].sub, m.txns[t].stage);
      assert RowsOf(n, s) == RowsOf(m, s);
      if Inserting(m.txns[u]) {
        assert Inserting(m.txns[t]);
      }
    }
  }

  lemma CommitSubscribeKeepsRows(m: Machine, t: TxnId)
    requires Enabled(m, Commit(t)) && m.txns[t].Subscribing? && LockInv(m) && RowInv(m)
    ensures RowInv(Next(m, Commit(t)))
  {
    var n := Next(m, Commit(t));
    InsertingKeepsTable(m, n, m.txns[t].stage.id, m.txns[t].sub);
    OthersStay(m, Commit(t));
    forall u | u in n.txns && n.txns[u].Subscribing?
      ensures StageOk(n, n.txns[u].sub, n.txns[u].stage)
    {
      CommitSubscribeKeepsStage(m, t, u);
    }
  }

  lemma ActorStageIsOk(m: Machine, s: Step)
    requires Enabled(m, s) && RowInv(m) && Actor(s).Some?
    requires !(s.Commit? && m.txns[s.txn].Subscribing?)
    ensures var t := Next(m, s).txns[s.txn];
            && (t.Subscribing? ==> StageOk(Next(m, s), t.sub, t.stage))
            && (Inserting(t) ==> t.stage.id !in m.ids)
  {
    var n := Next(m, s);
    if s.txn in m.txns && m.txns[s.txn].Subscribing? {
      assert StageOk(m, m.txns[s.txn].sub, m.txns[s.txn].stage);
    }
    if n.txns[s.txn].Subscribing? {
      assert n.subs == m.subs && RowsOf(n, n.txns[s.txn].sub.silicon) == RowsOf(m, n.txns[s.txn].sub.silicon);
    }
  }

  lemma SubsOnlyShrink(m: Machine, s: Step)
    requires Enabled(m, s) && !(s.Commit? && m.txns[s.txn].Subscribing?)
    ensures forall id :: id in Next(m, s).subs ==> id in m.subs && Next(m, s).subs[id] == m.subs[id]
    ensures m.ids <= Next(m, s).ids
  {
  }

  lemma StepKeepsRows(m: Machine, s: Step)
    requires Enabled(m, s) && LockInv(m) && RowInv(m)
    ensures RowInv(Next(m, s))
  {
    if s.Commit? && m.txns[s.txn].Subscribing? {
      CommitSubscribeKeepsRows(m, s.txn);
    } else {
      OtherStepKeepsTable(m, s);
      OtherStepKeepsIds(m, s);
    }
  }

  lemma OtherStepKeepsTable(m: Machine, s: Step)
    requires Enabled(m, s) && RowInv(m) && !(s.Commit? && m.txns[s.txn].Subscribing?)
    ensures var n := Next(m, s);
            && TableInv(n)
            && forall t :: t in n.txns && n.txns[t].Subscribing? ==> StageOk(n, n.txns[t].sub, n.txns[t].stage)
  {
    SubsOnlyShrink(m, s);
    ShrinkingKeepsRows(m, Next(m, s));
    OthersStay(m, s);
    if Actor(s).Some? {
      ActorStageIsOk(m, s);
    }
  }

  lemma OtherStepKeepsIds(m: Machine, s: Step)
    requires Enabled(m, s) && RowInv(m) && !(s.Commit? && m.txns[s.txn].Subscribing?)
    ensures var n := Next(m, s);
            forall t, u :: t in n.txns && u in n.txns && t != u && Inserting(n.txns[t]) && Inserting(n.txns[u]) ==>
              n.txns[t].stage.id != n.txns[u].stage.id
  {
    OthersStay(m, s);
    forall u | u in m.txns && Inserting(m.txns[u]) ensures m.txns[u].stage.id in m.ids {
      assert StageOk(m, m.txns[u].sub, m.txns[u].stage);
    }
    if Actor(s).Some? {
      ActorStageIsOk(m, s);
    }
  }

  // ---------------------------------------------------------------------------
  // What an acceptance enqueues, seen from the state in which it selected.
  // ---------------------------------------------------------------------------

  /** The sends of an event: the Silicon's own, then one for each of the first rows of `k`. */
  ghost predicate SendsOf(k: Machine, event: EventId, s: Silicon, rows: seq<SubId>, sends: seq<Copy>) {
    && Ascending(rows) && Elements(rows) == Eligible(k, s)
    && 1 <= |sends| <= |rows| + 1 && sends[0] == Copy(event, s, None)
    && forall i :: 1 <= i < |sends| ==> SendOf(k, event, rows[i - 1], sends[i])
  }

  ghost predicate SendOf(k: Machine, event: EventId, row: SubId, send: Copy) {
    row in k.subs && send == Copy(event, k.subs[row].recipient, Some(row))
  }

  /** Since `k` the Silicon gained no subscription and no identifier changed its meaning. */
  ghost predicate OnlyLost(k: Machine, m: Machine, s: Silicon) {
    && (forall id :: id in m.subs && m.subs[id].silicon == s ==> id in k.subs)
    && Consistent(k, m)
  }

  ghost predicate Consistent(k: Machine, m: Machine) {
    && k.subs.Keys <= m.ids
    && (forall id :: id in m.subs && id in k.subs ==> m.subs[id] == k.subs[id])
    && (forall u :: u in m.txns && Inserting(m.txns[u]) ==> m.txns[u].stage.id !in k.subs)
  }

  ghost predicate Live(m: Machine, sends: seq<Copy>) {
    forall i :: 0 <= i < |sends| && sends[i].sub.Some? ==> sends[i].sub.value in m.subs
  }

  ghost predicate AcceptingOk(k: Machine, m: Machine, t: Txn)
    requires t.Accepting? && t.progress.Selected?
  {
    SendsOf(k, t.event, t.silicon, t.progress.rows, t.progress.pending)
      && OnlyLost(k, m, t.silicon) && Live(m, t.progress.pending)
  }

  /** The event's sends are exactly those owed in `k`, and their subscriptions still stand in `n`. */
  ghost predicate AcceptedOk(k: Machine, n: Machine, event: EventId, a: Accepted) {
    && (exists rows :: SendsOf(k, event, a.silicon, rows, a.sends) && |a.sends| == |rows| + 1)
    && OnlyLost(k, n, a.silicon) && Live(n, a.sends) && TableInv(k)
  }

  ghost predicate TraceInv(steps: seq<Step>, m: Machine) {
    && m.clock == |steps|
    && (forall t :: t in m.txns && m.txns[t].Accepting? && m.txns[t].progress.Selected? ==>
          var at := m.txns[t].progress.at;
          at < |steps| && Exec(steps[..at]).Some? && TableInv(Exec(steps[..at]).value)
            && AcceptingOk(Exec(steps[..at]).value, m, m.txns[t]))
    && (forall e :: e in m.accepted ==>
          var a := m.accepted[e];
          a.selectedAt < a.committedAt < |steps|
            && Exec(steps[..a.selectedAt]).Some? && Exec(steps[..a.committedAt]).Some?
            && AcceptedOk(Exec(steps[..a.selectedAt]).value, Exec(steps[..a.committedAt]).value, e, a))
  }

  /** A subscription that appears was being inserted until this step. */
  lemma NewRowWasInserted(m: Machine, s: Step, id: SubId)
    requires Enabled(m, s) && id in Next(m, s).subs && !(id in m.subs && m.subs[id] == Next(m, s).subs[id])
    ensures s.Commit? && Inserting(m.txns[s.txn]) && m.txns[s.txn].stage.id == id
  {
    if s.Commit? && m.txns[s.txn].Subscribing? {
      assert Next(m, s).subs == m.subs[m.txns[s.txn].stage.id := m.txns[s.txn].sub];
    } else {
      SubsOnlyShrink(m, s);
    }
  }

  /** A transaction about to insert was so before, or has just generated its identifier. */
  lemma InsertingSteps(m: Machine, s: Step, u: TxnId)
    requires Enabled(m, s) && RowInv(m) && u in Next(m, s).txns && Inserting(Next(m, s).txns[u])
    ensures (u in m.txns && m.txns[u] == Next(m, s).txns[u]) || Next(m, s).txns[u].stage.id !in m.ids
  {
    OthersStay(m, s);
    if Actor(s) == Some(u) {
      ActorStageIsOk(m, s);
    }
  }

  lemma IdsOnlyGrow(m: Machine, s: Step)
    requires Enabled(m, s)
    ensures m.ids <= Next(m, s).ids
  {
  }

  lemma StepKeepsConsistent(k: Machine, m: Machine, s: Step)
    requires Enabled(m, s) && RowInv(m) && Consistent(k, m)
    ensures Consistent(k, Next(m, s))
  {
    var n := Next(m, s);
    IdsOnlyGrow(m, s);
    forall id | id in n.subs && id in k.subs ensures n.subs[id] == k.subs[id] {
      if !(id in m.subs && m.subs[id] == n.subs[id]) {
        NewRowWasInserted(m, s, id);
      }
    }
    forall u | u in n.txns && Inserting(n.txns[u]) ensures n.txns[u].stage.id !in k.subs {
      InsertingSteps(m, s, u);
    }
  }

  /** While an acceptance holds its shared lock, its Silicon gains no subscription. */
  lemma StepKeepsOnlyLost(k: Machine, m: Machine, s: Step, t: TxnId, silicon: Silicon)
    requires Enabled(m, s) && LockInv(m) && RowInv(m) && SharedBy(m, t, silicon) && OnlyLost(k, m, silicon)
    ensures OnlyLost(k, Next(m, s), silicon)
  {
    StepKeepsConsistent(k, m, s);
    if s.Commit? && m.txns[s.txn].Subscribing? {
      assert Exclusive(m, s.txn, m.txns[s.txn].sub.silicon);
      assert m.txns[s.txn].sub.silicon != silicon;
    } else {
      SubsOnlyShrink(m, s);
    }
  }

  /** Nothing deletes a subscription whose copy is waiting for its commit. */
  lemma StepKeepsLive(k: Machine, m: Machine, s: Step, t: TxnId)
    requires Enabled(m, s) && LockInv(m) && t in m.txns && m.txns[t].Accepting? && m.txns[t].progress.Selected?
    requires AcceptingOk(k, m, m.txns[t])
    ensures Live(Next(m, s), m.txns[t].progress.pending)
  {
    var n := Next(m, s);
    var pending := m.txns[t].progress.pending;
    forall i | 0 <= i < |pending| && pending[i].sub.Some?
      ensures pending[i].sub.value in n.subs
    {
      var id := pending[i].sub.value;
      if s.AccountsChange? {
        assert Referenced(m, id);
      } else if s.Commit? && m.txns[s.txn].Unsubscribing? {
        assert Exclusive(m, s.txn, m.txns[s.txn].sub.silicon) && SharedBy(m, t, m.txns[t].silicon);
        assert id == m.txns[t].progress.rows[i - 1] && id in Elements(m.txns[t].progress.rows);
      }
    }
  }

  lemma SelectIsOk(m: Machine, t: TxnId, rows: seq<SubId>)
    requires Enabled(m, Select(t, rows)) && RowInv(m)
    requires |rows| <= MAX_OBSERVERS_PER_SILICON
    ensures AcceptingOk(m, Next(m, Select(t, rows)), Next(m, Select(t, rows)).txns[t])
  {
    forall u | u in m.txns && Inserting(m.txns[u])
      ensures m.txns[u].stage.id !in m.subs
    {
      assert StageOk(m, m.txns[u].sub, m.txns[u].stage);
    }
  }

  lemma OneMoreSend(k: Machine, event: EventId, s: Silicon, rows: seq<SubId>, sends: seq<Copy>, more: seq<Copy>)
    requires SendsOf(k, event, s, rows, sends) && |sends| <= |rows| && rows[|sends| - 1] in k.subs
    requires var id := rows[|sends| - 1]; more == sends + [Copy(event, k.subs[id].recipient, Some(id))]
    ensures SendsOf(k, event, s, rows, more)
  {
    forall i | 1 <= i < |more| ensures SendOf(k, event, rows[i - 1], more[i]) {
      assert i < |sends| ==> more[i] == sends[i];
    }
  }

  lemma EnqueueIsOk(k: Machine, m: Machine, t: TxnId)
    requires Enabled(m, Enqueue(t)) && AcceptingOk(k, m, m.txns[t])
    requires Next(m, Enqueue(t)).txns[t].Accepting?
    ensures AcceptingOk(k, Next(m, Enqueue(t)), Next(m, Enqueue(t)).txns[t])
  {
    var txn, n := m.txns[t], Next(m, Enqueue(t));
    var p, id := txn.progress, txn.progress.rows[NextRow(txn.progress)];
    assert id in Elements(p.rows) && id in m.subs && m.subs[id] == k.subs[id] && n.subs == m.subs;
    OneMoreSend(k, txn.event, txn.silicon, p.rows, p.pending, n.txns[t].progress.pending);
    assert n.txns[t] == Accepting(txn.event, txn.silicon,
                                  p.(pending := p.pending + [Copy(txn.event, m.subs[id].recipient, Some(id))]));
    assert Live(n, n.txns[t].progress.pending);
  }

  lemma PrefixOf(steps: seq<Step>, k: nat)
    requires steps != [] && k < |steps|
    ensures steps[..|steps| - 1][..k] == steps[..k]
  {
  }

  lemma SelectedSteps(m: Machine, s: Step, t: TxnId)
    requires Enabled(m, s)
    requires t in Next(m, s).txns && Next(m, s).txns[t].Accepting? && Next(m, s).txns[t].progress.Selected?
    ensures (s.Select? && s.txn == t && |s.rows| <= MAX_OBSERVERS_PER_SILICON
             && Next(m, s).txns[t].progress.at == m.clock)
         || (s == Enqueue(t) && Next(m, s).txns[t].progress.at == m.txns[t].progress.at)
         || (t in m.txns && Next(m, s).txns[t] == m.txns[t])
  {
  }

  lemma AcceptingStep(k: Machine, m: Machine, s: Step, t: TxnId)
    requires Enabled(m, s) && LockInv(m) && RowInv(m)
    requires t in m.txns && m.txns[t].Accepting? && m.txns[t].progress.Selected? && AcceptingOk(k, m, m.txns[t])
    requires t in Next(m, s).txns && Next(m, s).txns[t].Accepting? && Next(m, s).txns[t].progress.Selected?
    requires !s.Select? || s.txn != t
    ensures AcceptingOk(k, Next(m, s), Next(m, s).txns[t])
  {
    SelectedSteps(m, s, t);
    if s == Enqueue(t) {
      EnqueueIsOk(k, m, t);
    } else {
      assert SharedBy(m, t, m.txns[t].silicon);
      StepKeepsOnlyLost(k, m, s, t, m.txns[t].silicon);
      StepKeepsLive(k, m, s, t);
    }
  }

  lemma AcceptingStaysOk(steps: seq<Step>, m: Machine, t: TxnId)
    requires steps != [] && Exec(steps[..|steps| - 1]) == Some(m) && Enabled(m, steps[|steps| - 1])
    requires LockInv(m) && RowInv(m) && TraceInv(steps[..|steps| - 1], m)
    requires var n := Next(m, steps[|steps| - 1]);
             t in n.txns && n.txns[t].Accepting? && n.txns[t].progress.Selected?
    ensures var n := Next(m, steps[|steps| - 1]);
            var at := n.txns[t].progress.at;
            && at < |steps| && Exec(steps[..at]).Some? && TableInv(Exec(steps[..at]).value)
            && AcceptingOk(Exec(steps[..at]).value, n, n.txns[t])
  {
    var before, last := steps[..|steps| - 1], steps[|steps| - 1];
    var n := Next(m, last);
    var at := n.txns[t].progress.at;
    SelectedSteps(m, last, t);
    if last.Select? && last.txn == t {
      SelectIsOk(m, t, last.rows);
      assert steps[..at] == before;
    } else {
      PrefixOf(steps, at);
      AcceptingStep(Exec(before[..at]).value, m, last, t);
    }
  }

  lemma AcceptedSteps(m: Machine, s: Step, e: EventId)
    requires Enabled(m, s) && e in Next(m, s).accepted && (e in m.accepted ==> Next(m, s).accepted[e] != m.accepted[e])
    ensures s.Commit? && m.txns[s.txn].Accepting? && m.txns[s.txn].event == e
    ensures var t := m.txns[s.txn];
            && |t.progress.pending| == |t.progress.rows| + 1
            && Next(m, s).accepted[e] == Accepted(t.silicon, t.progress.pending, t.progress.at, m.clock)
  {
  }

  lemma CommitIsOk(k: Machine, m: Machine, t: Txn, a: Accepted)
    requires t.Accepting? && t.progress.Selected? && AcceptingOk(k, m, t) && TableInv(k)
    requires |t.progress.pending| == |t.progress.rows| + 1
    requires a.silicon == t.silicon && a.sends == t.progress.pending
    ensures AcceptedOk(k, m, t.event, a)
  {
    assert SendsOf(k, t.event, a.silicon, t.progress.rows, a.sends);
  }

  lemma AcceptedStaysOk(steps: seq<Step>, m: Machine, e: EventId)
    requires steps != [] && Exec(steps[..|steps| - 1]) == Some(m) && Enabled(m, steps[|steps| - 1])
    requires TraceInv(steps[..|steps| - 1], m) && e in Next(m, steps[|steps| - 1]).accepted
    ensures var a := Next(m, steps[|steps| - 1]).accepted[e];
            && a.selectedAt < a.committedAt < |steps|
            && Exec(steps[..a.selectedAt]).Some? && Exec(steps[..a.committedAt]).Some?
            && AcceptedOk(Exec(steps[..a.selectedAt]).value, Exec(steps[..a.committedAt]).value, e, a)
  {
    var before, last := steps[..|steps| - 1], steps[|steps| - 1];
    var a := Next(m, last).accepted[e];
    if e in m.accepted && a == m.accepted[e] {
      PrefixOf(steps, a.selectedAt);
      PrefixOf(steps, a.committedAt);
    } else {
      AcceptedSteps(m, last, e);
      var t := m.txns[last.txn];
      PrefixOf(steps, t.progress.at);
      assert steps[..m.clock] == before;
      CommitIsOk(Exec(before[..t.progress.at]).value, m, t, a);
    }
  }

  lemma {:induction false} RunKeepsInv(steps: seq<Step>)
    requires Exec(steps).Some?
    ensures LockInv(Exec(steps).value) && RowInv(Exec(steps).value) && TraceInv(steps, Exec(steps).value)
    decreases |steps|
  {
    if steps == [] {
      assert forall s :: RowsOf(Start, s) == {};
    } else {
      var before, last := steps[..|steps| - 1], steps[|steps| - 1];
      var m := Exec(before).value;
      RunKeepsInv(before);
      StepKeepsLocks(m, last);
      StepKeepsRows(m, last);
      var n := Next(m, last);
      forall t | t in n.txns && n.txns[t].Accepting? && n.txns[t].progress.Selected?
        ensures var at := n.txns[t].progress.at;
          at < |steps| && Exec(steps[..at]).Some? && TableInv(Exec(steps[..at]).value)
            && AcceptingOk(Exec(steps[..at]).value, n, n.txns[t])
      {
        AcceptingStaysOk(steps, m, t);
      }
      forall e | e in n.accepted
        ensures var a := n.accepted[e];
          a.selectedAt < a.committedAt < |steps|
            && Exec(steps[..a.selectedAt]).Some? && Exec(steps[..a.committedAt]).Some?
            && AcceptedOk(Exec(steps[..a.selectedAt]).value, Exec(steps[..a.committedAt]).value, e, a)
      {
        AcceptedStaysOk(steps, m, e);
      }
    }
  }

  // ---------------------------------------------------------------------------
  // The outbox.
  // ---------------------------------------------------------------------------

  predicate Owed(m: Machine, c: Copy) {
    c.event in m.accepted && c in m.accepted[c.event].sends && (c.sub.None? || c.sub.value in m.subs)
  }

  ghost predicate EventInv(m: Machine) {
    && (forall t :: t in m.txns && m.txns[t].Accepting? ==> m.txns[t].event !in m.accepted)
    && (forall t, u :: t in m.txns && u in m.txns && m.txns[t].Accepting? && m.txns[u].Accepting? && t != u ==>
          m.txns[t].event != m.txns[u].event)
  }

  ghost predicate BeingInserted(m: Machine, id: SubId) {
    exists u :: u in m.txns && Inserting(m.txns[u]) && m.txns[u].stage.id == id
  }

  /** Sent identifiers were generated before and are not about to be inserted. */
  ghost predicate Sent(m: Machine, event: EventId, sends: seq<Copy>) {
    forall i :: 0 <= i < |sends| ==>
      && sends[i].event == event
      && (sends[i].sub.Some? ==> sends[i].sub.value in m.ids && !BeingInserted(m, sends[i].sub.value))
  }

  ghost predicate HoldsOwed(m: Machine) {
    forall c :: c in m.outbox <==> Owed(m, c)
  }

  ghost predicate OutboxInv(m: Machine) {
    && EventInv(m)
    && (forall e :: e in m.accepted ==> Sent(m, e, m.accepted[e].sends))
    && HoldsOwed(m)
  }

  lemma EventSteps(m: Machine, s: Step, t: TxnId)
    requires Enabled(m, s) && t in Next(m, s).txns && Next(m, s).txns[t].Accepting?
    ensures (t in m.txns && m.txns[t].Accepting? && m.txns[t].event == Next(m, s).txns[t].event)
         || (s.BeginAccept? && s.txn == t && s.event == Next(m, s).txns[t].event)
  {
  }

  lemma AcceptedEvents(m: Machine, s: Step, e: EventId)
    requires Enabled(m, s) && e in Next(m, s).accepted && e !in m.accepted
    ensures s.Commit? && m.txns[s.txn].Accepting? && m.txns[s.txn].event == e && Next(m, s).txns[s.txn].Done?
  {
  }

  lemma StepKeepsEvents(m: Machine, s: Step)
    requires Enabled(m, s) && EventInv(m)
    ensures EventInv(Next(m, s))
  {
    var n := Next(m, s);
    forall t | t in n.txns && n.txns[t].Accepting? ensures n.txns[t].event !in n.accepted {
      EventSteps(m, s, t);
      if n.txns[t].event in n.accepted && n.txns[t].event !in m.accepted {
        AcceptedEvents(m, s, n.txns[t].event);
      }
    }
    forall t, u | t in n.txns && u in n.txns && n.txns[t].Accepting? && n.txns[u].Accepting? && t != u
      ensures n.txns[t].event != n.txns[u].event
    {
      EventSteps(m, s, t);
      EventSteps(m, s, u);
    }
  }

  lemma StepKeepsSent(m: Machine, s: Step, event: EventId, sends: seq<Copy>)
    requires Enabled(m, s) && RowInv(m) && Sent(m, event, sends)
    ensures Sent(Next(m, s), event, sends)
  {
    var n := Next(m, s);
    IdsOnlyGrow(m, s);
    forall i | 0 <= i < |sends| && sends[i].sub.Some? ensures !BeingInserted(n, sends[i].sub.value) {
      forall u | u in n.txns && Inserting(n.txns[u]) ensures n.txns[u].stage.id != sends[i].sub.value {
        InsertingSteps(m, s, u);
      }
    }
  }

  lemma PendingIsSent(k: Machine, m: Machine, t: Txn)
    requires t.Accepting? && t.progress.Selected? && AcceptingOk(k, m, t)
    ensures Sent(m, t.event, t.progress.pending)
  {
  }

  lemma QuietKeepsOwed(m: Machine, n: Machine)
    requires HoldsOwed(m) && n.outbox == m.outbox && n.accepted == m.accepted && n.subs == m.subs
    ensures HoldsOwed(n)
  {
    forall c ensures Owed(n, c) <==> Owed(m, c) {
    }
  }

  /** Removing subscriptions removes exactly the sends that are owed no longer. */
  lemma RemovalKeepsOwed(m: Machine, n: Machine, removed: set<SubId>)
    requires HoldsOwed(m) && n.outbox == Remove(m, removed).outbox && n.subs == m.subs - removed
    requires n.accepted == m.accepted
    ensures HoldsOwed(n)
  {
    forall c ensures c in n.outbox <==> Owed(n, c) {
      assert c in m.outbox <==> Owed(m, c);
    }
  }

  predicate Removes(m: Machine, s: Step) {
    s.AccountsChange? || (s.Commit? && s.txn in m.txns && m.txns[s.txn].Unsubscribing?)
  }

  lemma RemovalSteps(m: Machine, s: Step)
    requires Enabled(m, s) && Removes(m, s) && HoldsOwed(m)
    ensures HoldsOwed(Next(m, s))
  {
    if s.AccountsChange? {
      RemovalKeepsOwed(m, Next(m, s), s.removed);
    } else {
      RemovalKeepsOwed(m, Next(m, s), set id | id in m.subs && m.subs[id] == m.txns[s.txn].sub);
    }
  }

  lemma QuietSteps(m: Machine, s: Step)
    requires Enabled(m, s) && !Removes(m, s)
    requires s.Commit? ==> !m.txns[s.txn].Subscribing? && !m.txns[s.txn].Accepting?
    ensures var n := Next(m, s); n.outbox == m.outbox && n.accepted == m.accepted && n.subs == m.subs
  {
  }

  lemma StepKeepsOwed(m: Machine, s: Step)
    requires Enabled(m, s) && OutboxInv(m)
    requires s.Commit? && m.txns[s.txn].Accepting? ==>
               Sent(m, m.txns[s.txn].event, m.txns[s.txn].progress.pending) && Live(m, m.txns[s.txn].progress.pending)
    ensures HoldsOwed(Next(m, s))
  {
    if Removes(m, s) {
      RemovalSteps(m, s);
    } else if s.Commit? && m.txns[s.txn].Subscribing? {
      CommitSubscribeKeepsOutbox(m, s.txn);
    } else if s.Commit? && m.txns[s.txn].Accepting? {
      CommitAcceptKeepsOutbox(m, s.txn);
    } else {
      QuietSteps(m, s);
      QuietKeepsOwed(m, Next(m, s));
    }
  }

  lemma AcceptedSends(m: Machine, s: Step, e: EventId)
    requires Enabled(m, s) && e in Next(m, s).accepted
    ensures || (e in m.accepted && Next(m, s).accepted[e] == m.accepted[e])
            || (s.Commit? && m.txns[s.txn].Accepting? && m.txns[s.txn].event == e
                && Next(m, s).accepted[e].sends == m.txns[s.txn].progress.pending)
  {
  }

  lemma StepKeepsOutbox(m: Machine, s: Step)
    requires Enabled(m, s) && RowInv(m) && OutboxInv(m)
    requires s.Commit? && m.txns[s.txn].Accepting? ==>
               Sent(m, m.txns[s.txn].event, m.txns[s.txn].progress.pending) && Live(m, m.txns[s.txn].progress.pending)
    ensures OutboxInv(Next(m, s))
  {
    var n := Next(m, s);
    StepKeepsEvents(m, s);
    StepKeepsOwed(m, s);
    forall e | e in n.accepted ensures Sent(n, e, n.accepted[e].sends) {
      AcceptedSends(m, s, e);
      StepKeepsSent(m, s, e, n.accepted[e].sends);
    }
  }

  lemma CommitSubscribeKeepsOutbox(m: Machine, t: TxnId)
    requires Enabled(m, Commit(t)) && m.txns[t].Subscribing? && OutboxInv(m)
    ensures HoldsOwed(Next(m, Commit(t)))
  {
    var n := Next(m, Commit(t));
    forall c ensures Owed(n, c) <==> Owed(m, c) {
      if c.event in m.accepted && c in m.accepted[c.event].sends {
        assert Sent(m, c.event, m.accepted[c.event].sends) && Inserting(m.txns[t]);
      }
    }
  }

  lemma CommitAcceptKeepsOutbox(m: Machine, t: TxnId)
    requires Enabled(m, Commit(t)) && m.txns[t].Accepting? && OutboxInv(m)
    requires Sent(m, m.txns[t].event, m.txns[t].progress.pending) && Live(m, m.txns[t].progress.pending)
    ensures HoldsOwed(Next(m, Commit(t)))
  {
    var n := Next(m, Commit(t));
    var event, pending := m.txns[t].event, m.txns[t].progress.pending;
    assert n.accepted[event].sends == pending && n.subs == m.subs;
    forall c ensures c in n.outbox <==> Owed(n, c) {
      if c.event != event {
        assert Owed(n, c) <==> Owed(m, c);
      }
    }
  }

  lemma {:induction false} RunKeepsOutbox(steps: seq<Step>)
    requires Exec(steps).Some?
    ensures OutboxInv(Exec(steps).value)
    decreases |steps|
  {
    if steps != [] {
      var before, last := steps[..|steps| - 1], steps[|steps| - 1];
      var m := Exec(before).value;
      RunKeepsInv(before);
      RunKeepsOutbox(before);
      if last.Commit? && m.txns[last.txn].Accepting? {
        PendingIsSent(Exec(before[..m.txns[last.txn].progress.at]).value, m, m.txns[last.txn]);
      }
      StepKeepsOutbox(m, last);
    }
  }

  // ---------------------------------------------------------------------------
  // Theorems about every schedule.
  // ---------------------------------------------------------------------------

  /** A Silicon never has more than one hundred observers. */
  lemma AtMostOneHundredObservers(steps: seq<Step>, s: Silicon)
    requires Exec(steps).Some?
    ensures |RowsOf(Exec(steps).value, s)| <= 100
  {
    RunKeepsInv(steps);
  }

  /** A Carbon has at most one subscription to a Silicon, though no statement checks and inserts at once. */
  lemma OneSubscriptionPerCarbon(steps: seq<Step>, i: SubId, j: SubId)
    requires Exec(steps).Some? && i in Exec(steps).value.subs && j in Exec(steps).value.subs
    requires Exec(steps).value.subs[i] == Exec(steps).value.subs[j]
    ensures i == j
  {
    RunKeepsInv(steps);
  }

  lemma {:induction false} AscendingHasNoRepeats(rows: seq<SubId>)
    requires Ascending(rows)
    ensures |Elements(rows)| == |rows|
    decreases |rows|
  {
    if rows != [] {
      var init, last := rows[..|rows| - 1], rows[|rows| - 1];
      AscendingHasNoRepeats(init);
      assert last !in init;
      assert Elements(rows) == Elements(init) + {last};
    }
  }

  /** The acceptance's "observer limit exceeded" failure never happens. */
  lemma ObserverLimitIsNeverExceeded(steps: seq<Step>, t: TxnId, rows: seq<SubId>)
    requires Exec(steps).Some? && Enabled(Exec(steps).value, Select(t, rows))
    ensures |rows| <= MAX_OBSERVERS_PER_SILICON
    ensures !Next(Exec(steps).value, Select(t, rows)).txns[t].Done?
  {
    RunKeepsInv(steps);
    var m := Exec(steps).value;
    AscendingHasNoRepeats(rows);
    SubsetIsSmaller(Eligible(m, m.txns[t].silicon), RowsOf(m, m.txns[t].silicon));
  }

  /**
   * Enqueuing a copy fails exactly when its subscription was revoked since the acceptance selected
   * it; two copies of one event never meet at one recipient.
   */
  lemma EnqueueFailsOnlyForARevokedObserver(steps: seq<Step>, t: TxnId)
    requires Exec(steps).Some? && Enabled(Exec(steps).value, Enqueue(t))
    ensures var m := Exec(steps).value;
            var p := m.txns[t].progress;
            CanEnqueue(m, p, p.rows[NextRow(p)]) <==> p.rows[NextRow(p)] in m.subs
  {
    RunKeepsInv(steps);
    var m := Exec(steps).value;
    var p := m.txns[t].progress;
    var k := Exec(steps[..p.at]).value;
    var id := p.rows[NextRow(p)];
    assert id in Elements(p.rows) && AcceptingOk(k, m, m.txns[t]);
    if id in m.subs {
      forall i | 0 <= i < |p.pending|
        ensures p.pending[i].recipient != m.subs[id].recipient
      {
        if i > 0 {
          assert p.rows[i - 1] in Elements(p.rows) && p.rows[i - 1] != id;
          assert k.subs[id] != k.subs[p.rows[i - 1]];
        }
      }
    }
  }

  /**
   * The sends owed for an event of `s` in state `k`: one to the Silicon, exactly one to every
   * subscription whose holder has access, none to anybody else, and never two to one recipient.
   */
  ghost predicate ExactlyOwed(k: Machine, event: EventId, s: Silicon, sends: seq<Copy>) {
    && sends != [] && sends[0] == Copy(event, s, None)
    && (forall i :: 1 <= i < |sends| ==>
          && sends[i].sub.Some? && sends[i].sub.value in Eligible(k, s)
          && sends[i] == Copy(event, k.subs[sends[i].sub.value].recipient, sends[i].sub))
    && (forall id :: id in Eligible(k, s) ==> exists i :: 1 <= i < |sends| && sends[i].sub == Some(id))
    && (forall i, j :: 0 <= i < j < |sends| ==> sends[i].recipient != sends[j].recipient)
  }

  lemma SendsAreExactlyOwed(k: Machine, event: EventId, s: Silicon, rows: seq<SubId>, sends: seq<Copy>)
    requires TableInv(k) && SendsOf(k, event, s, rows, sends) && |sends| == |rows| + 1
    ensures ExactlyOwed(k, event, s, sends)
  {
    forall i | 1 <= i < |sends|
      ensures sends[i].sub.value in Eligible(k, s)
    {
      assert rows[i - 1] in Elements(rows);
    }
    forall id | id in Eligible(k, s)
      ensures exists i :: 1 <= i < |sends| && sends[i].sub == Some(id)
    {
      assert id in Elements(rows);
      var i :| 0 <= i < |rows| && rows[i] == id;
      assert sends[i + 1].sub == Some(id);
    }
    forall i, j | 0 <= i < j < |sends|
      ensures sends[i].recipient != sends[j].recipient
    {
      assert sends[j].sub.value in Eligible(k, s);
      if i > 0 {
        assert sends[i].sub.value in Eligible(k, s) && rows[i - 1] < rows[j - 1];
      }
    }
  }

  /** `n` has no subscription of `s` that `k` had not, and every sent one still stands in `n`. */
  ghost predicate NoneBeganOrEnded(k: Machine, n: Machine, s: Silicon, sends: seq<Copy>) {
    RowsOf(n, s) <= RowsOf(k, s) && Live(n, sends)
  }

  lemma AcceptedIsExact(k: Machine, n: Machine, e: EventId, a: Accepted)
    requires AcceptedOk(k, n, e, a)
    ensures ExactlyOwed(k, e, a.silicon, a.sends) && NoneBeganOrEnded(k, n, a.silicon, a.sends)
  {
    var rows :| SendsOf(k, e, a.silicon, rows, a.sends) && |a.sends| == |rows| + 1;
    SendsAreExactlyOwed(k, e, a.silicon, rows, a.sends);
  }

  /**
   * Each accepted event took effect at its selection: it enqueued exactly the sends owed in the
   * state it selected in. No subscription of the Silicon began between selection and commit, and
   * none that was sent a copy ended.
   */
  lemma EveryObserverGetsExactlyOneCopy(steps: seq<Step>, e: EventId)
    requires Exec(steps).Some? && e in Exec(steps).value.accepted
    ensures var a := Exec(steps).value.accepted[e];
            && a.selectedAt < a.committedAt < |steps|
            && Exec(steps[..a.selectedAt]).Some? && Exec(steps[..a.committedAt]).Some?
            && ExactlyOwed(Exec(steps[..a.selectedAt]).value, e, a.silicon, a.sends)
            && NoneBeganOrEnded(Exec(steps[..a.selectedAt]).value, Exec(steps[..a.committedAt]).value,
                                a.silicon, a.sends)
  {
    var m := Exec(steps).value;
    var a := m.accepted[e];
    assert TraceInv(steps, m) by {
      RunKeepsInv(steps);
    }
    AcceptedIsExact(Exec(steps[..a.selectedAt]).value, Exec(steps[..a.committedAt]).value, e, a);
  }

  /** The outbox holds exactly the sends of accepted events whose subscription still stands. */
  lemma OutboxHoldsExactlyTheLiveSends(steps: seq<Step>, c: Copy)
    requires Exec(steps).Some?
    ensures var m := Exec(steps).value;
            c in m.outbox <==> c.event in m.accepted && c in m.accepted[c.event].sends
                               && (c.sub.Some? ==> c.sub.value in m.subs)
  {
    RunKeepsOutbox(steps);
  }
}
