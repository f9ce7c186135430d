/**
 * The namespace of endpoint keys: allocating keys never used before, retiring them, and what concurrent
 * transactions can do to the rule that a retired key never routes again.
 */
module EndpointKeys {
  import opened Common

  type HookId = nat

  const ENDPOINT_GENERATION_ATTEMPTS: nat := 16

  /** Every stored hook's key (soft-deleted hooks included), and every key ever rotated away. */
  datatype Store = Store(keys: map<HookId, string>, deleted: set<HookId>, retired: set<string>)

  datatype StoreError = EndpointKeyConflict | NotFound | StateConflict

  datatype ApplicationError = Refused(error: StoreError) | EntropyFailed | CollisionBudgetExhausted

  /** A generated hook id and key, unless randomness failed. */
  type Candidate = Option<(HookId, string)>

  predicate Used(s: Store, key: string) {
    key in s.retired || key in s.keys.Values
  }

  // ---------------------------------------------------------------------------
  // One store transaction at a time.
  // ---------------------------------------------------------------------------

  function Created(s: Store, c: (HookId, string)): Result<Store, StoreError> {
    if Used(s, c.1) then Err(EndpointKeyConflict) else Ok(s.(keys := s.keys[c.0 := c.1]))
  }

  function Rotated(s: Store, hook: HookId, replacement: string): Result<Store, StoreError> {
    if hook !in s.keys then Err(NotFound)
    else if Used(s, replacement) then Err(EndpointKeyConflict)
    else if hook in s.deleted then Err(StateConflict)
    else Ok(s.(keys := s.keys[hook := replacement], retired := s.retired + {s.keys[hook]}))
  }

  /** The loops over generated candidates: only a key conflict leads to another attempt. */
  function CreateLoop(s: Store, candidates: seq<Candidate>): Result<Store, ApplicationError>
    decreases |candidates|
  {
    if candidates == [] then Err(CollisionBudgetExhausted)
    else if candidates[0].None? then Err(EntropyFailed)
    else
      var r := Created(s, candidates[0].value);
      if r.Ok? then Ok(r.value)
      else if r.error == EndpointKeyConflict then CreateLoop(s, candidates[1..])
      else Err(Refused(r.error))
  }

  function RotateLoop(s: Store, hook: HookId, candidates: seq<Candidate>): Result<Store, ApplicationError>
    decreases |candidates|
  {
    if candidates == [] then Err(CollisionBudgetExhausted)
    else if candidates[0].None? then Err(EntropyFailed)
    else
      var r := Rotated(s, hook, candidates[0].value.1);
      if r.Ok? then Ok(r.value)
      else if r.error == EndpointKeyConflict then RotateLoop(s, hook, candidates[1..])
      else Err(Refused(r.error))
  }

  function StoreOf(s: Store, r: Result<Store, ApplicationError>): Store {
    if r.Ok? then r.value else s
  }

  class Namespace {
    var keys: map<HookId, string>
    var deleted: set<HookId>
    var retired: set<string>

    ghost function View(): Store
      reads this
    {
      Store(keys, deleted, retired)
    }

    method InsertHook(hook: HookId, key: string) returns (error: Option<StoreError>)
      modifies this`keys
      ensures error.None? ==> Created(old(View()), (hook, key)) == Ok(View())
      ensures error.Some? ==> Created(old(View()), (hook, key)) == Err(error.value) && View() == old(View())
    {
      if key in retired || key in keys.Values {
        return Some(EndpointKeyConflict);
      }
      keys := keys[hook := key];
      return None;
    }

    method ReplaceKey(hook: HookId, replacement: string) returns (error: Option<StoreError>)
      modifies this`keys, this`retired
      ensures error.None? ==> Rotated(old(View()), hook, replacement) == Ok(View())
      ensures error.Some? ==> Rotated(old(View()), hook, replacement) == Err(error.value) && View() == old(View())
    {
      if hook !in keys {
        return Some(NotFound);
      }
      if replacement in retired || replacement in keys.Values {
        return Some(EndpointKeyConflict);
      }
      if hook in deleted {
        return Some(StateConflict);
      }
      retired := retired + {keys[hook]};
      keys := keys[hook := replacement];
      return None;
    }

    method CreateHook(candidates: seq<Candidate>) returns (error: Option<ApplicationError>)
      requires |candidates| == ENDPOINT_GENERATION_ATTEMPTS
      modifies this`keys
      ensures View() == StoreOf(old(View()), CreateLoop(old(View()), candidates))
      ensures error.Some? <==> CreateLoop(old(View()), candidates).Err?
      ensures error.Some? ==> CreateLoop(old(View()), candidates).error == error.value
    {
      for attempt := 0 to ENDPOINT_GENERATION_ATTEMPTS
        invariant View() == old(View())
        invariant CreateLoop(View(), candidates) == CreateLoop(View(), candidates[attempt..])
      {
        var c := candidates[attempt];
        assert candidates[attempt..][0] == c && candidates[attempt..][1..] == candidates[attempt + 1..];
        if c.None? {
          return Some(EntropyFailed);
        }
        var refused := InsertHook(c.value.0, c.value.1);
        if refused.None? {
          return None;
        }
        if refused.value != EndpointKeyConflict {
          return Some(Refused(refused.value));
        }
      }
      return Some(CollisionBudgetExhausted);
    }

    method RotateHookEndpoint(hook: HookId, candidates: seq<Candidate>) returns (error: Option<ApplicationError>)
      requires |candidates| == ENDPOINT_GENERATION_ATTEMPTS
      modifies this`keys, this`retired
      ensures View() == StoreOf(old(View()), RotateLoop(old(View()), hook, candidates))
      ensures error.Some? <==> RotateLoop(old(View()), hook, candidates).Err?
      ensures error.Some? ==> RotateLoop(old(View()), hook, candidates).error == error.value
    {
      for attempt := 0 to ENDPOINT_GENERATION_ATTEMPTS
        invariant View() == old(View())
        invariant RotateLoop(View(), hook, candidates) == RotateLoop(View(), hook, candidates[attempt..])
      {
        var c := candidates[attempt];
        assert candidates[attempt..][0] == c && candidates[attempt..][1..] == candidates[attempt + 1..];
        if c.None? {
          return Some(EntropyFailed);
        }
        var refused := ReplaceKey(hook, c.value.1);
        if refused.None? {
          return None;
        }
        if refused.value != EndpointKeyConflict {
          return Some(Refused(refused.value));
        }
      }
      return Some(CollisionBudgetExhausted);
    }
  }

  /** The first `n` candidates were generated, and every one of them was used before. */
  ghost predicate AllCollide(s: Store, candidates: seq<Candidate>, n: nat) {
    n <= |candidates| && forall i :: 0 <= i < n ==> candidates[i].Some? && Used(s, candidates[i].value.1)
  }

  ghost predicate FirstUnused(s: Store, candidates: seq<Candidate>, n: nat) {
    n < |candidates| && AllCollide(s, candidates, n) && candidates[n].Some? && !Used(s, candidates[n].value.1)
  }

  lemma {:induction false} CollisionsArePassedOver(s: Store, candidates: seq<Candidate>, n: nat)
    requires AllCollide(s, candidates, n)
    ensures CreateLoop(s, candidates) == CreateLoop(s, candidates[n..])
    ensures forall hook :: hook in s.keys ==> RotateLoop(s, hook, candidates) == RotateLoop(s, hook, candidates[n..])
    decreases n
  {
    if n == 0 {
      assert candidates[0..] == candidates;
    } else {
      assert candidates[0].Some? && Used(s, candidates[0].value.1);
      forall i | 0 <= i < n - 1 ensures candidates[1..][i].Some? && Used(s, candidates[1..][i].value.1) {
        assert candidates[i + 1].Some?;
      }
      CollisionsArePassedOver(s, candidates[1..], n - 1);
      assert candidates[1..][n - 1..] == candidates[n..];
    }
  }

  /** A creation commits the first candidate never used before; when every candidate collides, nothing changes. */
  lemma CreationTakesTheFirstUnusedKey(s: Store, candidates: seq<Candidate>, n: nat)
    ensures FirstUnused(s, candidates, n) ==>
              CreateLoop(s, candidates) == Ok(s.(keys := s.keys[candidates[n].value.0 := candidates[n].value.1]))
    ensures AllCollide(s, candidates, |candidates|) ==> CreateLoop(s, candidates) == Err(CollisionBudgetExhausted)
    ensures AllCollide(s, candidates, n) && n < |candidates| && candidates[n].None? ==>
              CreateLoop(s, candidates) == Err(EntropyFailed)
  {
    if AllCollide(s, candidates, n) { CollisionsArePassedOver(s, candidates, n); }
    if AllCollide(s, candidates, |candidates|) { CollisionsArePassedOver(s, candidates, |candidates|); }
  }

  /** A rotation retires exactly the old key of a hook that is not deleted. */
  lemma RotationRetiresTheOldKey(s: Store, hook: HookId, candidates: seq<Candidate>, n: nat)
    requires hook in s.keys
    ensures FirstUnused(s, candidates, n) && hook in s.deleted ==>
              RotateLoop(s, hook, candidates) == Err(Refused(StateConflict))
    ensures FirstUnused(s, candidates, n) && hook !in s.deleted ==>
              RotateLoop(s, hook, candidates) ==
              Ok(s.(keys := s.keys[hook := candidates[n].value.1], retired := s.retired + {s.keys[hook]}))
    ensures AllCollide(s, candidates, |candidates|) ==> RotateLoop(s, hook, candidates) == Err(CollisionBudgetExhausted)
  {
    if AllCollide(s, candidates, n) { CollisionsArePassedOver(s, candidates, n); }
    if AllCollide(s, candidates, |candidates|) { CollisionsArePassedOver(s, candidates, |candidates|); }
  }

  // ---------------------------------------------------------------------------
  // Runs of whole operations, one after the other.
  // ---------------------------------------------------------------------------

  datatype Operation =
    | Create(candidates: seq<Candidate>)
    | Rotate(hook: HookId, candidates: seq<Candidate>)
    | Delete(hook: HookId)
    | Restore(hook: HookId)
    | SetEnabled(hook: HookId, enabled: bool)
    | Purge(hook: HookId)

  /** Hook ids are never generated twice. */
  predicate FreshIds(s: Store, o: Operation) {
    o.Create? ==> forall i :: 0 <= i < |o.candidates| && o.candidates[i].Some? ==> o.candidates[i].value.0 !in s.keys
  }

  function After(s: Store, o: Operation): Store {
    match o
    case Create(candidates) => StoreOf(s, CreateLoop(s, candidates))
    case Rotate(hook, candidates) => StoreOf(s, RotateLoop(s, hook, candidates))
    case Delete(hook) => if hook in s.keys then s.(deleted := s.deleted + {hook}) else s
    case Restore(hook) => s.(deleted := s.deleted - {hook})
    case SetEnabled(_, _) => s
    case Purge(hook) => if hook in s.deleted then s.(keys := s.keys - {hook}, deleted := s.deleted - {hook}) else s
  }

  const Empty := Store(map[], {}, {})

  function Run(operations: seq<Operation>): Store
    decreases |operations|
  {
    if operations == [] then Empty else After(Run(operations[..|operations| - 1]), operations[|operations| - 1])
  }

  ghost predicate RunHasFreshIds(operations: seq<Operation>) {
    forall k :: 0 <= k < |operations| ==> FreshIds(Run(operations[..k]), operations[k])
  }

  /** Current keys are distinct, and none of them is retired. */
  ghost predicate KeysApart(s: Store) {
    && (forall a, b :: a in s.keys && b in s.keys && s.keys[a] == s.keys[b] ==> a == b)
    && (forall a :: a in s.keys ==> s.keys[a] !in s.retired)
  }

  lemma {:induction false} CreateLoopKeeps(s: Store, candidates: seq<Candidate>)
    requires KeysApart(s) && FreshIds(s, Create(candidates))
    ensures KeysApart(StoreOf(s, CreateLoop(s, candidates)))
    ensures StoreOf(s, CreateLoop(s, candidates)).retired == s.retired
    decreases |candidates|
  {
    if candidates != [] && candidates[0].Some? {
      forall i | 0 <= i < |candidates[1..]| && candidates[1..][i].Some? ensures candidates[1..][i].value.0 !in s.keys {
        assert candidates[1..][i] == candidates[i + 1];
      }
      CreateLoopKeeps(s, candidates[1..]);
      if !Used(s, candidates[0].value.1) {
        assert forall a :: a in s.keys ==> s.keys[a] in s.keys.Values;
      }
    }
  }

  lemma {:induction false} RotateLoopKeeps(s: Store, hook: HookId, candidates: seq<Candidate>)
    requires KeysApart(s)
    ensures KeysApart(StoreOf(s, RotateLoop(s, hook, candidates)))
    ensures s.retired <= StoreOf(s, RotateLoop(s, hook, candidates)).retired
    decreases |candidates|
  {
    if candidates != [] && candidates[0].Some? {
      RotateLoopKeeps(s, hook, candidates[1..]);
      if !Used(s, candidates[0].value.1) {
        assert forall a :: a in s.keys ==> s.keys[a] in s.keys.Values;
      }
    }
  }

  lemma OperationKeepsKeysApart(s: Store, o: Operation)
    requires KeysApart(s) && FreshIds(s, o)
    ensures KeysApart(After(s, o)) && s.retired <= After(s, o).retired
  {
    match o
    case Create(candidates) => CreateLoopKeeps(s, candidates);
    case Rotate(hook, candidates) => RotateLoopKeeps(s, hook, candidates);
    case _ =>
  }

  lemma {:induction false} KeysStayApart(operations: seq<Operation>)
    requires RunHasFreshIds(operations)
    ensures KeysApart(Run(operations))
    decreases |operations|
  {
    if operations != [] {
      var before := operations[..|operations| - 1];
      forall k | 0 <= k < |before| ensures FreshIds(Run(before[..k]), before[k]) {
        assert before[..k] == operations[..k];
      }
      KeysStayApart(before);
      assert before == operations[..|operations| - 1];
      OperationKeepsKeysApart(Run(before), operations[|operations| - 1]);
    }
  }

  /** A key retired at any point of a run belongs to no hook from then on. */
  lemma {:induction false} RetiredKeysNeverReturn(operations: seq<Operation>, k: nat, key: string)
    requires RunHasFreshIds(operations) && k <= |operations| && key in Run(operations[..k]).retired
    ensures key in Run(operations).retired && key !in Run(operations).keys.Values
    decreases |operations|
  {
    KeysStayApart(operations);
    if k == |operations| {
      assert operations[..k] == operations;
    } else {
      var before := operations[..|operations| - 1];
      forall i | 0 <= i < |before| ensures FreshIds(Run(before[..i]), before[i]) {
        assert before[..i] == operations[..i];
      }
      assert before[..k] == operations[..k];
      RetiredKeysNeverReturn(before, k, key);
      KeysStayApart(before);
      assert FreshIds(Run(operations[..|before|]), operations[|before|]);
      OperationKeepsKeysApart(Run(before), operations[|operations| - 1]);
    }
  }

  /** The operation drew the key from the random source. */
  predicate Draws(o: Operation, key: string) {
    (o.Create? || o.Rotate?) && exists c :: c in o.candidates && c.Some? && c.value.1 == key
  }

  lemma {:induction false} LoopsUseDrawnKeys(s: Store, hook: HookId, candidates: seq<Candidate>, key: string)
    requires !Used(s, key) && forall c :: c in candidates && c.Some? ==> c.value.1 != key
    ensures !Used(StoreOf(s, CreateLoop(s, candidates)), key)
    ensures !Used(StoreOf(s, RotateLoop(s, hook, candidates)), key)
    decreases |candidates|
  {
    assert forall a :: a in s.keys ==> s.keys[a] in s.keys.Values;
    if candidates != [] && candidates[0].Some? {
      assert candidates[0] in candidates;
      assert forall c :: c in candidates[1..] ==> c in candidates;
      LoopsUseDrawnKeys(s, hook, candidates[1..], key);
    }
  }

  lemma OperationUsesDrawnKeys(s: Store, o: Operation, key: string)
    requires !Used(s, key) && !Draws(o, key)
    ensures !Used(After(s, o), key)
  {
    assert forall a :: a in s.keys ==> s.keys[a] in s.keys.Values;
    match o
    case Create(candidates) => LoopsUseDrawnKeys(s, 0, candidates, key);
    case Rotate(hook, candidates) => LoopsUseDrawnKeys(s, hook, candidates, key);
    case _ =>
  }

  /** An unused key comes into use only when an operation draws it. */
  lemma {:induction false} KeysComeIntoUseWhenDrawn(operations: seq<Operation>, k: nat, key: string)
    requires k <= |operations| && !Used(Run(operations[..k]), key)
    requires forall i :: k <= i < |operations| ==> !Draws(operations[i], key)
    ensures !Used(Run(operations), key)
    decreases |operations|
  {
    if k == |operations| {
      assert operations[..k] == operations;
    } else {
      var before := operations[..|operations| - 1];
      assert before[..k] == operations[..k];
      KeysComeIntoUseWhenDrawn(before, k, key);
      OperationUsesDrawnKeys(Run(before), operations[|operations| - 1], key);
    }
  }

  /**
   * The last key of a hook purged at step `k` was never retired: from then on it routes nowhere, and it may be
   * drawn again.
   */
  lemma PurgedKeysAreFreeUntilDrawn(operations: seq<Operation>, k: nat)
    requires RunHasFreshIds(operations) && k < |operations| && operations[k].Purge?
    requires var s, hook := Run(operations[..k]), operations[k].hook; hook in s.keys && hook in s.deleted
    ensures var key := Run(operations[..k]).keys[operations[k].hook];
            && !Used(Run(operations[..k + 1]), key)
            && ((forall i :: k < i < |operations| ==> !Draws(operations[i], key)) ==> !Used(Run(operations), key))
  {
    var s, hook := Run(operations[..k]), operations[k].hook;
    FreshPrefix(operations, k);
    KeysStayApart(operations[..k]);
    assert operations[..k + 1][..k] == operations[..k];
    PurgeFreesTheKey(s, hook);
    if forall i :: k < i < |operations| ==> !Draws(operations[i], s.keys[hook]) {
      KeysComeIntoUseWhenDrawn(operations, k + 1, s.keys[hook]);
    }
  }

  lemma FreshPrefix(operations: seq<Operation>, k: nat)
    requires RunHasFreshIds(operations) && k <= |operations|
    ensures RunHasFreshIds(operations[..k])
  {
    forall i | 0 <= i < k ensures FreshIds(Run(operations[..k][..i]), operations[..k][i]) {
      assert operations[..k][..i] == operations[..i];
    }
  }

  lemma PurgeFreesTheKey(s: Store, hook: HookId)
    requires KeysApart(s) && hook in s.keys && hook in s.deleted
    ensures !Used(After(s, Purge(hook)), s.keys[hook])
  {
  }

  // ---------------------------------------------------------------------------
  // Transactions side by side: each checks the key, writes it later, and commits later still.
  // ---------------------------------------------------------------------------

  type TxId = nat

  /**
   * A transaction that found its key unused. A rotation holds the row lock of its hook; a creation, of a new
   * hook, holds the lock of the Silicon it is for.
   */
  datatype Tx = Tx(hook: HookId, key: string, rotates: bool, silicon: string, written: bool)

  datatype Machine = Machine(store: Store, open: map<TxId, Tx>)

  datatype Step =
    | Check(tx: TxId, hook: HookId, key: string, rotates: bool, silicon: string)
    | Write(tx: TxId)
    | Commit(tx: TxId)
    | Abort(tx: TxId)
    | DeleteHook(hook: HookId)
    | RestoreHook(hook: HookId)
    | PurgeHook(hook: HookId)

  predicate RowLocked(m: Machine, hook: HookId) {
    exists u :: u in m.open && m.open[u].rotates && m.open[u].hook == hook
  }

  predicate SiliconLocked(m: Machine, silicon: string) {
    exists u :: u in m.open && !m.open[u].rotates && m.open[u].silicon == silicon
  }

  /** The unique index makes a write wait for one that has entered the same key, or is about to free it. */
  predicate WaitsFor(m: Machine, tx: Tx, other: Tx) {
    other.written
    && (other.key == tx.key || (other.rotates && other.hook in m.store.keys && m.store.keys[other.hook] == tx.key))
  }

  predicate Enabled(m: Machine, s: Step) {
    match s
    case Check(t, hook, key, rotates, silicon) =>
      && t !in m.open && !Used(m.store, key)
      && (if rotates then hook in m.store.keys && hook !in m.store.deleted && !RowLocked(m, hook)
          else !SiliconLocked(m, silicon) && hook !in m.store.keys
               && forall u :: u in m.open ==> m.open[u].hook != hook)
    case Write(t) =>
      t in m.open && !m.open[t].written && forall u :: u in m.open && u != t ==> !WaitsFor(m, m.open[t], m.open[u])
    case Commit(t) => t in m.open && m.open[t].written
    case Abort(t) => t in m.open
    case DeleteHook(hook) => hook in m.store.keys && !RowLocked(m, hook)
    case RestoreHook(hook) => hook in m.store.deleted && !RowLocked(m, hook)
    case PurgeHook(hook) => hook in m.store.deleted && !RowLocked(m, hook)
  }

  /** What the write finds committed under the unique indexes of current and of retired keys. */
  predicate Violates(s: Store, tx: Tx) {
    tx.key in s.keys.Values || (tx.rotates && tx.hook in s.keys && s.keys[tx.hook] in s.retired)
  }

  function Written(s: Store, tx: Tx): Store {
    var retired := s.retired + if tx.rotates && tx.hook in s.keys then {s.keys[tx.hook]} else {};
    s.(keys := s.keys[tx.hook := tx.key], retired := retired)
  }

  function Next(m: Machine, s: Step): Machine
    requires Enabled(m, s)
  {
    match s
    case Check(t, hook, key, rotates, silicon) => m.(open := m.open[t := Tx(hook, key, rotates, silicon, false)])
    case Write(t) =>
      if Violates(m.store, m.open[t]) then m.(open := m.open - {t})
      else m.(open := m.open[t := m.open[t].(written := true)])
    case Commit(t) => Machine(Written(m.store, m.open[t]), m.open - {t})
    case Abort(t) => m.(open := m.open - {t})
    case DeleteHook(hook) => m.(store := After(m.store, Delete(hook)))
    case RestoreHook(hook) => m.(store := After(m.store, Restore(hook)))
    case PurgeHook(hook) => m.(store := After(m.store, Purge(hook)))
  }

  function Exec(steps: seq<Step>): Option<Machine>
    decreases |steps|
  {
    if steps == [] then Some(Machine(Empty, map[])) else
    var before := Exec(steps[..|steps| - 1]);
    var last := steps[|steps| - 1];
    if before.Some? && Enabled(before.value, last) then Some(Next(before.value, last)) else None
  }

  ghost predicate LiveKeysApart(s: Store) {
    forall a, b :: a in s.keys && b in s.keys && s.keys[a] == s.keys[b] ==> a == b
  }

  predicate Free(s: Store, key: string) {
    forall a :: a in s.keys ==> s.keys[a] != key
  }

  ghost predicate TxOk(m: Machine, t: TxId)
    requires t in m.open
  {
    && (m.open[t].rotates <==> m.open[t].hook in m.store.keys)
    && (m.open[t].written ==> Free(m.store, m.open[t].key))
  }

  ghost predicate OpenInv(m: Machine) {
    && LiveKeysApart(m.store)
    && (forall t :: t in m.open ==> TxOk(m, t))
    && (forall t, u :: t in m.open && u in m.open && t != u ==> m.open[t].hook != m.open[u].hook)
    && (forall t, u :: t in m.open && u in m.open && t != u && m.open[t].written && m.open[u].written ==>
          m.open[t].key != m.open[u].key)
  }

  lemma FreeMeansNoValue(s: Store, key: string)
    ensures Free(s, key) <==> key !in s.keys.Values
  {
    assert forall a :: a in s.keys ==> s.keys[a] in s.keys.Values;
  }

  lemma CommitKeepsOpen(m: Machine, t: TxId)
    requires Enabled(m, Commit(t)) && OpenInv(m)
    ensures OpenInv(Next(m, Commit(t)))
  {
    var n := Next(m, Commit(t));
    var tx := m.open[t];
    assert TxOk(m, t);
    forall u | u in n.open ensures TxOk(n, u) {
      assert TxOk(m, u) && m.open[u].hook != tx.hook;
    }
  }

  lemma WriteKeepsOpen(m: Machine, t: TxId)
    requires Enabled(m, Write(t)) && OpenInv(m)
    ensures OpenInv(Next(m, Write(t)))
  {
    var n := Next(m, Write(t));
    FreeMeansNoValue(m.store, m.open[t].key);
    forall u | u in n.open ensures TxOk(n, u) {
      assert TxOk(m, u);
    }
    forall u | u in m.open && u != t && m.open[u].written ensures m.open[u].key != m.open[t].key {
      assert !WaitsFor(m, m.open[t], m.open[u]);
    }
  }

  lemma StepKeepsOpen(m: Machine, s: Step)
    requires Enabled(m, s) && OpenInv(m)
    ensures OpenInv(Next(m, s))
  {
    if s.Commit? {
      CommitKeepsOpen(m, s.tx);
    } else if s.Write? {
      WriteKeepsOpen(m, s.tx);
    } else {
      var n := Next(m, s);
      forall u | u in n.open ensures TxOk(n, u) {
        if u in m.open {
          assert TxOk(m, u);
          assert m.open[u].rotates ==> RowLocked(m, m.open[u].hook);
        }
      }
      if s.Check? {
        forall u | u in m.open ensures m.open[u].hook != s.hook {
          assert TxOk(m, u);
          assert m.open[u].rotates ==> RowLocked(m, m.open[u].hook);
        }
      }
    }
  }

  lemma {:induction false} RunKeepsOpen(steps: seq<Step>)
    requires Exec(steps).Some?
    ensures OpenInv(Exec(steps).value)
    decreases |steps|
  {
    if steps != [] {
      RunKeepsOpen(steps[..|steps| - 1]);
      StepKeepsOpen(Exec(steps[..|steps| - 1]).value, steps[|steps| - 1]);
    }
  }

  /**
   * However transactions interleave, no two hooks share a key, nor will they when those that wrote commit:
   * a write waits for others of its key, and nothing but the row lock protects the hook it rotates.
   */
  lemma CurrentKeysStayDistinct(steps: seq<Step>)
    requires Exec(steps).Some?
    ensures LiveKeysApart(Exec(steps).value.store)
    ensures forall t :: t in Exec(steps).value.open && Exec(steps).value.open[t].written ==>
              LiveKeysApart(Next(Exec(steps).value, Commit(t)).store)
  {
    RunKeepsOpen(steps);
    forall t | t in Exec(steps).value.open && Exec(steps).value.open[t].written
      ensures LiveKeysApart(Next(Exec(steps).value, Commit(t)).store)
    {
      CommitKeepsOpen(Exec(steps).value, t);
    }
  }

  /** Creations for one Silicon never overlap: only another Silicon's, or a rotation, can come between. */
  lemma {:induction false} CreationsForOneSiliconNeverOverlap(steps: seq<Step>, t: TxId, u: TxId)
    requires Exec(steps).Some? && t in Exec(steps).value.open && u in Exec(steps).value.open
    requires var m := Exec(steps).value;
             !m.open[t].rotates && !m.open[u].rotates && m.open[t].silicon == m.open[u].silicon
    ensures t == u
    decreases |steps|
  {
    var before, last := steps[..|steps| - 1], steps[|steps| - 1];
    var m := Exec(before).value;
    OpenSteps(m, last, t);
    OpenSteps(m, last, u);
    if t in m.open && u in m.open {
      CreationsForOneSiliconNeverOverlap(before, t, u);
    }
  }

  /** The `i`-th step is the latest check of an open transaction. */
  ghost predicate CheckedAt(steps: seq<Step>, t: TxId, tx: Tx, i: nat) {
    && i < |steps| && steps[i] == Check(t, tx.hook, tx.key, tx.rotates, tx.silicon)
    && Exec(steps[..i]).Some? && !Used(Exec(steps[..i]).value.store, tx.key)
    && forall k :: i < k < |steps| ==> !(steps[k].Check? && steps[k].tx == t)
  }

  lemma OpenSteps(m: Machine, s: Step, t: TxId)
    requires Enabled(m, s) && t in Next(m, s).open
    ensures var tx := Next(m, s).open[t];
            || s == Check(t, tx.hook, tx.key, tx.rotates, tx.silicon)
            || (t in m.open && tx.(written := m.open[t].written) == m.open[t] && !(s.Check? && s.tx == t))
  {
  }

  lemma {:induction false} EveryOpenTxWasChecked(steps: seq<Step>, t: TxId) returns (i: nat)
    requires Exec(steps).Some? && t in Exec(steps).value.open
    ensures CheckedAt(steps, t, Exec(steps).value.open[t], i)
    decreases |steps|
  {
    var before, last := steps[..|steps| - 1], steps[|steps| - 1];
    var tx := Exec(steps).value.open[t];
    OpenSteps(Exec(before).value, last, t);
    if last == Check(t, tx.hook, tx.key, tx.rotates, tx.silicon) {
      i := |before|;
    } else {
      i := EveryOpenTxWasChecked(before, t);
      assert before[..i] == steps[..i];
      assert forall k :: i < k < |before| ==> steps[k] == before[k];
    }
  }

  lemma CommitKeepsApartExactly(m: Machine, t: TxId)
    requires Enabled(m, Commit(t)) && OpenInv(m) && KeysApart(m.store)
    ensures !KeysApart(Next(m, Commit(t)).store) <==> m.open[t].key in m.store.retired
  {
    var tx, n := m.open[t], Next(m, Commit(t)).store;
    assert TxOk(m, t);
    CommitKeepsOpen(m, t);
    assert n.keys[tx.hook] == tx.key;
    forall a | a in n.keys && a != tx.hook ensures n.keys[a] !in n.retired {
      assert a in m.store.keys && n.keys[a] == m.store.keys[a];
    }
    if tx.rotates {
      assert m.store.keys[tx.hook] != tx.key;
    }
  }

  /**
   * A commit puts a retired key back into use exactly when its key, unused when it was checked, was
   * retired between that check and the commit.
   */
  lemma CommitRevivesExactlyAKeyRetiredSinceItsCheck(steps: seq<Step>, t: TxId) returns (i: nat)
    requires Exec(steps).Some? && Enabled(Exec(steps).value, Commit(t)) && KeysApart(Exec(steps).value.store)
    ensures CheckedAt(steps, t, Exec(steps).value.open[t], i)
    ensures Exec(steps).value.open[t].key !in Exec(steps[..i]).value.store.retired
    ensures !KeysApart(Next(Exec(steps).value, Commit(t)).store) <==>
              Exec(steps).value.open[t].key in Exec(steps).value.store.retired
  {
    i := EveryOpenTxWasChecked(steps, t);
    RunKeepsOpen(steps);
    CommitKeepsApartExactly(Exec(steps).value, t);
  }

  /** The step commits a key that is retired by now. */
  predicate Revives(m: Machine, s: Step) {
    s.Commit? && s.tx in m.open && m.open[s.tx].key in m.store.retired
  }

  ghost predicate ApartThroughout(steps: seq<Step>) {
    forall k :: 0 <= k <= |steps| && Exec(steps[..k]).Some? ==> KeysApart(Exec(steps[..k]).value.store)
  }

  ghost predicate NothingRevives(steps: seq<Step>) {
    forall k :: 0 <= k < |steps| && Exec(steps[..k]).Some? ==> !Revives(Exec(steps[..k]).value, steps[k])
  }

  lemma OtherStepsKeepApart(m: Machine, s: Step)
    requires Enabled(m, s) && KeysApart(m.store) && !s.Commit?
    ensures KeysApart(Next(m, s).store)
  {
  }

  /** Over whole runs: current and retired keys stay apart at every moment exactly when no commit revives a key. */
  lemma {:induction false} KeysStayApartExactlyWhenNothingRevives(steps: seq<Step>)
    requires Exec(steps).Some?
    ensures ApartThroughout(steps) <==> NothingRevives(steps)
    decreases |steps|
  {
    if steps == [] {
      assert steps[..0] == [];
    } else {
      var before, last := steps[..|steps| - 1], steps[|steps| - 1];
      var m := Exec(before).value;
      KeysStayApartExactlyWhenNothingRevives(before);
      PrefixesOf(steps);
      RunKeepsOpen(before);
      if KeysApart(m.store) {
        if last.Commit? { CommitKeepsApartExactly(m, last.tx); } else { OtherStepsKeepApart(m, last); }
      } else {
        assert before[..|before|] == before;
        assert !ApartThroughout(before);
      }
    }
  }

  lemma PrefixesOf(steps: seq<Step>)
    requires steps != [] && Exec(steps).Some?
    ensures var before, last := steps[..|steps| - 1], steps[|steps| - 1];
            && (ApartThroughout(steps) <==> ApartThroughout(before) && KeysApart(Exec(steps).value.store))
            && (NothingRevives(steps) <==> NothingRevives(before) && !Revives(Exec(before).value, last))
  {
    var before := steps[..|steps| - 1];
    assert steps[..|steps|] == steps;
    assert forall k :: 0 <= k <= |before| ==> before[..k] == steps[..k];
    assert forall k :: 0 <= k < |before| ==> before[k] == steps[k];
  }

  lemma ExecSnoc(steps: seq<Step>, s: Step)
    requires Exec(steps).Some? && Enabled(Exec(steps).value, s)
    ensures Exec(steps + [s]) == Some(Next(Exec(steps).value, s))
  {
    assert (steps + [s])[..|steps|] == steps;
  }

  /** A whole transaction, run beside the open ones. */
  lemma RunTx(steps: seq<Step>, t: TxId, hook: HookId, key: string, rotates: bool, silicon: string)
    returns (after: seq<Step>)
    requires Exec(steps).Some? && Enabled(Exec(steps).value, Check(t, hook, key, rotates, silicon))
    requires var m := Exec(steps).value;
             && !Violates(m.store, Tx(hook, key, rotates, silicon, false))
             && forall u :: u in m.open ==> !m.open[u].written
    ensures var m, tx := Exec(steps).value, Tx(hook, key, rotates, silicon, true);
            Exec(after) == Some(Machine(Written(m.store, tx), m.open))
  {
    var m := Exec(steps).value;
    ExecSnoc(steps, Check(t, hook, key, rotates, silicon));
    var checked := steps + [Check(t, hook, key, rotates, silicon)];
    ExecSnoc(checked, Write(t));
    var written := checked + [Write(t)];
    ExecSnoc(written, Commit(t));
    after := written + [Commit(t)];
    var open, wrote := Tx(hook, key, rotates, silicon, false), Tx(hook, key, rotates, silicon, true);
    assert m.open[t := open][t := wrote] - {t} == m.open;
  }

  /** A check of the key "A" stands while another Silicon's hook is created with it. */
  lemma KeyIsTakenMeanwhile() returns (steps: seq<Step>)
    ensures Exec(steps) == Some(Machine(Store(map[1 := "A"], {}, {}), map[0 := Tx(2, "A", false, "si:b", false)]))
  {
    var slow := Tx(2, "A", false, "si:b", false);
    var s1 := [Check(0, 2, "A", false, "si:b")];
    ExecSnoc([], Check(0, 2, "A", false, "si:b"));
    assert [] + s1 == s1;
    assert Exec(s1) == Some(Machine(Empty, map[0 := slow]));
    assert "si:a"[3] != "si:b"[3];
    steps := RunTx(s1, 1, 1, "A", false, "si:a");
    assert Written(Empty, Tx(1, "A", false, "si:a", true)).keys == map[1 := "A"];
    assert Written(Empty, Tx(1, "A", false, "si:a", true)).retired == {};
  }

  lemma RotatesToB(s: Store)
    requires s == Store(map[1 := "A"], {}, {})
    ensures !Used(s, "B") && !Violates(s, Tx(1, "B", true, "si:a", false))
    ensures Written(s, Tx(1, "B", true, "si:a", true)) == Store(map[1 := "B"], {}, {"A"})
  {
    assert "A"[0] != "B"[0];
    FreeMeansNoValue(s, "B");
    var after := Written(s, Tx(1, "B", true, "si:a", true));
    assert after.keys == map[1 := "B"] && after.retired == {"A"};
  }

  /** The check still stands when that hook has rotated the key away. */
  lemma KeyIsRetiredMeanwhile() returns (steps: seq<Step>)
    ensures Exec(steps) == Some(Machine(Store(map[1 := "B"], {}, {"A"}), map[0 := Tx(2, "A", false, "si:b", false)]))
  {
    var s2 := KeyIsTakenMeanwhile();
    RotatesToB(Exec(s2).value.store);
    steps := RunTx(s2, 2, 1, "B", true, "si:a");
  }

  /** Three transactions, for two Silicons, after which a retired key routes to a hook again. */
  lemma RetiredKeyCanReturn() returns (steps: seq<Step>)
    ensures Exec(steps).Some? && Exec(steps).value.store == Store(map[1 := "B", 2 := "A"], {}, {"A"})
  {
    var s3 := KeyIsRetiredMeanwhile();
    ExecSnoc(s3, Write(0));
    var s4 := s3 + [Write(0)];
    var m := Exec(s3).value;
    assert m.open[0 := Tx(2, "A", false, "si:b", true)] == map[0 := Tx(2, "A", false, "si:b", true)];
    FreeMeansNoValue(m.store, "A");
    assert Exec(s4) == Some(Machine(m.store, map[0 := Tx(2, "A", false, "si:b", true)]));
    ExecSnoc(s4, Commit(0));
    steps := s4 + [Commit(0)];
    assert Exec(steps).value.store.keys == map[1 := "B", 2 := "A"];
  }
}
