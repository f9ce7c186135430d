/** Which hook holds which endpoint key, which keys are retired and which hooks deleted, read from the history alone. */
module EndpointHistory {
  import opened Common
  import opened Histories
  import opened EndpointKeys

  // ---------------------------------------------------------------------------
  // Whole operations, one after the other.
  // ---------------------------------------------------------------------------

  type OperationKind = (Store, Operation) -> bool

  /** The operations of a run, each with the store it found. */
  function Done(operations: seq<Operation>): (past: seq<(Store, Operation)>)
    ensures |past| == |operations|
    decreases |operations|
  {
    if operations == [] then [] else
    var before := operations[..|operations| - 1];
    Done(before) + [(Run(before), operations[|operations| - 1])]
  }

  /** The first candidate that was never used before, provided all those before it were generated, is this one. */
  ghost predicate Chosen(s: Store, candidates: seq<Candidate>, c: (HookId, string)) {
    exists n: nat :: FirstUnused(s, candidates, n) && candidates[n] == Some(c)
  }

  /** The operation gives the hook this key: it creates the hook, or rotates it while it is not deleted. */
  ghost predicate Gives(s: Store, o: Operation, hook: HookId, key: string) {
    || (o.Create? && Chosen(s, o.candidates, (hook, key)))
    || (o.Rotate? && o.hook == hook && Rotatable(s, hook) && exists id :: Chosen(s, o.candidates, (id, key)))
  }

  predicate Rotatable(s: Store, hook: HookId) {
    hook in s.keys && hook !in s.deleted
  }

  ghost function Giving(hook: HookId, key: string): OperationKind {
    (s: Store, o: Operation) => Gives(s, o, hook, key)
  }

  /** The hook gets another key, or is purged while it is deleted. */
  ghost function Losing(hook: HookId): OperationKind {
    (s: Store, o: Operation) => (exists key :: Gives(s, o, hook, key)) || (o == Purge(hook) && hook in s.deleted)
  }

  ghost function Retiring(key: string): OperationKind {
    (s: Store, o: Operation) =>
      o.Rotate? && Rotatable(s, o.hook) && s.keys[o.hook] == key && exists c :: Chosen(s, o.candidates, c)
  }

  ghost predicate Holds(s: Store, hook: HookId, key: string) {
    hook in s.keys && s.keys[hook] == key
  }

  lemma {:induction false} LoopsChoose(s: Store, hook: HookId, candidates: seq<Candidate>) returns (n: nat)
    ensures FirstUnused(s, candidates, n)
         || (CreateLoop(s, candidates).Err?
             && (RotateLoop(s, hook, candidates).Err? && forall m: nat :: !FirstUnused(s, candidates, m)))
    decreases |candidates|
  {
    n := 0;
    if candidates != [] && candidates[0].Some? && Used(s, candidates[0].value.1) {
      var k := LoopsChoose(s, hook, candidates[1..]);
      if FirstUnused(s, candidates[1..], k) {
        n := k + 1;
        ChoiceShifts(s, candidates, k);
      } else {
        forall m: nat ensures !FirstUnused(s, candidates, m) {
          if FirstUnused(s, candidates, m) {
            assert m > 0;
            ChoiceShifts(s, candidates, m - 1);
          }
        }
      }
    } else if !FirstUnused(s, candidates, 0) {
      forall m: nat ensures !FirstUnused(s, candidates, m) {
        assert m > 0 && candidates != [] ==> candidates[0].None?;
      }
    }
  }

  lemma ChoiceShifts(s: Store, candidates: seq<Candidate>, n: nat)
    requires candidates != [] && candidates[0].Some? && Used(s, candidates[0].value.1)
    ensures FirstUnused(s, candidates, n + 1) <==> FirstUnused(s, candidates[1..], n)
  {
    var rest := candidates[1..];
    assert forall i :: 0 <= i < |rest| ==> rest[i] == candidates[i + 1];
    if FirstUnused(s, rest, n) {
      forall i | 0 <= i < n + 1 ensures candidates[i].Some? && Used(s, candidates[i].value.1) {
        assert i > 0 ==> rest[i - 1].Some? && Used(s, rest[i - 1].value.1);
      }
    }
    if FirstUnused(s, candidates, n + 1) {
      forall i | 0 <= i < n ensures rest[i].Some? && Used(s, rest[i].value.1) {
        assert candidates[i + 1].Some?;
      }
    }
  }

  lemma OneIsChosen(s: Store, candidates: seq<Candidate>, c: (HookId, string), d: (HookId, string))
    requires Chosen(s, candidates, c) && Chosen(s, candidates, d)
    ensures c == d
  {
    var m: nat :| FirstUnused(s, candidates, m) && candidates[m] == Some(c);
    var n: nat :| FirstUnused(s, candidates, n) && candidates[n] == Some(d);
    assert m == n;
  }

  /** What a creation leaves: the hook it chose with its key, or the store as it was. */
  lemma CreationGives(s: Store, candidates: seq<Candidate>)
    ensures var n := After(s, Create(candidates));
            || (n == s && forall c :: !Chosen(s, candidates, c))
            || exists c :: Chosen(s, candidates, c) && n == s.(keys := s.keys[c.0 := c.1])
  {
    var k := LoopsChoose(s, 0, candidates);
    if FirstUnused(s, candidates, k) {
      CreationTakesTheFirstUnusedKey(s, candidates, k);
      assert Chosen(s, candidates, candidates[k].value);
    }
  }

  lemma RotationGives(s: Store, hook: HookId, candidates: seq<Candidate>)
    ensures var n := After(s, Rotate(hook, candidates));
            || (n == s && (!Rotatable(s, hook) || forall c :: !Chosen(s, candidates, c)))
            || (Rotatable(s, hook)
                && exists c ::
                  && Chosen(s, candidates, c)
                  && n == s.(keys := s.keys[hook := c.1], retired := s.retired + {s.keys[hook]}))
  {
    var k := LoopsChoose(s, hook, candidates);
    if hook !in s.keys {
      UnknownHooksAreNotRotated(s, hook, candidates);
    } else if FirstUnused(s, candidates, k) {
      RotationRetiresTheOldKey(s, hook, candidates, k);
      assert Chosen(s, candidates, candidates[k].value);
    }
  }

  lemma UnknownHooksAreNotRotated(s: Store, hook: HookId, candidates: seq<Candidate>)
    requires hook !in s.keys
    ensures RotateLoop(s, hook, candidates).Err?
  {
  }

  lemma OperationGives(s: Store, o: Operation, hook: HookId, key: string)
    ensures Holds(After(s, o), hook, key) <==>
              Gives(s, o, hook, key) || (Holds(s, hook, key) && !Losing(hook)(s, o))
  {
    match o
    case Create(candidates) =>
      CreationGives(s, candidates);
      if c :| Chosen(s, candidates, c) && After(s, o) == s.(keys := s.keys[c.0 := c.1]) {
        forall k, id: HookId | Chosen(s, candidates, (id, k)) ensures (id, k) == c {
          OneIsChosen(s, candidates, (id, k), c);
        }
        assert c == (c.0, c.1);
        assert Gives(s, o, c.0, c.1);
      }
    case Rotate(rotated, candidates) =>
      RotationGives(s, rotated, candidates);
      if Rotatable(s, rotated) && exists c :: Chosen(s, candidates, c) {
        var c :| Chosen(s, candidates, c)
                 && After(s, o) == s.(keys := s.keys[rotated := c.1], retired := s.retired + {s.keys[rotated]});
        forall k, id: HookId | Chosen(s, candidates, (id, k)) ensures (id, k) == c {
          OneIsChosen(s, candidates, (id, k), c);
        }
        assert c == (c.0, c.1);
        assert Gives(s, o, rotated, c.1);
      } else {
        assert forall k, id :: !(Rotatable(s, rotated) && Chosen(s, candidates, (id, k)));
      }
    case _ =>
  }

  /** A hook holds a key exactly while the last operation that gave it one gave it this, and it was not purged since. */
  lemma {:induction false} HoldsExactlyTheLastGiven(operations: seq<Operation>, hook: HookId, key: string)
    ensures Holds(Run(operations), hook, key) <==> Standing(Done(operations), Giving(hook, key), Losing(hook))
    decreases |operations|
  {
    if operations != [] {
      var before, last := operations[..|operations| - 1], operations[|operations| - 1];
      HoldsExactlyTheLastGiven(before, hook, key);
      OperationGives(Run(before), last, hook, key);
      StandingLast(Done(before), (Run(before), last), Giving(hook, key), Losing(hook));
    }
  }

  lemma OperationRetires(s: Store, o: Operation, key: string)
    ensures key in After(s, o).retired <==> key in s.retired || Retiring(key)(s, o)
  {
    match o
    case Create(candidates) => CreationGives(s, candidates);
    case Rotate(hook, candidates) => RotationGives(s, hook, candidates);
    case _ =>
  }

  /** A key is retired exactly when some rotation replaced it. */
  lemma {:induction false} RetiredExactlyByRotation(operations: seq<Operation>, key: string)
    ensures key in Run(operations).retired <==> Since(Done(operations), 0, Retiring(key))
    decreases |operations|
  {
    if operations != [] {
      var before, last := operations[..|operations| - 1], operations[|operations| - 1];
      RetiredExactlyByRotation(before, key);
      OperationRetires(Run(before), last, key);
      SinceLast(Done(before), (Run(before), last), 0, Retiring(key));
    }
  }

  function Deleting(hook: HookId): OperationKind {
    (s: Store, o: Operation) => o == Delete(hook) && hook in s.keys
  }

  function Undeleting(hook: HookId): OperationKind {
    (s: Store, o: Operation) => o == Restore(hook) || o == Purge(hook)
  }

  lemma OperationDeletes(s: Store, o: Operation, hook: HookId)
    ensures hook in After(s, o).deleted <==> Deleting(hook)(s, o) || (hook in s.deleted && !Undeleting(hook)(s, o))
  {
    match o
    case Create(candidates) => CreationGives(s, candidates);
    case Rotate(rotated, candidates) => RotationGives(s, rotated, candidates);
    case _ =>
  }

  /** A hook is deleted exactly since a deletion that found it, until it is restored or purged. */
  lemma {:induction false} DeletedExactlyUntilRestoredOrPurged(operations: seq<Operation>, hook: HookId)
    ensures hook in Run(operations).deleted <==> Standing(Done(operations), Deleting(hook), Undeleting(hook))
    decreases |operations|
  {
    if operations != [] {
      var before, last := operations[..|operations| - 1], operations[|operations| - 1];
      DeletedExactlyUntilRestoredOrPurged(before, hook);
      OperationDeletes(Run(before), last, hook);
      StandingLast(Done(before), (Run(before), last), Deleting(hook), Undeleting(hook));
    }
  }

  // ---------------------------------------------------------------------------
  // Transactions side by side.
  // ---------------------------------------------------------------------------

  type StepKind = (Machine, Step) -> bool

  /** The steps of a run, each with the machine it found. */
  function Past(steps: seq<Step>): (past: seq<(Machine, Step)>)
    requires Exec(steps).Some?
    ensures |past| == |steps|
    decreases |steps|
  {
    if steps == [] then [] else
    var before := steps[..|steps| - 1];
    Past(before) + [(Exec(before).value, steps[|steps| - 1])]
  }

  /** The transaction commits a new hook's key, or a replacement. */
  function Committing(hook: HookId, key: string): StepKind {
    (m: Machine, s: Step) => s.Commit? && s.tx in m.open && m.open[s.tx].hook == hook && m.open[s.tx].key == key
  }

  function Dropping(hook: HookId): StepKind {
    (m: Machine, s: Step) => (s.Commit? && s.tx in m.open && m.open[s.tx].hook == hook) || s == PurgeHook(hook)
  }

  lemma StepGives(m: Machine, s: Step, hook: HookId, key: string)
    requires Enabled(m, s)
    ensures Holds(Next(m, s).store, hook, key) <==>
              Committing(hook, key)(m, s) || (Holds(m.store, hook, key) && !Dropping(hook)(m, s))
  {
  }

  /** However transactions overlap, a hook holds the key of the last one committed for it, until it is purged. */
  lemma {:induction false} HoldsExactlyTheLastCommitted(steps: seq<Step>, hook: HookId, key: string)
    requires Exec(steps).Some?
    ensures Holds(Exec(steps).value.store, hook, key) <==>
              Standing(Past(steps), Committing(hook, key), Dropping(hook))
    decreases |steps|
  {
    if steps != [] {
      var before, last := steps[..|steps| - 1], steps[|steps| - 1];
      HoldsExactlyTheLastCommitted(before, hook, key);
      StepGives(Exec(before).value, last, hook, key);
      StandingLast(Past(before), (Exec(before).value, last), Committing(hook, key), Dropping(hook));
    }
  }

  /** A rotation away from the key commits. */
  function RetiringKey(key: string): StepKind {
    (m: Machine, s: Step) =>
      && s.Commit? && s.tx in m.open && m.open[s.tx].rotates
      && m.open[s.tx].hook in m.store.keys && m.store.keys[m.open[s.tx].hook] == key
  }

  lemma StepRetires(m: Machine, s: Step, key: string)
    requires Enabled(m, s)
    ensures key in Next(m, s).store.retired <==> key in m.store.retired || RetiringKey(key)(m, s)
  {
  }

  lemma {:induction false} RetiredExactlyByCommittedRotation(steps: seq<Step>, key: string)
    requires Exec(steps).Some?
    ensures key in Exec(steps).value.store.retired <==> Since(Past(steps), 0, RetiringKey(key))
    decreases |steps|
  {
    if steps != [] {
      var before, last := steps[..|steps| - 1], steps[|steps| - 1];
      RetiredExactlyByCommittedRotation(before, key);
      StepRetires(Exec(before).value, last, key);
      SinceLast(Past(before), (Exec(before).value, last), 0, RetiringKey(key));
    }
  }

  /** The transaction began with this check. */
  function Checking(t: TxId, tx: Tx): StepKind {
    (m: Machine, s: Step) => s == Check(t, tx.hook, tx.key, tx.rotates, tx.silicon)
  }

  /** It commits or aborts, or its write breaks a unique index: the key was taken, or its old one retired, meanwhile. */
  function Closing(t: TxId): StepKind {
    (m: Machine, s: Step) =>
      || s == Commit(t) || s == Abort(t)
      || (s == Write(t) && t in m.open
          && (m.open[t].key in m.store.keys.Values
              || (m.open[t].rotates && m.open[t].hook in m.store.keys
                  && m.store.keys[m.open[t].hook] in m.store.retired)))
  }

  ghost predicate Opened(m: Machine, t: TxId, tx: Tx) {
    t in m.open && m.open[t].(written := tx.written) == tx
  }

  lemma StepOpens(m: Machine, s: Step, t: TxId, tx: Tx)
    requires Enabled(m, s)
    ensures Opened(Next(m, s), t, tx) <==> Checking(t, tx)(m, s) || (Opened(m, t, tx) && !Closing(t)(m, s))
  {
  }

  /** A transaction is open exactly since its check, with the hook and key it checked, until it ends. */
  lemma {:induction false} OpenExactlySinceItsCheck(steps: seq<Step>, t: TxId, tx: Tx)
    requires Exec(steps).Some?
    ensures Opened(Exec(steps).value, t, tx) <==> Standing(Past(steps), Checking(t, tx), Closing(t))
    decreases |steps|
  {
    if steps != [] {
      var before, last := steps[..|steps| - 1], steps[|steps| - 1];
      OpenExactlySinceItsCheck(before, t, tx);
      StepOpens(Exec(before).value, last, t, tx);
      StandingLast(Past(before), (Exec(before).value, last), Checking(t, tx), Closing(t));
    }
  }
}
