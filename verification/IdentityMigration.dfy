/** Moving a database from the old account identities to the new ones, once or again. */
module IdentityMigration {
  import opened Common
  import opened Identifiers
  import opened Json
  import opened IdentityRenaming

  datatype Account = Account(uuid: string, kind: Option<string>)

  datatype Applied = Applied(target: string, kind: string)

  /** The accounts, the listed identity columns and JSON columns, and the ledger of applied renamings. */
  datatype Database = Database(
    accounts: seq<Account>,
    columns: map<string, seq<Cell>>,
    documents: map<string, seq<Json>>,
    ledger: map<string, Applied>)

  datatype MigrationError = LedgerConflict | TargetTaken | Omitted | AccountMismatch

  predicate Known(accounts: seq<Account>, uuid: string) {
    exists a :: a in accounts && a.uuid == uuid
  }

  predicate KindMatches(actual: Option<string>, expected: string, allowUnknown: bool) {
    actual == Some(expected) || (allowUnknown && actual.None?)
  }

  /** An account that contradicts one mapped identity: of another kind, or standing where another must move to. */
  predicate Contradicts(db: Database, r: Reading, allowUnknown: bool, id: string, a: Account)
    requires id in r.mapping && id in r.kinds
  {
    || (a.uuid == id && !KindMatches(a.kind, r.kinds[id], allowUnknown))
    || (a.uuid == r.mapping[id]
        && (Known(db.accounts, id) || id !in db.ledger || !KindMatches(a.kind, r.kinds[id], allowUnknown)))
  }

  predicate Coherent(r: Reading) {
    r.kinds.Keys == r.mapping.Keys
  }

  predicate LedgerConflicts(ledger: map<string, Applied>, r: Reading)
    requires Coherent(r)
  {
    exists id :: id in r.mapping && id in ledger && ledger[id] != Applied(r.mapping[id], r.kinds[id])
  }

  predicate TakesATarget(ledger: map<string, Applied>, m: Mapping) {
    exists id :: id in ledger && ledger[id].target in m.Values && id !in m
  }

  predicate Omits(accounts: seq<Account>, m: Mapping) {
    exists a :: a in accounts && a.uuid !in m && !CanonicalUuid(a.uuid)
  }

  predicate Mismatched(db: Database, r: Reading, allowUnknown: bool)
    requires Coherent(r)
  {
    exists id, a :: id in r.mapping && a in db.accounts && Contradicts(db, r, allowUnknown, id, a)
  }

  /** The checks before anything changes, in the script's order. */
  function Refuse(db: Database, r: Reading, allowUnknown: bool): Option<MigrationError>
    requires Coherent(r)
  {
    if LedgerConflicts(db.ledger, r) then Some(LedgerConflict)
    else if TakesATarget(db.ledger, r.mapping) then Some(TargetTaken)
    else if Omits(db.accounts, r.mapping) then Some(Omitted)
    else if Mismatched(db, r, allowUnknown) then Some(AccountMismatch)
    else None
  }

  function RenameAccounts(m: Mapping, accounts: seq<Account>): seq<Account> {
    seq(|accounts|, i requires 0 <= i < |accounts| => accounts[i].(uuid := Rename(m, accounts[i].uuid)))
  }

  function RewriteAll(m: Mapping, documents: seq<Json>): seq<Json> {
    seq(|documents|, i requires 0 <= i < |documents| => Rewrite(documents[i], m))
  }

  /** New entries join the ledger; an entry already there stays. */
  function Recorded(r: Reading, ledger: map<string, Applied>): map<string, Applied>
    requires Coherent(r)
  {
    (map id | id in r.mapping :: Applied(r.mapping[id], r.kinds[id])) + ledger
  }

  function Migrated(db: Database, r: Reading): Database
    requires Coherent(r)
  {
    Database(
      RenameAccounts(r.mapping, db.accounts),
      map c | c in db.columns :: RenameColumn(r.mapping, db.columns[c]),
      map c | c in db.documents :: RewriteAll(r.mapping, db.documents[c]),
      Recorded(r, db.ledger))
  }

  ghost predicate AccountsApart(accounts: seq<Account>) {
    forall i, j :: 0 <= i < j < |accounts| ==> accounts[i].uuid != accounts[j].uuid
  }

  ghost predicate LedgerIsInjective(ledger: map<string, Applied>) {
    forall a, b :: a in ledger && b in ledger && ledger[a].target == ledger[b].target ==> a == b
  }

  // ---------------------------------------------------------------------------
  // The migration as it runs: listed columns one after the other, inside one transaction.
  // ---------------------------------------------------------------------------

  class Store {
    var accounts: seq<Account>
    var columns: map<string, seq<Cell>>
    var documents: map<string, seq<Json>>
    var ledger: map<string, Applied>

    ghost function View(): Database
      reads this
    {
      Database(accounts, columns, documents, ledger)
    }

    /** The primary key of the accounts. */
    ghost predicate Valid()
      reads this
    {
      AccountsApart(accounts)
    }

    method RenameColumns(m: Mapping, names: seq<string>)
      requires Renames(m) && forall n :: n in names <==> n in columns
      modifies this`columns
      ensures columns == map c | c in old(columns) :: RenameColumn(m, old(columns)[c])
    {
      ghost var before := columns;
      var i := 0;
      while i < |names|
        invariant 0 <= i <= |names| && columns.Keys == before.Keys
        invariant forall c :: c in before ==> columns[c] == before[c] || columns[c] == RenameColumn(m, before[c])
        invariant forall k :: 0 <= k < i ==> columns[names[k]] == RenameColumn(m, before[names[k]])
      {
        ColumnRenamedTwice(m, before[names[i]]);
        columns := columns[names[i] := RenameColumn(m, columns[names[i]])];
        i := i + 1;
      }
    }

    method RewriteDocuments(m: Mapping, names: seq<string>)
      requires Renames(m) && forall n :: n in names <==> n in documents
      modifies this`documents
      ensures documents == map c | c in old(documents) :: RewriteAll(m, old(documents)[c])
    {
      ghost var before := documents;
      var i := 0;
      while i < |names|
        invariant 0 <= i <= |names| && documents.Keys == before.Keys
        invariant forall c :: c in before ==> documents[c] == before[c] || documents[c] == RewriteAll(m, before[c])
        invariant forall k :: 0 <= k < i ==> documents[names[k]] == RewriteAll(m, before[names[k]])
      {
        RewrittenTwice(m, before[names[i]]);
        documents := documents[names[i] := RewriteAll(m, documents[names[i]])];
        i := i + 1;
      }
    }

    /** The last check before commit: a source left in a live identity column. */
    method IdentityRemains(m: Mapping, names: seq<string>) returns (remains: bool)
      requires forall n :: n in names <==> n in columns
      ensures remains <==> (exists a :: a in accounts && a.uuid in m)
                           || exists c, id :: c in columns && Some(id) in columns[c] && id in m
    {
      remains := exists a :: a in accounts && a.uuid in m;
      var i := 0;
      while i < |names|
        invariant 0 <= i <= |names|
        invariant remains <==> (exists a :: a in accounts && a.uuid in m)
                               || exists c, id :: c in names[..i] && c in columns && Some(id) in columns[c] && id in m
      {
        remains := remains || exists cell :: cell in columns[names[i]] && cell.Some? && cell.value in m;
        i := i + 1;
      }
    }

    /** No applied renaming is contradicted, and none of the targets belongs to another one. */
    method CheckLedger(r: Reading) returns (error: Option<MigrationError>)
      requires Coherent(r)
      ensures error == if LedgerConflicts(ledger, r) then Some(LedgerConflict)
                       else if TakesATarget(ledger, r.mapping) then Some(TargetTaken) else None
    {
      var sources := r.mapping.Keys;
      while sources != {}
        invariant sources <= r.mapping.Keys
        invariant forall id :: id in r.mapping && id !in sources && id in ledger ==>
                    ledger[id] == Applied(r.mapping[id], r.kinds[id])
        decreases |sources|
      {
        var id :| id in sources;
        if id in ledger && ledger[id] != Applied(r.mapping[id], r.kinds[id]) {
          return Some(LedgerConflict);
        }
        sources := sources - {id};
      }
      var targets, applied := r.mapping.Values, ledger.Keys;
      while applied != {}
        invariant applied <= ledger.Keys
        invariant forall id :: id in ledger && id !in applied && id !in r.mapping ==> ledger[id].target !in targets
        decreases |applied|
      {
        var id :| id in applied;
        if ledger[id].target in targets && id !in r.mapping {
          return Some(TargetTaken);
        }
        applied := applied - {id};
      }
      return None;
    }

    /** How many accounts keep a legacy identity the mapping does not name. */
    method CountOmitted(m: Mapping) returns (missing: nat)
      ensures missing > 0 <==> Omits(accounts, m)
    {
      missing := 0;
      for i := 0 to |accounts|
        invariant missing > 0 <==> exists j :: 0 <= j < i && accounts[j].uuid !in m && !CanonicalUuid(accounts[j].uuid)
      {
        if accounts[i].uuid !in m && !CanonicalUuid(accounts[i].uuid) {
          missing := missing + 1;
        }
      }
    }

    /** The kinds of the accounts that stand at a source or a target. */
    method MappedKinds(m: Mapping) returns (kinds: map<string, Option<string>>)
      requires AccountsApart(accounts)
      ensures KindsAre(kinds, accounts, m)
    {
      kinds := map[];
      for i := 0 to |accounts|
        invariant KindsAre(kinds, accounts[..i], m)
      {
        assert accounts[..i + 1] == accounts[..i] + [accounts[i]];
        ghost var before := kinds;
        if accounts[i].uuid in m || accounts[i].uuid in m.Values {
          kinds := kinds[accounts[i].uuid := accounts[i].kind];
        }
        OneMoreKind(before, kinds, accounts[..i], accounts[i], m);
      }
      assert accounts[..|accounts|] == accounts;
    }

    /** Mapped accounts have the mapped kind, and no account stands where another must move to. */
    method CheckAccounts(r: Reading, allowUnknown: bool) returns (error: Option<MigrationError>)
      requires Coherent(r) && AccountsApart(accounts)
      ensures error == if Mismatched(View(), r, allowUnknown) then Some(AccountMismatch) else None
    {
      var kinds := MappedKinds(r.mapping);
      var sources := r.mapping.Keys;
      while sources != {}
        invariant sources <= r.mapping.Keys
        invariant forall id :: id in r.mapping && id !in sources ==>
                    forall a :: a in accounts ==> !Contradicts(View(), r, allowUnknown, id, a)
        decreases |sources|
      {
        var id :| id in sources;
        var target := r.mapping[id];
        KindsDecide(kinds, View(), r, allowUnknown, id);
        if id in kinds && !KindMatches(kinds[id], r.kinds[id], allowUnknown) {
          return Some(AccountMismatch);
        }
        if target in kinds
           && (id in kinds || id !in ledger || !KindMatches(kinds[target], r.kinds[id], allowUnknown)) {
          return Some(AccountMismatch);
        }
        sources := sources - {id};
      }
      return None;
    }

    /** A refusal changes nothing; otherwise everything is renamed, and the last check never fires. */
    method Migrate(r: Reading, allowUnknown: bool, names: seq<string>, jsonNames: seq<string>)
      returns (error: Option<MigrationError>)
      requires Valid() && Coherent(r) && ValidMapping(r.mapping)
      requires forall n :: n in names <==> n in columns
      requires forall n :: n in jsonNames <==> n in documents
      modifies this
      ensures Valid()
      ensures error == Refuse(old(View()), r, allowUnknown)
      ensures View() == if error.None? then Migrated(old(View()), r) else old(View())
    {
      error := CheckLedger(r);
      if error.Some? {
        return;
      }
      var missing := CountOmitted(r.mapping);
      if missing > 0 {
        return Some(Omitted);
      }
      error := CheckAccounts(r, allowUnknown);
      if error.Some? {
        return;
      }
      ghost var before := View();
      accounts := RenameAccounts(r.mapping, accounts);
      RenameColumns(r.mapping, names);
      RewriteDocuments(r.mapping, jsonNames);
      var remains := IdentityRemains(r.mapping, names);
      NothingRemains(before, r);
      AccountsStayApart(before, r, allowUnknown);
      if remains {
        assert false;
      }
      ledger := Recorded(r, ledger);
    }
  }

  // ---------------------------------------------------------------------------
  // The accounts at sources and targets, looked up by uuid.
  // ---------------------------------------------------------------------------

  ghost predicate KindsAre(kinds: map<string, Option<string>>, accounts: seq<Account>, m: Mapping) {
    && (forall u :: u in kinds ==> Known(accounts, u))
    && (forall a :: a in accounts && (a.uuid in m || a.uuid in m.Values) ==> a.uuid in kinds && kinds[a.uuid] == a.kind)
  }

  lemma OneMoreKind(kinds: map<string, Option<string>>, more: map<string, Option<string>>, accounts: seq<Account>,
                    a: Account, m: Mapping)
    requires KindsAre(kinds, accounts, m) && forall b :: b in accounts ==> b.uuid != a.uuid
    requires more == if a.uuid in m || a.uuid in m.Values then kinds[a.uuid := a.kind] else kinds
    ensures KindsAre(more, accounts + [a], m)
  {
    forall u | u in more ensures Known(accounts + [a], u) {
      if u in kinds {
        var b :| b in accounts && b.uuid == u;
        assert b in accounts + [a];
      } else {
        assert a in accounts + [a];
      }
    }
  }

  /** Looking the two identities up tells whether any account contradicts them. */
  lemma KindsDecide(kinds: map<string, Option<string>>, db: Database, r: Reading, allowUnknown: bool, id: string)
    requires Coherent(r) && id in r.mapping && KindsAre(kinds, db.accounts, r.mapping)
    ensures (exists a :: a in db.accounts && Contradicts(db, r, allowUnknown, id, a)) <==>
              || (id in kinds && !KindMatches(kinds[id], r.kinds[id], allowUnknown))
              || (r.mapping[id] in kinds
                  && (id in kinds || id !in db.ledger || !KindMatches(kinds[r.mapping[id]], r.kinds[id], allowUnknown)))
  {
    var target := r.mapping[id];
    assert target in r.mapping.Values;
    forall u | u in kinds && (u == id || u == target)
      ensures exists a :: a in db.accounts && a.uuid == u && a.kind == kinds[u]
    {
      var a :| a in db.accounts && a.uuid == u;
    }
    assert Known(db.accounts, id) <==> id in kinds;
  }

  // ---------------------------------------------------------------------------
  // What a migration keeps and achieves.
  // ---------------------------------------------------------------------------

  lemma ColumnRenamedTwice(m: Mapping, column: seq<Cell>)
    requires Renames(m)
    ensures RenameColumn(m, RenameColumn(m, column)) == RenameColumn(m, column)
  {
  }

  lemma RewrittenTwice(m: Mapping, documents: seq<Json>)
    requires Renames(m)
    ensures RewriteAll(m, RewriteAll(m, documents)) == RewriteAll(m, documents)
  {
    forall i | 0 <= i < |documents| ensures Rewrite(Rewrite(documents[i], m), m) == Rewrite(documents[i], m) {
      RewriteIsIdempotent(documents[i], m);
    }
  }

  /** No old identity is left among the accounts, in a listed column or in an identity position of a document. */
  lemma NothingRemains(db: Database, r: Reading)
    requires Coherent(r) && Renames(r.mapping)
    ensures forall a :: a in Migrated(db, r).accounts ==> a.uuid !in r.mapping
    ensures forall c, id :: c in db.columns && Some(id) in Migrated(db, r).columns[c] ==> id !in r.mapping
    ensures forall c, d, id :: c in db.documents && d in Migrated(db, r).documents[c] && Occurs(d, id) ==>
              id !in r.mapping
  {
    forall a | a in Migrated(db, r).accounts ensures a.uuid !in r.mapping {
      var i :| 0 <= i < |db.accounts| && a == RenameAccounts(r.mapping, db.accounts)[i];
      RenamedTwice(r.mapping, db.accounts[i].uuid);
    }
    forall c, id | c in db.columns && Some(id) in Migrated(db, r).columns[c] ensures id !in r.mapping {
      if id in r.mapping { NoSourceInColumn(r.mapping, db.columns[c], id); }
    }
    forall c, d, id | c in db.documents && d in Migrated(db, r).documents[c] && Occurs(d, id) ensures id !in r.mapping {
      var i :| 0 <= i < |db.documents[c]| && d == RewriteAll(r.mapping, db.documents[c])[i];
      if id in r.mapping { NoSourceRemains(db.documents[c][i], r.mapping, id); }
    }
  }

  /** No account stands at the target of another. */
  ghost predicate NoMerge(m: Mapping, accounts: seq<Account>) {
    forall id :: id in m ==> !(Known(accounts, id) && Known(accounts, m[id]))
  }

  lemma AcceptedMappingsNeverMerge(db: Database, r: Reading, allowUnknown: bool)
    requires Coherent(r) && Refuse(db, r, allowUnknown).None?
    ensures NoMerge(r.mapping, db.accounts)
  {
    forall id, a | id in r.mapping && a in db.accounts && a.uuid == r.mapping[id] ensures !Known(db.accounts, id) {
      assert !Contradicts(db, r, allowUnknown, id, a);
    }
  }

  lemma RenamedApart(m: Mapping, accounts: seq<Account>, a: Account, b: Account)
    requires Renames(m) && NoMerge(m, accounts) && a in accounts && b in accounts && a.uuid != b.uuid
    ensures Rename(m, a.uuid) != Rename(m, b.uuid)
  {
    assert Known(accounts, a.uuid) && Known(accounts, b.uuid);
  }

  lemma RenamedIsCanonical(m: Mapping, uuid: string)
    requires ValidMapping(m) && (uuid in m || CanonicalUuid(uuid))
    ensures CanonicalUuid(Rename(m, uuid))
  {
    assert uuid in m ==> ValidTarget(m[uuid]);
  }

  /** Accounts stay apart, keep their kinds, and are all canonical UUIDs afterwards. */
  lemma AccountsStayApart(db: Database, r: Reading, allowUnknown: bool)
    requires Coherent(r) && ValidMapping(r.mapping) && Refuse(db, r, allowUnknown).None? && AccountsApart(db.accounts)
    ensures AccountsApart(Migrated(db, r).accounts)
    ensures forall a :: a in Migrated(db, r).accounts ==> CanonicalUuid(a.uuid)
  {
    var before, after := db.accounts, RenameAccounts(r.mapping, db.accounts);
    AcceptedMappingsNeverMerge(db, r, allowUnknown);
    forall i, j | 0 <= i < j < |after| ensures after[i].uuid != after[j].uuid {
      RenamedApart(r.mapping, before, before[i], before[j]);
    }
    forall a | a in after ensures CanonicalUuid(a.uuid) {
      var i :| 0 <= i < |before| && a == after[i];
      assert before[i] in before;
      RenamedIsCanonical(r.mapping, before[i].uuid);
    }
  }

  lemma RecordedStaysInjective(ledger: map<string, Applied>, r: Reading)
    requires Coherent(r) && Renames(r.mapping) && !TakesATarget(ledger, r.mapping) && !LedgerConflicts(ledger, r)
    requires LedgerIsInjective(ledger)
    ensures LedgerIsInjective(Recorded(r, ledger))
  {
    var after := Recorded(r, ledger);
    forall id | id in after
      ensures if id in r.mapping then after[id].target == r.mapping[id] else id in ledger && after[id] == ledger[id]
    {
      assert id in r.mapping && id in ledger ==> ledger[id] == Applied(r.mapping[id], r.kinds[id]);
    }
  }

  /** The ledger never names one target for two sources, keeps its entries and gains those of the mapping. */
  lemma LedgerStaysInjective(db: Database, r: Reading, allowUnknown: bool)
    requires Coherent(r) && Renames(r.mapping) && Refuse(db, r, allowUnknown).None?
    requires LedgerIsInjective(db.ledger)
    ensures LedgerIsInjective(Migrated(db, r).ledger)
    ensures forall id :: id in r.mapping ==>
              id in Migrated(db, r).ledger && Migrated(db, r).ledger[id] == Applied(r.mapping[id], r.kinds[id])
    ensures forall id :: id in db.ledger ==> id in Migrated(db, r).ledger && Migrated(db, r).ledger[id] == db.ledger[id]
  {
    RecordedStaysInjective(db.ledger, r);
  }

  // Accounts at an identity the ledger retired are refused for good.

  ghost predicate ChainFree(ledger: map<string, Applied>) {
    forall id :: id in ledger ==> ledger[id].target !in ledger
  }

  /** No source was a target before, and no target a source. */
  ghost predicate LinksUp(ledger: map<string, Applied>, m: Mapping) {
    || (exists id :: id in m && m[id] in ledger)
    || (exists id :: id in ledger && ledger[id].target in m)
  }

  /** The ledger stays free of chains exactly when the mapping links up with it at neither end. */
  lemma LedgerStaysChainFreeExactly(db: Database, r: Reading, allowUnknown: bool)
    requires Coherent(r) && Renames(r.mapping) && Refuse(db, r, allowUnknown).None? && ChainFree(db.ledger)
    ensures ChainFree(Migrated(db, r).ledger) <==> !LinksUp(db.ledger, r.mapping)
  {
    var after := Migrated(db, r).ledger;
    RecordedEntries(db.ledger, r);
    if id :| id in r.mapping && r.mapping[id] in db.ledger {
      assert after[id].target in after;
    }
    if id :| id in db.ledger && db.ledger[id].target in r.mapping {
      assert after[id].target in after;
    }
  }

  lemma RecordedEntries(ledger: map<string, Applied>, r: Reading)
    requires Coherent(r) && !LedgerConflicts(ledger, r)
    ensures Recorded(r, ledger).Keys == ledger.Keys + r.mapping.Keys
    ensures forall id :: id in r.mapping ==> Recorded(r, ledger)[id].target == r.mapping[id]
    ensures forall id :: id in ledger ==> Recorded(r, ledger)[id] == ledger[id]
  {
    assert forall id :: id in r.mapping && id in ledger ==> ledger[id] == Applied(r.mapping[id], r.kinds[id]);
  }

  /** Tokens of an account at an identity the ledger lists as old are refused. */
  predicate Fenced(db: Database, a: Account) {
    a.uuid in db.ledger
  }

  /** A migration locks an account out exactly when it moves it to an identity that was migrated away before. */
  lemma NobodyIsLockedOutExactly(db: Database, r: Reading, allowUnknown: bool)
    requires Coherent(r) && Renames(r.mapping) && Refuse(db, r, allowUnknown).None?
    requires forall a :: a in db.accounts && a.uuid !in r.mapping ==> !Fenced(db, a)
    ensures (forall a :: a in Migrated(db, r).accounts ==> !Fenced(Migrated(db, r), a)) <==>
              forall a :: a in db.accounts && a.uuid in r.mapping ==> r.mapping[a.uuid] !in db.ledger
  {
    var before, after, m := db.accounts, Migrated(db, r), r.mapping;
    RecordedEntries(db.ledger, r);
    forall i | 0 <= i < |before|
      ensures Fenced(after, after.accounts[i]) <==> before[i].uuid in m && m[before[i].uuid] in db.ledger
    {
      assert before[i] in before && after.accounts[i] in after.accounts;
    }
    if a :| a in before && a.uuid in m && m[a.uuid] in db.ledger {
      var i :| 0 <= i < |before| && before[i] == a;
      assert after.accounts[i] in after.accounts;
    }
  }

  /** Such a mapping passes every check: `a` was migrated to `b`, and now `c` is migrated to `a`. */
  lemma ChainedMappingIsAccepted(a: string, b: string, c: string)
    requires ValidTarget(a) && ValidTarget(b) && ValidSource(c) && a != b && a != c && b != c
    ensures var db := Database([Account(b, Some("carbon")), Account(c, Some("silicon"))], map[], map[],
                               map[a := Applied(b, "carbon")]);
            var r := Reading(map[c := a], map[c := "silicon"]);
            && ValidMapping(r.mapping) && Refuse(db, r, false).None?
            && Migrated(db, r).accounts[1] == Account(a, Some("silicon"))
            && Fenced(Migrated(db, r), Migrated(db, r).accounts[1])
  {
    var r := Reading(map[c := a], map[c := "silicon"]);
    assert c in r.mapping && r.mapping[c] == a;
    assert forall v :: v in r.mapping.Values ==> v == a;
  }

  lemma SecondRunFindsNothingToRename(db: Database, r: Reading)
    requires Coherent(r) && Renames(r.mapping)
    ensures Migrated(Migrated(db, r), r) == Migrated(db, r)
  {
    var m, once := r.mapping, Migrated(db, r);
    forall i | 0 <= i < |db.accounts| ensures Rename(m, once.accounts[i].uuid) == once.accounts[i].uuid {
      RenamedTwice(m, db.accounts[i].uuid);
    }
    assert RenameAccounts(m, once.accounts) == once.accounts;
    forall c | c in db.columns ensures RenameColumn(m, once.columns[c]) == once.columns[c] {
      ColumnRenamedTwice(m, db.columns[c]);
    }
    forall c | c in db.documents ensures RewriteAll(m, once.documents[c]) == once.documents[c] {
      RewrittenTwice(m, db.documents[c]);
    }
    assert Migrated(once, r).columns == once.columns;
    assert Migrated(once, r).documents == once.documents;
    assert Recorded(r, once.ledger) == once.ledger;
  }

  lemma SecondRunContradictsNobody(db: Database, r: Reading, allowUnknown: bool, id: string, i: nat)
    requires Coherent(r) && Renames(r.mapping) && id in r.mapping && i < |db.accounts|
    requires !Contradicts(db, r, allowUnknown, id, db.accounts[i])
    ensures !Contradicts(Migrated(db, r), r, allowUnknown, id, Migrated(db, r).accounts[i])
  {
    NothingRemains(db, r);
    RenamedTwice(r.mapping, db.accounts[i].uuid);
    assert Migrated(db, r).accounts[i] in Migrated(db, r).accounts;
  }

  lemma SecondRunPassesTheLedger(db: Database, r: Reading)
    requires Coherent(r) && !LedgerConflicts(db.ledger, r) && !TakesATarget(db.ledger, r.mapping)
    ensures !LedgerConflicts(Migrated(db, r).ledger, r) && !TakesATarget(Migrated(db, r).ledger, r.mapping)
  {
  }

  lemma SecondRunMatches(db: Database, r: Reading, allowUnknown: bool)
    requires Coherent(r) && Renames(r.mapping) && !Mismatched(db, r, allowUnknown)
    ensures !Mismatched(Migrated(db, r), r, allowUnknown)
  {
    forall id, a | id in r.mapping && a in Migrated(db, r).accounts
      ensures !Contradicts(Migrated(db, r), r, allowUnknown, id, a)
    {
      var i :| 0 <= i < |db.accounts| && a == Migrated(db, r).accounts[i];
      assert db.accounts[i] in db.accounts;
      SecondRunContradictsNobody(db, r, allowUnknown, id, i);
    }
  }

  lemma SecondRunOmitsNobody(db: Database, r: Reading)
    requires Coherent(r) && ValidMapping(r.mapping) && !Omits(db.accounts, r.mapping)
    ensures !Omits(Migrated(db, r).accounts, r.mapping)
  {
    forall a | a in Migrated(db, r).accounts ensures CanonicalUuid(a.uuid) {
      var i :| 0 <= i < |db.accounts| && a == Migrated(db, r).accounts[i];
      assert db.accounts[i] in db.accounts;
      RenamedIsCanonical(r.mapping, db.accounts[i].uuid);
    }
  }

  /** Running the same mapping again is accepted and changes nothing. */
  lemma SecondRunChangesNothing(db: Database, r: Reading, allowUnknown: bool)
    requires Coherent(r) && ValidMapping(r.mapping) && Refuse(db, r, allowUnknown).None?
    ensures Refuse(Migrated(db, r), r, allowUnknown).None?
    ensures Migrated(Migrated(db, r), r) == Migrated(db, r)
  {
    SecondRunFindsNothingToRename(db, r);
    SecondRunPassesTheLedger(db, r);
    SecondRunMatches(db, r, allowUnknown);
    SecondRunOmitsNobody(db, r);
  }

  // Unique keys over several columns, some of which hold identities of known accounts.

  function RenameRow(m: Mapping, identities: set<nat>, row: seq<Cell>): seq<Cell> {
    seq(|row|, i requires 0 <= i < |row| => if i in identities then RenameCell(m, row[i]) else row[i])
  }

  ghost predicate UniqueRows(rows: seq<seq<Cell>>) {
    forall i, j :: 0 <= i < j < |rows| && (forall c :: c in rows[i] ==> c.Some?) ==> rows[i] != rows[j]
  }

  ghost predicate Refers(accounts: seq<Account>, identities: set<nat>, row: seq<Cell>) {
    forall i :: i in identities && i < |row| && row[i].Some? ==> Known(accounts, row[i].value)
  }

  function RenameRows(m: Mapping, identities: set<nat>, rows: seq<seq<Cell>>): seq<seq<Cell>> {
    seq(|rows|, i requires 0 <= i < |rows| => RenameRow(m, identities, rows[i]))
  }

  lemma RowsStayApart(m: Mapping, accounts: seq<Account>, identities: set<nat>, a: seq<Cell>, b: seq<Cell>)
    requires Renames(m) && NoMerge(m, accounts)
    requires Refers(accounts, identities, a) && Refers(accounts, identities, b)
    requires RenameRow(m, identities, a) == RenameRow(m, identities, b)
    ensures a == b
  {
    var x, y := RenameRow(m, identities, a), RenameRow(m, identities, b);
    assert |a| == |x| == |y| == |b|;
    forall i | 0 <= i < |a| ensures a[i] == b[i] {
      assert x[i] == y[i];
      if i in identities && a[i].Some? && b[i].Some? {
        assert Known(accounts, a[i].value) && Known(accounts, b[i].value);
      }
    }
  }

  /** Rows that refer to known accounts never merge, so every unique key over them survives. */
  lemma UniqueKeysSurvive(db: Database, r: Reading, allowUnknown: bool, identities: set<nat>, rows: seq<seq<Cell>>)
    requires Coherent(r) && Renames(r.mapping) && Refuse(db, r, allowUnknown).None?
    requires UniqueRows(rows) && forall row :: row in rows ==> Refers(db.accounts, identities, row)
    ensures UniqueRows(RenameRows(r.mapping, identities, rows))
  {
    var after := RenameRows(r.mapping, identities, rows);
    AcceptedMappingsNeverMerge(db, r, allowUnknown);
    forall i, j | 0 <= i < j < |after| && (forall c: Cell :: c in after[i] ==> c.Some?) ensures after[i] != after[j] {
      assert rows[i] in rows && rows[j] in rows;
      forall c | c in rows[i] ensures c.Some? {
        var k :| 0 <= k < |rows[i]| && rows[i][k] == c;
        assert after[i][k] in after[i];
      }
      if after[i] == after[j] { RowsStayApart(r.mapping, db.accounts, identities, rows[i], rows[j]); }
    }
  }

  // ---------------------------------------------------------------------------
  // What is accepted, and what it does, without the script's own terms.
  // ---------------------------------------------------------------------------

  /** A recorded kind must be the mapped one; an account without a kind passes only where that is allowed. */
  predicate KindFits(a: Account, kind: string, allowUnknown: bool) {
    if a.kind.Some? then a.kind.value == kind else allowUnknown
  }

  /** Every account is mapped or canonical, and the mapped ones have the mapped kind. */
  ghost predicate AccountsCovered(db: Database, r: Reading, allowUnknown: bool)
    requires Coherent(r)
  {
    forall a :: a in db.accounts ==>
      if a.uuid in r.mapping then KindFits(a, r.kinds[a.uuid], allowUnknown) else CanonicalUuid(a.uuid)
  }

  /** An account stands at a target only after that renaming was applied, with the mapped kind and no source left. */
  ghost predicate TargetsFree(db: Database, r: Reading, allowUnknown: bool)
    requires Coherent(r)
  {
    forall id, a :: id in r.mapping && a in db.accounts && a.uuid == r.mapping[id] ==>
      id in db.ledger && KindFits(a, r.kinds[id], allowUnknown) && forall b :: b in db.accounts ==> b.uuid != id
  }

  /** What was applied before is repeated as it was, or left alone. */
  ghost predicate LedgerAgrees(ledger: map<string, Applied>, r: Reading)
    requires Coherent(r)
  {
    forall id :: id in ledger ==>
      if id in r.mapping then ledger[id].target == r.mapping[id] && ledger[id].kind == r.kinds[id]
      else forall source :: source in r.mapping ==> r.mapping[source] != ledger[id].target
  }

  lemma KnownMeans(accounts: seq<Account>, id: string)
    ensures Known(accounts, id) <==> !forall b :: b in accounts ==> b.uuid != id
  {
  }

  lemma LedgerAgreesExactly(ledger: map<string, Applied>, r: Reading)
    requires Coherent(r)
    ensures LedgerAgrees(ledger, r) <==> !LedgerConflicts(ledger, r) && !TakesATarget(ledger, r.mapping)
  {
    forall id | id in ledger && id !in r.mapping
      ensures ledger[id].target in r.mapping.Values <==>
                !forall source :: source in r.mapping ==> r.mapping[source] != ledger[id].target
    {
    }
  }

  lemma AccountsAgreeExactly(db: Database, r: Reading, allowUnknown: bool)
    requires Coherent(r) && !Omits(db.accounts, r.mapping)
    ensures AccountsCovered(db, r, allowUnknown) && TargetsFree(db, r, allowUnknown) <==>
              !Mismatched(db, r, allowUnknown)
  {
    forall id | id in r.mapping ensures Known(db.accounts, id) <==> !forall b :: b in db.accounts ==> b.uuid != id {
      KnownMeans(db.accounts, id);
    }
    if !Mismatched(db, r, allowUnknown) {
      forall id, a | id in r.mapping && a in db.accounts ensures !Contradicts(db, r, allowUnknown, id, a) {
      }
      forall a | a in db.accounts && a.uuid in r.mapping ensures KindFits(a, r.kinds[a.uuid], allowUnknown) {
        assert !Contradicts(db, r, allowUnknown, a.uuid, a);
      }
      forall id, a | id in r.mapping && a in db.accounts && a.uuid == r.mapping[id]
        ensures id in db.ledger && KindFits(a, r.kinds[id], allowUnknown) && !Known(db.accounts, id)
      {
        assert !Contradicts(db, r, allowUnknown, id, a);
      }
    }
  }

  /** The migration goes ahead exactly when accounts, targets and ledger are as they must be. */
  lemma AcceptedExactly(db: Database, r: Reading, allowUnknown: bool)
    requires Coherent(r)
    ensures Refuse(db, r, allowUnknown).None? <==>
              AccountsCovered(db, r, allowUnknown) && TargetsFree(db, r, allowUnknown) && LedgerAgrees(db.ledger, r)
  {
    LedgerAgreesExactly(db.ledger, r);
    if !Omits(db.accounts, r.mapping) {
      AccountsAgreeExactly(db, r, allowUnknown);
    } else {
      var a :| a in db.accounts && a.uuid !in r.mapping && !CanonicalUuid(a.uuid);
      assert !AccountsCovered(db, r, allowUnknown);
    }
  }

  /** Accounts keep their order and kind, columns their cells and nulls; a uuid changes exactly where it is mapped. */
  lemma OnlyMappedIdentitiesMove(db: Database, r: Reading, i: nat, c: string)
    requires Coherent(r)
    ensures var after := Migrated(db, r);
            && |after.accounts| == |db.accounts|
            && (i < |db.accounts| ==>
                  && after.accounts[i].kind == db.accounts[i].kind
                  && after.accounts[i].uuid ==
                     if db.accounts[i].uuid in r.mapping then r.mapping[db.accounts[i].uuid] else db.accounts[i].uuid)
            && (c in after.columns <==> c in db.columns) && (c in after.documents <==> c in db.documents)
            && (c in db.columns ==> |after.columns[c]| == |db.columns[c]|)
            && (c in db.columns && i < |db.columns[c]| ==>
                  after.columns[c][i] ==
                  match db.columns[c][i]
                  case Some(id) => if id in r.mapping then Some(r.mapping[id]) else Some(id)
                  case None => None)
  {
  }
}
