/**
 * Renaming account identities: reading the mapping, rewriting the identities inside JSON documents, and
 * moving a database from the old identities to the new ones.
 */
module IdentityRenaming {
  import opened Common
  import opened Identifiers
  import opened Json
  import opened Text

  type Mapping = map<string, string>

  // ---------------------------------------------------------------------------
  // The mapping file.
  // ---------------------------------------------------------------------------

  /** White space and the four information separators. */
  predicate IsSpace(c: char) {
    IsWhiteSpace(c) || '\U{1c}' <= c <= '\U{1f}'
  }

  predicate ValidSource(id: string) {
    id != "" && forall i :: 0 <= i < |id| ==> !IsSpace(id[i]) && id[i] !in ":,/"
  }

  predicate ValidTarget(id: string) {
    CanonicalUuid(id) && id[14] == '4' && id[19] in "89ab"
  }

  predicate ValidKind(kind: string) {
    kind == "carbon" || kind == "silicon"
  }

  datatype Refusal = Header | FieldCount | Source | Target | KindOrIdentity | Duplicate | EmptyOrChained

  datatype Reading = Reading(mapping: Mapping, kinds: Mapping)

  const HEADER := ["old_uuid", "new_uuid", "kind"]

  /** What is wrong with a row by itself, if anything. */
  function Malformed(row: seq<string>): Option<Refusal> {
    if |row| != 3 then Some(FieldCount)
    else if !ValidSource(row[0]) then Some(Source)
    else if !ValidTarget(row[1]) then Some(Target)
    else if !ValidKind(row[2]) || row[0] == row[1] then Some(KindOrIdentity)
    else None
  }

  predicate Same(a: seq<string>, b: seq<string>)
    requires Malformed(a) == Malformed(b) == None
  {
    a[0] == b[0] || a[1] == b[1]
  }

  /** Every row before the `n`-th is well formed and repeats no earlier source or target. */
  ghost predicate RowsAccepted(rows: seq<seq<string>>, n: nat) {
    && n <= |rows|
    && (forall i :: 0 <= i < n ==> Malformed(rows[i]) == None)
    && (forall i, j :: 0 <= i < j < n ==> !Same(rows[i], rows[j]))
  }

  /** The `n`-th row is the first one refused, and this is why. */
  ghost predicate RefusedAt(rows: seq<seq<string>>, n: nat, why: Refusal) {
    && RowsAccepted(rows, n) && n < |rows|
    && if Malformed(rows[n]).Some? then Malformed(rows[n]) == Some(why)
       else why == Duplicate && exists i :: 0 <= i < n && Same(rows[i], rows[n])
  }

  /** No identity is both a source and a target. */
  ghost predicate Unchained(rows: seq<seq<string>>) {
    forall i, j :: 0 <= i < |rows| && 0 <= j < |rows| && |rows[i]| > 0 && |rows[j]| > 1 ==> rows[i][0] != rows[j][1]
  }

  /** `reading` holds the rows before the `n`-th, and nothing else. */
  ghost predicate Holds(reading: Reading, rows: seq<seq<string>>, n: nat)
    requires n <= |rows|
  {
    && reading.kinds.Keys == reading.mapping.Keys
    && (forall i :: 0 <= i < n ==> HoldsRow(reading, rows[i]))
    && (forall id :: id in reading.mapping ==> NamedBefore(rows, n, id))
  }

  /** A row before the `n`-th names the source. */
  ghost predicate NamedBefore(rows: seq<seq<string>>, n: nat, id: string) {
    exists i :: 0 <= i < n && i < |rows| && |rows[i]| == 3 && rows[i][0] == id
  }

  predicate HoldsRow(reading: Reading, row: seq<string>) {
    && |row| == 3
    && row[0] in reading.mapping && reading.mapping[row[0]] == row[1]
    && row[0] in reading.kinds && reading.kinds[row[0]] == row[2]
  }

  /** What the renaming relies on: nothing merges and nothing chains. */
  ghost predicate Renames(m: Mapping) {
    && (forall a, b :: a in m && b in m && m[a] == m[b] ==> a == b)
    && (forall a, b :: a in m && b in m ==> m[a] != b)
  }

  ghost predicate ValidMapping(m: Mapping) {
    m != map[] && Renames(m) && forall a :: a in m ==> ValidSource(a) && ValidTarget(m[a])
  }

  ghost function TargetsOf(rows: seq<seq<string>>, n: nat): set<string>
    requires RowsAccepted(rows, n)
  {
    set i | 0 <= i < n :: rows[i][1]
  }

  lemma ChainsShow(reading: Reading, rows: seq<seq<string>>, targets: set<string>)
    requires RowsAccepted(rows, |rows|) && Holds(reading, rows, |rows|)
    requires targets == TargetsOf(rows, |rows|)
    requires !(reading.mapping.Keys !! targets)
    ensures !Unchained(rows)
  {
    var id :| id in reading.mapping.Keys && id in targets;
    assert NamedBefore(rows, |rows|, id);
    var i :| 0 <= i < |rows| && |rows[i]| == 3 && rows[i][0] == id;
    var j :| 0 <= j < |rows| && rows[j][1] == id;
  }

  lemma TargetsDiffer(rows: seq<seq<string>>, i: nat, j: nat)
    requires RowsAccepted(rows, |rows|) && i < |rows| && j < |rows|
    ensures rows[i][1] == rows[j][1] ==> i == j
  {
    assert i < j ==> !Same(rows[i], rows[j]);
    assert j < i ==> !Same(rows[j], rows[i]);
  }

  lemma EntryComesFromARow(reading: Reading, rows: seq<seq<string>>, id: string) returns (i: nat)
    requires RowsAccepted(rows, |rows|) && Holds(reading, rows, |rows|) && id in reading.mapping
    ensures i < |rows| && HoldsRow(reading, rows[i]) && rows[i][0] == id && rows[i][1] == reading.mapping[id]
    ensures ValidSource(id) && ValidTarget(reading.mapping[id])
    ensures reading.mapping[id] in TargetsOf(rows, |rows|)
  {
    assert NamedBefore(rows, |rows|, id);
    i :| 0 <= i < |rows| && |rows[i]| == 3 && rows[i][0] == id;
    assert HoldsRow(reading, rows[i]) && Malformed(rows[i]) == None;
  }

  lemma AcceptedRowsAreValid(reading: Reading, rows: seq<seq<string>>, targets: set<string>)
    requires RowsAccepted(rows, |rows|) && Holds(reading, rows, |rows|) && reading.mapping != map[]
    requires targets == TargetsOf(rows, |rows|)
    requires reading.mapping.Keys !! targets
    ensures ValidMapping(reading.mapping) && rows != [] && Unchained(rows)
  {
    var m := reading.mapping;
    forall i | 0 <= i < |rows|
      ensures HoldsRow(reading, rows[i]) && rows[i][0] in m && rows[i][1] in targets
    {
    }
    forall a | a in m ensures ValidSource(a) && ValidTarget(m[a]) && m[a] in targets {
      var _ := EntryComesFromARow(reading, rows, a);
    }
    forall a, b | a in m && b in m && m[a] == m[b] ensures a == b {
      var i := EntryComesFromARow(reading, rows, a);
      var j := EntryComesFromARow(reading, rows, b);
      TargetsDiffer(rows, i, j);
    }
    assert rows == [] ==> m.Keys == {};
  }

  /** What the loop knows after `n` rows. */
  ghost predicate ReadSoFar(reading: Reading, targets: set<string>, rows: seq<seq<string>>, n: nat) {
    RowsAccepted(rows, n) && Holds(reading, rows, n) && targets == TargetsOf(rows, n) && |reading.mapping| == n
  }

  function Joined(reading: Reading, row: seq<string>): Reading
    requires |row| == 3
  {
    Reading(reading.mapping[row[0] := row[1]], reading.kinds[row[0] := row[2]])
  }

  lemma SeenBefore(reading: Reading, rows: seq<seq<string>>, n: nat)
    requires n < |rows| && RowsAccepted(rows, n) && Holds(reading, rows, n) && Malformed(rows[n]) == None
    ensures (rows[n][0] in reading.mapping || rows[n][1] in TargetsOf(rows, n)) <==>
              exists i :: 0 <= i < n && Same(rows[i], rows[n])
  {
  }

  lemma OneMoreAccepted(rows: seq<seq<string>>, n: nat)
    requires n < |rows| && RowsAccepted(rows, n) && Malformed(rows[n]) == None
    requires forall i :: 0 <= i < n ==> !Same(rows[i], rows[n])
    ensures RowsAccepted(rows, n + 1) && TargetsOf(rows, n + 1) == TargetsOf(rows, n) + {rows[n][1]}
  {
  }

  lemma RowJoins(reading: Reading, targets: set<string>, rows: seq<seq<string>>, n: nat)
    requires n < |rows| && ReadSoFar(reading, targets, rows, n) && Malformed(rows[n]) == None
    requires rows[n][0] !in reading.mapping && rows[n][1] !in targets
    ensures ReadSoFar(Joined(reading, rows[n]), targets + {rows[n][1]}, rows, n + 1)
  {
    SeenBefore(reading, rows, n);
    OneMoreAccepted(rows, n);
    JoinedHolds(reading, rows, n);
  }

  lemma RowRepeats(reading: Reading, targets: set<string>, rows: seq<seq<string>>, n: nat)
    requires n < |rows| && ReadSoFar(reading, targets, rows, n) && Malformed(rows[n]) == None
    requires rows[n][0] in reading.mapping || rows[n][1] in targets
    ensures RefusedAt(rows, n, Duplicate)
  {
    SeenBefore(reading, rows, n);
  }

  lemma JoinedHolds(reading: Reading, rows: seq<seq<string>>, n: nat)
    requires n < |rows| && Holds(reading, rows, n) && |rows[n]| == 3 && rows[n][0] !in reading.mapping
    ensures Holds(Joined(reading, rows[n]), rows, n + 1)
  {
    var row := rows[n];
    var joined := Joined(reading, row);
    forall i | 0 <= i < n + 1 ensures HoldsRow(joined, rows[i]) {
      if i < n { OtherRowStays(reading, row, rows[i]); }
    }
    forall id | id in joined.mapping ensures NamedBefore(rows, n + 1, id) {
      assert id != row[0] ==> NamedBefore(rows, n, id);
    }
  }

  lemma OtherRowStays(reading: Reading, row: seq<string>, other: seq<string>)
    requires HoldsRow(reading, other) && |row| == 3 && row[0] !in reading.mapping
    ensures HoldsRow(Joined(reading, row), other)
  {
  }

  lemma NothingRead(reading: Reading, targets: set<string>, rows: seq<seq<string>>)
    requires ReadSoFar(reading, targets, rows, |rows|)
    ensures reading.mapping == map[] <==> rows == []
  {
  }

  /** `rows` are the file's nonblank rows after `header`; a refusal names the row it is about. */
  method ReadMapping(header: seq<string>, rows: seq<seq<string>>) returns (r: Result<Reading, (nat, Refusal)>)
    ensures r.Ok? <==> header == HEADER && rows != [] && RowsAccepted(rows, |rows|) && Unchained(rows)
    ensures r.Ok? ==> Holds(r.value, rows, |rows|) && ValidMapping(r.value.mapping)
    ensures r.Err? && r.error.1 == Header <==> header != HEADER
    ensures r.Err? && r.error.1 == EmptyOrChained <==>
              header == HEADER && RowsAccepted(rows, |rows|) && (rows == [] || !Unchained(rows))
    ensures r.Err? && r.error.1 != Header && r.error.1 != EmptyOrChained ==> RefusedAt(rows, r.error.0, r.error.1)
  {
    if header != HEADER {
      return Err((0, Header));
    }
    var mapping: Mapping, targets: set<string>, kinds: Mapping := map[], {}, map[];
    var n := 0;
    while n < |rows|
      invariant n <= |rows| && ReadSoFar(Reading(mapping, kinds), targets, rows, n)
    {
      var row := rows[n];
      if |row| != 3 {
        return Err((n, FieldCount));
      }
      if !ValidSource(row[0]) {
        return Err((n, Source));
      }
      if !ValidTarget(row[1]) {
        return Err((n, Target));
      }
      if !ValidKind(row[2]) || row[0] == row[1] {
        return Err((n, KindOrIdentity));
      }
      if row[0] in mapping || row[1] in targets {
        RowRepeats(Reading(mapping, kinds), targets, rows, n);
        return Err((n, Duplicate));
      }
      RowJoins(Reading(mapping, kinds), targets, rows, n);
      mapping, kinds, targets := mapping[row[0] := row[1]], kinds[row[0] := row[2]], targets + {row[1]};
      n := n + 1;
    }
    NothingRead(Reading(mapping, kinds), targets, rows);
    if mapping == map[] {
      return Err((0, EmptyOrChained));
    }
    if !(mapping.Keys !! targets) {
      ChainsShow(Reading(mapping, kinds), rows, targets);
      return Err((0, EmptyOrChained));
    }
    AcceptedRowsAreValid(Reading(mapping, kinds), rows, targets);
    r := Ok(Reading(mapping, kinds));
  }

  // ---------------------------------------------------------------------------
  // Identities inside JSON documents.
  // ---------------------------------------------------------------------------

  const IDENTITY_KEYS := {
    "uuid", "account_uuid", "custodian_uuid", "actor_account", "owner_account", "assigned_by_account",
    "assigned_to_account", "participant_account", "silicon_account", "allowed_account", "created_by_account",
    "updated_by_account", "added_by_account", "removed_by_account", "deleted_by_account"
  }

  function Rename(m: Mapping, id: string): string {
    if id in m then m[id] else id
  }

  /** An object that says it describes an account: its `id` is an identity. */
  predicate Typed(members: seq<Member>) {
    var described := if Has(members, "type") then Get(members, "type") else Get(members, "kind");
    described == String("carbon") || described == String("silicon")
  }

  predicate IsIdentity(member: Member, typed: bool) {
    member.value.String? && (member.key in IDENTITY_KEYS || (typed && member.key == "id"))
  }

  predicate IsMembership(member: Member) {
    member.key == "membership_id" && member.value.String? && Colon(member.value.text) < |member.value.text|
  }

  /** The index of the first colon, or the length of the text. */
  function Colon(text: string): (at: nat)
    ensures at <= |text| && (at < |text| ==> text[at] == ':')
    ensures forall i :: 0 <= i < at ==> text[i] != ':'
  {
    if text == "" || text[0] == ':' then 0 else 1 + Colon(text[1..])
  }

  function Rewrite(value: Json, m: Mapping): Json
    decreases value
  {
    match value
    case Array(items) => Array(seq(|items|, i requires 0 <= i < |items| => Rewrite(items[i], m)))
    case Object(members) =>
      Object(seq(|members|, i requires 0 <= i < |members| => RewriteMember(members[i], Typed(members), m)))
    case _ => value
  }

  function RewriteMember(member: Member, typed: bool, m: Mapping): Member
    decreases member
  {
    if IsIdentity(member, typed) then member.(value := String(Rename(m, member.value.text)))
    else if IsMembership(member) then
      var text := member.value.text;
      var app, id := text[..Colon(text)], text[Colon(text) + 1..];
      if id in m then member.(value := String(app + ":" + m[id])) else member
    else member.(value := Rewrite(member.value, m))
  }

  /** `id` stands in an identity position of the document. */
  predicate Occurs(value: Json, id: string)
    decreases value
  {
    match value
    case Array(items) => exists i :: 0 <= i < |items| && Occurs(items[i], id)
    case Object(members) => exists i :: 0 <= i < |members| && OccursIn(members[i], Typed(members), id)
    case _ => false
  }

  predicate OccursIn(member: Member, typed: bool, id: string)
    decreases member
  {
    if IsIdentity(member, typed) then member.value.text == id
    else if IsMembership(member) then member.value.text[Colon(member.value.text) + 1..] == id
    else Occurs(member.value, id)
  }

  /** The document with another string in every identity position, and nothing else changed. */
  function Replace(value: Json, f: string -> string): Json
    decreases value
  {
    match value
    case Array(items) => Array(seq(|items|, i requires 0 <= i < |items| => Replace(items[i], f)))
    case Object(members) =>
      Object(seq(|members|, i requires 0 <= i < |members| => ReplaceIn(members[i], Typed(members), f)))
    case _ => value
  }

  function ReplaceIn(member: Member, typed: bool, f: string -> string): Member
    decreases member
  {
    if IsIdentity(member, typed) then member.(value := String(f(member.value.text)))
    else if IsMembership(member) then
      var text := member.value.text;
      member.(value := String(text[..Colon(text)] + ":" + f(text[Colon(text) + 1..])))
    else member.(value := Replace(member.value, f))
  }

  lemma {:induction false} ReplaceKeepsKind(value: Json, f: string -> string)
    ensures Replace(value, f).String? == value.String?
    ensures value.String? ==> Replace(value, f) == value
  {
  }

  lemma ColonOf(app: string, rest: string)
    requires forall i :: 0 <= i < |app| ==> app[i] != ':'
    ensures Colon(app + ":" + rest) == |app|
    ensures (app + ":" + rest)[..|app|] == app && (app + ":" + rest)[|app| + 1..] == rest
  {
    var text := app + ":" + rest;
    assert text[|app|] == ':';
    assert forall i :: 0 <= i < |app| ==> text[i] == app[i];
  }

  /** Replacing identities changes no member's key nor its role. */
  lemma RolesStay(member: Member, typed: bool, f: string -> string)
    ensures var n := ReplaceIn(member, typed, f);
            && n.key == member.key
            && IsIdentity(n, typed) == IsIdentity(member, typed)
            && (!IsIdentity(member, typed) ==> IsMembership(n) == IsMembership(member))
  {
    ReplaceKeepsKind(member.value, f);
    if !IsIdentity(member, typed) && IsMembership(member) {
      var text := member.value.text;
      ColonOf(text[..Colon(text)], f(text[Colon(text) + 1..]));
    }
  }

  lemma TypedStays(members: seq<Member>, f: string -> string)
    ensures Typed(Replace(Object(members), f).members) == Typed(members)
  {
    var replaced := Replace(Object(members), f).members;
    forall k | 0 <= k < |members|
      ensures replaced[k] == ReplaceIn(members[k], Typed(members), f) && replaced[k].key == members[k].key
    {
      RolesStay(members[k], Typed(members), f);
    }
    forall key | key == "type" || key == "kind"
      ensures Has(replaced, key) == Has(members, key)
      ensures Get(replaced, key) == String("carbon") <==> Get(members, key) == String("carbon")
      ensures Get(replaced, key) == String("silicon") <==> Get(members, key) == String("silicon")
    {
      SameKeysSameIndex(replaced, members, key, 0);
      var at := IndexOf(members, key, 0);
      if at < |members| {
        ReplaceKeepsKind(members[at].value, f);
      }
    }
  }

  /** Rewriting is exactly replacing each identity by its new name. */
  lemma {:induction false} RewriteReplaces(value: Json, m: Mapping)
    ensures Rewrite(value, m) == Replace(value, id => Rename(m, id))
    decreases value
  {
    match value
    case Array(items) =>
      forall i | 0 <= i < |items| ensures Rewrite(items[i], m) == Replace(items[i], id => Rename(m, id)) {
        RewriteReplaces(items[i], m);
      }
      assert Rewrite(value, m).items == Replace(value, id => Rename(m, id)).items;
    case Object(members) =>
      forall i | 0 <= i < |members|
        ensures RewriteMember(members[i], Typed(members), m) ==
                  ReplaceIn(members[i], Typed(members), id => Rename(m, id))
      {
        RewriteReplacesIn(members[i], Typed(members), m);
      }
      assert Rewrite(value, m).members == Replace(value, id => Rename(m, id)).members;
    case _ =>
  }

  lemma {:induction false} RewriteReplacesIn(member: Member, typed: bool, m: Mapping)
    ensures RewriteMember(member, typed, m) == ReplaceIn(member, typed, id => Rename(m, id))
    decreases member
  {
    if IsIdentity(member, typed) {
    } else if IsMembership(member) {
      var text := member.value.text;
      assert text == text[..Colon(text)] + ":" + text[Colon(text) + 1..];
    } else {
      RewriteReplaces(member.value, m);
    }
  }

  /** Two replacements one after the other are one replacement. */
  lemma {:induction false} ReplaceComposes(value: Json, f: string -> string, g: string -> string, h: string -> string)
    requires forall id :: h(id) == g(f(id))
    ensures Replace(Replace(value, f), g) == Replace(value, h)
    decreases value
  {
    match value
    case Array(items) =>
      forall i | 0 <= i < |items| ensures Replace(Replace(items[i], f), g) == Replace(items[i], h) {
        ReplaceComposes(items[i], f, g, h);
      }
      assert Replace(Replace(value, f), g).items == Replace(value, h).items;
    case Object(members) =>
      TypedStays(members, f);
      var typed := Typed(members);
      forall i | 0 <= i < |members|
        ensures ReplaceIn(ReplaceIn(members[i], typed, f), typed, g) == ReplaceIn(members[i], typed, h)
      {
        ReplaceComposesIn(members[i], typed, f, g, h);
      }
      assert Replace(Replace(value, f), g).members == Replace(value, h).members;
    case _ =>
  }

  lemma {:induction false} ReplaceComposesIn(member: Member, typed: bool,
                                             f: string -> string, g: string -> string, h: string -> string)
    requires forall id :: h(id) == g(f(id))
    ensures ReplaceIn(ReplaceIn(member, typed, f), typed, g) == ReplaceIn(member, typed, h)
    decreases member
  {
    RolesStay(member, typed, f);
    if IsIdentity(member, typed) {
    } else if IsMembership(member) {
      var text := member.value.text;
      ColonOf(text[..Colon(text)], f(text[Colon(text) + 1..]));
    } else {
      ReplaceComposes(member.value, f, g, h);
    }
  }

  ghost predicate AgreeOn(value: Json, f: string -> string, g: string -> string) {
    forall id :: Occurs(value, id) ==> f(id) == g(id)
  }

  ghost predicate AgreeIn(member: Member, typed: bool, f: string -> string, g: string -> string) {
    forall id :: OccursIn(member, typed, id) ==> f(id) == g(id)
  }

  /** Two replacements give the same document exactly when they agree on the identities in it. */
  lemma {:induction false} ReplaceIsDeterminedByOccurrences(value: Json, f: string -> string, g: string -> string)
    ensures Replace(value, f) == Replace(value, g) <==> AgreeOn(value, f, g)
    decreases value
  {
    match value
    case Array(items) =>
      forall i | 0 <= i < |items| ensures Replace(items[i], f) == Replace(items[i], g) <==> AgreeOn(items[i], f, g) {
        ReplaceIsDeterminedByOccurrences(items[i], f, g);
      }
      var a, b := Replace(value, f).items, Replace(value, g).items;
      assert a == b <==> forall i :: 0 <= i < |items| ==> a[i] == b[i];
      assert forall i :: 0 <= i < |items| ==> a[i] == Replace(items[i], f) && b[i] == Replace(items[i], g);
      if AgreeOn(value, f, g) {
        assert forall i :: 0 <= i < |items| ==> AgreeOn(items[i], f, g);
      }
    case Object(members) =>
      var typed := Typed(members);
      forall i | 0 <= i < |members|
        ensures ReplaceIn(members[i], typed, f) == ReplaceIn(members[i], typed, g) <==> AgreeIn(members[i], typed, f, g)
      {
        ReplaceIsDeterminedIn(members[i], typed, f, g);
      }
      var a, b := Replace(value, f).members, Replace(value, g).members;
      assert a == b <==> forall i :: 0 <= i < |members| ==> a[i] == b[i];
      assert forall i :: 0 <= i < |members| ==> a[i] == ReplaceIn(members[i], typed, f);
      assert forall i :: 0 <= i < |members| ==> b[i] == ReplaceIn(members[i], typed, g);
      if AgreeOn(value, f, g) {
        assert forall i :: 0 <= i < |members| ==> AgreeIn(members[i], typed, f, g);
      }
    case _ =>
  }

  lemma {:induction false} ReplaceIsDeterminedIn(member: Member, typed: bool, f: string -> string, g: string -> string)
    ensures ReplaceIn(member, typed, f) == ReplaceIn(member, typed, g) <==> AgreeIn(member, typed, f, g)
    decreases member
  {
    if IsIdentity(member, typed) {
    } else if IsMembership(member) {
      var text := member.value.text;
      var app, id := text[..Colon(text)], text[Colon(text) + 1..];
      ColonOf(app, f(id));
      ColonOf(app, g(id));
    } else {
      ReplaceIsDeterminedByOccurrences(member.value, f, g);
    }
  }

  /** The identities of the new document are the images of the identities of the old one. */
  lemma {:induction false} ReplacedOccurrences(value: Json, f: string -> string, id': string)
    ensures Occurs(Replace(value, f), id') <==> exists id :: Occurs(value, id) && f(id) == id'
    decreases value
  {
    match value
    case Array(items) =>
      forall i | 0 <= i < |items|
        ensures Occurs(Replace(items[i], f), id') <==> exists id :: Occurs(items[i], id) && f(id) == id'
      {
        ReplacedOccurrences(items[i], f, id');
      }
      var a := Replace(value, f).items;
      assert forall i :: 0 <= i < |items| ==> a[i] == Replace(items[i], f);
    case Object(members) =>
      TypedStays(members, f);
      var typed := Typed(members);
      forall i | 0 <= i < |members|
        ensures OccursIn(ReplaceIn(members[i], typed, f), typed, id') <==>
                  exists id :: OccursIn(members[i], typed, id) && f(id) == id'
      {
        ReplacedOccurrencesIn(members[i], typed, f, id');
      }
      var a := Replace(value, f).members;
      assert forall i :: 0 <= i < |members| ==> a[i] == ReplaceIn(members[i], typed, f);
    case _ =>
  }

  lemma {:induction false} ReplacedOccurrencesIn(member: Member, typed: bool, f: string -> string, id': string)
    ensures OccursIn(ReplaceIn(member, typed, f), typed, id') <==>
              exists id :: OccursIn(member, typed, id) && f(id) == id'
    decreases member
  {
    RolesStay(member, typed, f);
    if IsIdentity(member, typed) {
      assert OccursIn(member, typed, member.value.text);
    } else if IsMembership(member) {
      var text := member.value.text;
      var app, id := text[..Colon(text)], text[Colon(text) + 1..];
      ColonOf(app, f(id));
      assert OccursIn(member, typed, id);
    } else {
      ReplacedOccurrences(member.value, f, id');
      assert ReplaceIn(member, typed, f).value == Replace(member.value, f);
    }
  }

  lemma ReplaceByItself(value: Json)
    ensures Replace(value, id => id) == value
  {
    RewriteReplaces(value, map[]);
    ReplaceIsDeterminedByOccurrences(value, id => Rename(map[], id), id => id);
    RewriteByNothing(value);
  }

  lemma {:induction false} RewriteByNothing(value: Json)
    ensures Rewrite(value, map[]) == value
    decreases value
  {
    match value
    case Array(items) =>
      forall i | 0 <= i < |items| ensures Rewrite(items[i], map[]) == items[i] { RewriteByNothing(items[i]); }
      assert Rewrite(value, map[]).items == items;
    case Object(members) =>
      forall i | 0 <= i < |members| ensures RewriteMember(members[i], Typed(members), map[]) == members[i] {
        RewriteByNothing(members[i].value);
      }
      assert Rewrite(value, map[]).members == members;
    case _ =>
  }

  lemma RenamedTwice(m: Mapping, id: string)
    requires Renames(m)
    ensures Rename(m, Rename(m, id)) == Rename(m, id) && Rename(m, id) !in m
  {
  }

  // What the rewriting of every document by every mapping guarantees.

  lemma RewriteIsIdempotent(value: Json, m: Mapping)
    requires Renames(m)
    ensures Rewrite(Rewrite(value, m), m) == Rewrite(value, m)
  {
    var f := id => Rename(m, id);
    forall id ensures f(id) == f(f(id)) { RenamedTwice(m, id); }
    RewriteReplaces(value, m);
    RewriteReplaces(Rewrite(value, m), m);
    ReplaceComposes(value, f, f, f);
  }

  /** An identity stands in the new document exactly when one it is the new name of stood in the old one. */
  lemma RewriteRenamesEveryIdentity(value: Json, m: Mapping, id': string)
    ensures Occurs(Rewrite(value, m), id') <==> exists id :: Occurs(value, id) && Rename(m, id) == id'
  {
    RewriteReplaces(value, m);
    var f := id => Rename(m, id);
    ReplacedOccurrences(value, f, id');
    assert forall id :: f(id) == Rename(m, id);
  }

  lemma NoSourceRemains(value: Json, m: Mapping, id: string)
    requires Renames(m) && id in m
    ensures !Occurs(Rewrite(value, m), id)
  {
    RewriteRenamesEveryIdentity(value, m, id);
    forall s ensures Rename(m, s) != id { RenamedTwice(m, s); }
  }

  /** With every identity blanked out, the two documents are the same. */
  lemma RewriteChangesOnlyIdentities(value: Json, m: Mapping)
    ensures Replace(Rewrite(value, m), id => "") == Replace(value, id => "")
  {
    RewriteReplaces(value, m);
    ReplaceComposes(value, id => Rename(m, id), id => "", id => "");
  }

  /** A document is left as it was exactly when it holds no source. */
  lemma RewriteLeavesOthersAlone(value: Json, m: Mapping)
    requires Renames(m)
    ensures Rewrite(value, m) == value <==> forall id :: Occurs(value, id) ==> id !in m
  {
    RewriteReplaces(value, m);
    ReplaceByItself(value);
    ReplaceIsDeterminedByOccurrences(value, id => Rename(m, id), id => id);
    forall id ensures Rename(m, id) == id <==> id !in m { RenamedTwice(m, id); }
    assert AgreeOn(value, id => Rename(m, id), id => id) <==> forall id :: Occurs(value, id) ==> Rename(m, id) == id;
  }

  function Inverse(m: Mapping): Mapping
    requires forall a, b :: a in m && b in m && m[a] == m[b] ==> a == b
  {
    map a | a in m :: m[a] := a
  }

  /** The inverse mapping undoes a rewriting exactly when no target stood in the document before. */
  lemma InverseUndoesRewrite(value: Json, m: Mapping)
    requires Renames(m)
    ensures Rewrite(Rewrite(value, m), Inverse(m)) == value <==> forall id :: Occurs(value, id) ==> id !in m.Values
  {
    var f, g := id => Rename(m, id), id => Rename(Inverse(m), id);
    var h := id => Rename(Inverse(m), Rename(m, id));
    RewriteReplaces(value, m);
    RewriteReplaces(Rewrite(value, m), Inverse(m));
    ReplaceComposes(value, f, g, h);
    ReplaceByItself(value);
    ReplaceIsDeterminedByOccurrences(value, h, id => id);
    forall id ensures h(id) == id <==> id !in m.Values { RenamedBack(m, id); }
    assert AgreeOn(value, h, id => id) <==> forall id :: Occurs(value, id) ==> h(id) == id;
  }

  lemma RenamedBack(m: Mapping, id: string)
    requires Renames(m)
    ensures Rename(Inverse(m), Rename(m, id)) == id <==> id !in m.Values
  {
    if id in m {
      assert m[id] in Inverse(m) && Inverse(m)[m[id]] == id;
    } else if id in m.Values {
      var a :| a in m && m[a] == id;
      assert id in Inverse(m) && Inverse(m)[id] == a;
    }
  }

  // ---------------------------------------------------------------------------
  // Renaming the columns of a database.
  // ---------------------------------------------------------------------------

  /** A cell of an identity column; a null names nobody. */
  type Cell = Option<string>

  function RenameCell(m: Mapping, cell: Cell): Cell {
    if cell.Some? && cell.value in m then Some(m[cell.value]) else cell
  }

  function RenameColumn(m: Mapping, column: seq<Cell>): seq<Cell> {
    seq(|column|, i requires 0 <= i < |column| => RenameCell(m, column[i]))
  }

  /** How many rows one update changes. */
  function Changes(m: Mapping, column: seq<Cell>): nat {
    if column == [] then 0
    else
      var last := column[|column| - 1];
      Changes(m, column[..|column| - 1]) + if last.Some? && last.value in m then 1 else 0
  }

  method UpdateColumn(m: Mapping, column: array<Cell>) returns (changed: nat)
    modifies column
    ensures column[..] == RenameColumn(m, old(column[..]))
    ensures changed == Changes(m, old(column[..]))
  {
    changed := 0;
    var n := 0;
    while n < column.Length
      invariant 0 <= n <= column.Length
      invariant forall i :: 0 <= i < n ==> column[i] == RenameCell(m, old(column[i]))
      invariant forall i :: n <= i < column.Length ==> column[i] == old(column[i])
      invariant changed == Changes(m, old(column[..n]))
    {
      assert old(column[..n + 1])[..n] == old(column[..n]);
      if column[n].Some? && column[n].value in m {
        column[n] := Some(m[column[n].value]);
        changed := changed + 1;
      }
      n := n + 1;
    }
    assert old(column[..n]) == old(column[..]);
  }

  /** Each name a column holds is one a column it refers to holds. */
  ghost predicate ForeignKey(child: seq<Cell>, parent: seq<Cell>) {
    forall c :: c in child && c.Some? ==> c in parent
  }

  lemma ForeignKeysSurvive(m: Mapping, child: seq<Cell>, parent: seq<Cell>)
    requires ForeignKey(child, parent)
    ensures ForeignKey(RenameColumn(m, child), RenameColumn(m, parent))
  {
    forall c | c in RenameColumn(m, child) && c.Some? ensures c in RenameColumn(m, parent) {
      var i :| 0 <= i < |child| && RenameCell(m, child[i]) == c;
      assert child[i] in parent;
      var j :| 0 <= j < |parent| && parent[j] == child[i];
      assert RenameColumn(m, parent)[j] == c;
    }
  }

  ghost predicate Unique(column: seq<Cell>) {
    forall i, j :: 0 <= i < j < |column| && column[i].Some? ==> column[i] != column[j]
  }

  /** A unique column stays unique exactly when it never holds a source beside its own target. */
  lemma UniquenessSurvives(m: Mapping, column: seq<Cell>)
    requires Renames(m) && Unique(column)
    ensures Unique(RenameColumn(m, column)) <==> forall id :: id in m && Some(id) in column ==> Some(m[id]) !in column
  {
    var renamed := RenameColumn(m, column);
    if id :| id in m && Some(id) in column && Some(m[id]) in column {
      var i :| 0 <= i < |column| && column[i] == Some(id);
      var j :| 0 <= j < |column| && column[j] == Some(m[id]);
      assert renamed[i] == renamed[j] == Some(m[id]);
      assert i < j ==> !Unique(renamed);
      assert j < i ==> !Unique(renamed);
    } else {
      forall i, j | 0 <= i < j < |column| && renamed[i].Some? ensures renamed[i] != renamed[j] {
        assert renamed[i] == RenameCell(m, column[i]) && renamed[j] == RenameCell(m, column[j]);
        assert column[i] != column[j];
        assert column[i] in column && column[j] in column;
      }
    }
  }

  lemma NoSourceInColumn(m: Mapping, column: seq<Cell>, id: string)
    requires Renames(m) && id in m
    ensures Some(id) !in RenameColumn(m, column)
  {
    forall i | 0 <= i < |column| ensures RenameCell(m, column[i]) != Some(id) {
      if column[i].Some? { RenamedTwice(m, column[i].value); }
    }
  }
}
