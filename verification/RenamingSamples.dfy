/** What renaming does to objects written out in full: which members are identities, and which are not. */
module RenamingSamples {
  import opened Common
  import opened Identifiers
  import opened Json
  import opened IdentityRenaming

  function Text(text: string): Json {
    String(text)
  }

  /** The member alone in an object, or beside members that say what the object describes. */
  function Sole(key: string, value: Json): Json {
    Object([Member(key, value)])
  }

  function Described(field: string, what: string, key: string, value: Json): Json {
    Object([Member(field, Text(what)), Member(key, value)])
  }

  /** The names under which a text is always an account identity. */
  predicate NamesAnAccount(key: string) {
    || key == "uuid" || key == "account_uuid" || key == "custodian_uuid" || key == "actor_account"
    || key == "owner_account" || key == "assigned_by_account" || key == "assigned_to_account"
    || key == "participant_account" || key == "silicon_account" || key == "allowed_account"
    || key == "created_by_account" || key == "updated_by_account" || key == "added_by_account"
    || key == "removed_by_account" || key == "deleted_by_account"
  }

  lemma SoleMembers(key: string, value: Json)
    ensures !Typed([Member(key, value)]) || key == "type" || key == "kind"
  {
    assert IndexOf([Member(key, value)], "type", 0) == if key == "type" then 0 else 1;
    assert IndexOf([Member(key, value)], "kind", 0) == if key == "kind" then 0 else 1;
  }

  /** Alone in an object, a mapped identity is renamed under fifteen names exactly; elsewhere it is a plain text. */
  lemma SoleIdentitiesAreRenamedExactly(key: string, id: string, m: Mapping)
    requires id in m && m[id] != id && Colon(id) == |id|
    ensures Rewrite(Sole(key, Text(id)), m) == Sole(key, Text(if NamesAnAccount(key) then m[id] else id))
  {
    var members := [Member(key, Text(id))];
    SoleMembers(key, Text(id));
    assert key == "type" || key == "kind" ==> key !in IDENTITY_KEYS && key != "id";
    assert key in IDENTITY_KEYS <==> NamesAnAccount(key);
    assert Rewrite(members[0].value, m) == members[0].value;
    assert Rewrite(Object(members), m).members[0] == RewriteMember(members[0], Typed(members), m);
    assert Rewrite(Object(members), m).members == [RewriteMember(members[0], Typed(members), m)];
  }

  lemma DescribedMembers(field: string, what: string, key: string, value: Json)
    requires (field == "type" || field == "kind") && key != "type" && key != "kind"
    ensures Typed([Member(field, Text(what)), Member(key, value)]) <==> what == "carbon" || what == "silicon"
  {
    var members := [Member(field, Text(what)), Member(key, value)];
    assert members[0].key == field && members[1].key == key;
    assert IndexOf(members, field, 0) == 0;
    if field == "kind" {
      assert IndexOf(members, "type", 0) == IndexOf(members, "type", 1) == IndexOf(members, "type", 2);
    }
  }

  /** In an object described as a Carbon or a Silicon, by its type or its kind, the id is an identity too. */
  lemma DescribedIdsAreRenamedExactly(field: string, what: string, key: string, id: string, m: Mapping)
    requires (field == "type" || field == "kind") && key != "type" && key != "kind"
    requires id in m && m[id] != id && Colon(id) == |id|
    ensures var renamed := NamesAnAccount(key) || (key == "id" && (what == "carbon" || what == "silicon"));
            Rewrite(Described(field, what, key, Text(id)), m)
            == Described(field, what, key, Text(if renamed then m[id] else id))
  {
    var members := [Member(field, Text(what)), Member(key, Text(id))];
    DescribedMembers(field, what, key, Text(id));
    assert key in IDENTITY_KEYS <==> NamesAnAccount(key);
    assert field !in IDENTITY_KEYS && field != "id" && field != "membership_id";
    assert members[0].key == field && members[1].key == key;
    assert RewriteMember(members[0], Typed(members), m) == members[0];
    var all := Rewrite(Object(members), m).members;
    assert all == [RewriteMember(members[0], Typed(members), m), RewriteMember(members[1], Typed(members), m)];
  }

  /** A type other than an account's hides what the kind says. */
  lemma TypeComesBeforeKind(t: string, k: string, id: string, m: Mapping)
    requires id in m && m[id] != id
    ensures Rewrite(Object([Member("kind", Text(k)), Member("type", Text(t)), Member("id", Text(id))]), m)
            == Object([Member("kind", Text(k)), Member("type", Text(t)),
                       Member("id", Text(if t == "carbon" || t == "silicon" then m[id] else id))])
  {
    var members := [Member("kind", Text(k)), Member("type", Text(t)), Member("id", Text(id))];
    assert members[0].key == "kind" && members[1].key == "type" && members[2].key == "id";
    assert IndexOf(members, "type", 0) == IndexOf(members, "type", 1) == 1;
    var typed := Typed(members);
    assert Rewrite(Object(members), m).members ==
           [RewriteMember(members[0], typed, m), RewriteMember(members[1], typed, m),
            RewriteMember(members[2], typed, m)];
    assert RewriteMember(members[0], typed, m) == members[0] && RewriteMember(members[1], typed, m) == members[1];
  }

  /** A membership keeps its app, which ends at the first colon; what follows is renamed where it is mapped. */
  lemma MembershipsKeepTheirApp(app: string, rest: string, m: Mapping)
    requires forall i :: 0 <= i < |app| ==> app[i] != ':'
    ensures Rewrite(Sole("membership_id", Text(app + ":" + rest)), m)
            == Sole("membership_id", Text(app + ":" + if rest in m then m[rest] else rest))
    ensures Rewrite(Sole("membership_id", Text(app)), m) == Sole("membership_id", Text(app))
  {
    ColonOf(app, rest);
    SoleMembers("membership_id", Text(app + ":" + rest));
    SoleMembers("membership_id", Text(app));
    var a, b := [Member("membership_id", Text(app + ":" + rest))], [Member("membership_id", Text(app))];
    assert "membership_id" !in IDENTITY_KEYS;
    assert (app + ":" + rest)[Colon(app + ":" + rest) + 1..] == rest;
    assert Rewrite(Object(a), m).members == [RewriteMember(a[0], Typed(a), m)];
    assert Rewrite(Object(b), m).members == [RewriteMember(b[0], Typed(b), m)];
    assert Rewrite(Text(app), m) == Text(app);
  }

  // ---------------------------------------------------------------------------
  // A whole document, before and after.
  // ---------------------------------------------------------------------------

  function Actor(uuid: string): Json {
    Object([Member("type", Text("carbon")), Member("id", Text("c:ada")), Member("uuid", Text(uuid))])
  }

  function Participants(id: string): Json {
    Array([Object([Member("type", Text("silicon")), Member("id", Text(id))])])
  }

  /** Where the document means the account it has `account`; everywhere else, `text`. */
  function Document(text: string, account: string): Json {
    Object([
      Member("actor", Actor(account)), Member("title", Text(text)), Member("description", Text(text)),
      Member("object_id", Text(text)), Member("membership_id", Text("commit:" + account)),
      Member("participants", Participants(account)), Member("resource", Sole("id", Text(text)))])
  }

  lemma ActorIsRenamed(id: string, m: Mapping)
    requires id in m && "c:ada" !in m
    ensures Rewrite(Actor(id), m) == Actor(m[id])
  {
    var members := Actor(id).members;
    assert members[0].key == "type" && members[1].key == "id" && members[2].key == "uuid";
    assert Typed(members) by { assert IndexOf(members, "type", 0) == 0; }
    assert Rewrite(Actor(id), m).members ==
           [RewriteMember(members[0], true, m), RewriteMember(members[1], true, m), RewriteMember(members[2], true, m)];
    assert RewriteMember(members[0], true, m) == members[0] && RewriteMember(members[1], true, m) == members[1];
  }

  lemma ParticipantsAreRenamed(id: string, m: Mapping)
    requires id in m && m[id] != id && Colon(id) == |id|
    ensures Rewrite(Participants(id), m) == Participants(m[id])
  {
    DescribedIdsAreRenamedExactly("type", "silicon", "id", id, m);
    var items := Participants(id).items;
    assert items[0] == Described("type", "silicon", "id", Text(id));
    assert Rewrite(Participants(id), m).items == [Rewrite(items[0], m)];
  }

  lemma PlainMembersStay(member: Member, m: Mapping)
    requires member.key !in IDENTITY_KEYS && member.key != "id" && member.key != "membership_id"
    ensures RewriteMember(member, false, m) == member.(value := Rewrite(member.value, m))
  {
  }

  lemma DocumentIsUntyped(text: string, account: string)
    ensures !Typed(Document(text, account).members)
  {
    var members := Document(text, account).members;
    NoKey(members, "type", 0);
    NoKey(members, "kind", 0);
  }

  lemma NoKey(members: seq<Member>, key: string, i: nat)
    requires i <= |members| && forall k :: i <= k < |members| ==> members[k].key != key
    ensures IndexOf(members, key, i) == |members|
    decreases |members| - i
  {
    if i < |members| { NoKey(members, key, i + 1); }
  }

  /** Only the actor's uuid, the membership and the participant are renamed; equal texts elsewhere stay. */
  lemma OnlyIdentityFieldsChange(id: string, m: Mapping)
    requires id in m && m[id] != id && Colon(id) == |id| && "c:ada" !in m
    ensures Rewrite(Document(id, id), m) == Document(id, m[id])
  {
    var before, after := Document(id, id).members, Document(id, m[id]).members;
    DocumentIsUntyped(id, id);
    forall i | 0 <= i < 7 ensures RewriteMember(before[i], false, m) == after[i] {
      DocumentMember(id, m, i);
    }
    assert Rewrite(Object(before), m).members == after;
  }

  lemma DocumentMember(id: string, m: Mapping, i: nat)
    requires id in m && m[id] != id && Colon(id) == |id| && "c:ada" !in m && i < 7
    ensures RewriteMember(Document(id, id).members[i], false, m) == Document(id, m[id]).members[i]
  {
    var member := Document(id, id).members[i];
    if i == 0 {
      ActorIsRenamed(id, m);
    } else if i == 4 {
      MembershipIsRenamed(id, m);
    } else if i == 5 {
      ParticipantsAreRenamed(id, m);
    } else if i == 6 {
      SoleIdentitiesAreRenamedExactly("id", id, m);
    } else {
      assert Rewrite(Text(id), m) == Text(id);
    }
    if i != 4 { PlainMembersStay(member, m); }
  }

  lemma MembershipIsRenamed(id: string, m: Mapping)
    requires id in m
    ensures RewriteMember(Member("membership_id", Text("commit:" + id)), false, m)
            == Member("membership_id", Text("commit:" + m[id]))
  {
    var app := "commit";
    assert app + ":" == "commit:";
    assert app + ":" + id == "commit:" + id && app + ":" + m[id] == "commit:" + m[id];
    ColonOf(app, id);
  }

  // ---------------------------------------------------------------------------
  // Rows of a mapping file.
  // ---------------------------------------------------------------------------

  predicate HexText(text: string, length: nat) {
    |text| == length && forall i :: 0 <= i < |text| ==> text[i] in "0123456789abcdef"
  }

  lemma HexDigits(c: char)
    ensures c in "0123456789abcdef" <==> LowerHex(c)
  {
    if LowerHex(c) {
      HexDigitIs(c);
    }
  }

  lemma HexDigitIs(c: char)
    requires LowerHex(c)
    ensures c in "0123456789abcdef"
  {
    var at := if c <= '9' then c as int - '0' as int else 10 + c as int - 'a' as int;
    assert "0123456789abcdef"[at] == c;
  }

  function Hyphenated(a: string, b: string, c: string, d: string, e: string): string {
    a + "-" + b + "-" + c + "-" + d + "-" + e
  }

  lemma HyphenatedAt(a: string, b: string, c: string, d: string, e: string, i: nat)
    requires |a| == 8 && |b| == |c| == |d| == 4 && |e| == 12 && i < 36
    ensures |Hyphenated(a, b, c, d, e)| == 36
    ensures Hyphenated(a, b, c, d, e)[i] ==
              if i < 8 then a[i] else if i == 8 then '-' else if i < 13 then b[i - 9] else if i == 13 then '-'
              else if i < 18 then c[i - 14] else if i == 18 then '-' else if i < 23 then d[i - 19]
              else if i == 23 then '-' else e[i - 24]
  {
  }

  /** A target is five groups of lowercase hexadecimal digits, of version 4 and of the variant of RFC 4122. */
  lemma TargetsAreVersionFour(a: string, b: string, c: string, d: string, e: string)
    requires |a| == 8 && |b| == |c| == |d| == 4 && |e| == 12
    ensures ValidTarget(Hyphenated(a, b, c, d, e)) <==>
              && HexText(a, 8) && HexText(b, 4) && HexText(c, 4) && HexText(d, 4) && HexText(e, 12)
              && c[0] == '4' && (d[0] == '8' || d[0] == '9' || d[0] == 'a' || d[0] == 'b')
  {
    var id := Hyphenated(a, b, c, d, e);
    forall i: nat | i < 36 ensures LowerHex(id[i]) <==> id[i] in "0123456789abcdef" {
      HexDigits(id[i]);
    }
    GroupsAreHexExactly(a, b, c, d, e);
    HyphenatedAt(a, b, c, d, e, 14);
    HyphenatedAt(a, b, c, d, e, 19);
  }

  lemma GroupsAreHexExactly(a: string, b: string, c: string, d: string, e: string)
    requires |a| == 8 && |b| == |c| == |d| == 4 && |e| == 12
    ensures CanonicalUuid(Hyphenated(a, b, c, d, e)) <==>
              HexText(a, 8) && HexText(b, 4) && HexText(c, 4) && HexText(d, 4) && HexText(e, 12)
  {
    var id := Hyphenated(a, b, c, d, e);
    forall i: nat | i < 36 ensures
      id[i] == if i < 8 then a[i] else if i == 8 then '-' else if i < 13 then b[i - 9] else if i == 13 then '-'
               else if i < 18 then c[i - 14] else if i == 18 then '-' else if i < 23 then d[i - 19]
               else if i == 23 then '-' else e[i - 24]
    {
      HyphenatedAt(a, b, c, d, e, i);
    }
    forall x: char ensures x in "0123456789abcdef" <==> LowerHex(x) { HexDigits(x); }
    HyphenatedAt(a, b, c, d, e, 0);
    if CanonicalUuid(id) {
      assert forall i :: 0 <= i < 8 ==> a[i] == id[i];
      assert forall i :: 0 <= i < 4 ==> b[i] == id[i + 9] && c[i] == id[i + 14] && d[i] == id[i + 19];
      assert forall i :: 0 <= i < 12 ==> e[i] == id[i + 24];
    }
  }

  /** One row by itself: what is wrong with it, in the order in which it is looked at. */
  lemma RowsAreRefusedInOrder(source: string, target: string, kind: string)
    ensures Malformed([source, target, kind]) ==
              if !ValidSource(source) then Some(Source)
              else if !ValidTarget(target) then Some(Target)
              else if (kind != "carbon" && kind != "silicon") || source == target then Some(KindOrIdentity)
              else None
    ensures Malformed([source, target]) == Some(FieldCount) && Malformed([]) == Some(FieldCount)
  {
  }

  /** Letters and digits make a source; white space, a colon, a comma or a slash anywhere spoils it. */
  lemma SourcesAreBetween(source: string, i: nat)
    requires i < |source|
    ensures (forall k :: 0 <= k < |source| ==> Alphanumeric(source[k])) ==> ValidSource(source)
    ensures source[i] == ' ' || source[i] == '\t' || source[i] == '\n' || source[i] == '\r' ==> !ValidSource(source)
    ensures source[i] == ':' || source[i] == ',' || source[i] == '/' ==> !ValidSource(source)
  {
    assert source[i] in ":,/" <==> source[i] == ':' || source[i] == ',' || source[i] == '/' by {
      assert ":,/" == [':', ',', '/'];
    }
    assert IsSpace(' ') && IsSpace('\t') && IsSpace('\n') && IsSpace('\r');
  }
}
