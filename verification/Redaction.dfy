/** Removing credentials from a captured request: its headers, its JSON body at any depth, and its query. */
module Redaction {
  import opened Common
  import opened Json
  import opened Text
  import Queries

  const REDACTED := "[REDACTED]"
  const MARK := String(REDACTED)

  const SENSITIVE_NAMES := {
    "authorization", "cookie", "set-cookie", "x-hook-test-key", "x-hook-test-app-secret", "x-testing-environment-key",
    "x-testing-application", "app_secret", "testing_key", "iam_test_key", "access_token", "refresh_token",
    "client_secret"
  }

  predicate Sensitive(name: string) {
    Lower(name) in SENSITIVE_NAMES
  }

  // ---------------------------------------------------------------------------
  // JSON.
  // ---------------------------------------------------------------------------

  function Redact(value: Json): Json
    decreases value
  {
    match value
    case Object(members) => Object(seq(|members|, i requires 0 <= i < |members| => RedactMember(members[i])))
    case Array(items) => Array(seq(|items|, i requires 0 <= i < |items| => Redact(items[i])))
    case _ => value
  }

  function RedactMember(member: Member): Member
    decreases member
  {
    member.(value := if Sensitive(member.key) then MARK else Redact(member.value))
  }

  /** Every value under a sensitive key is the mark, at any depth. */
  predicate Clean(value: Json)
    decreases value
  {
    match value
    case Object(members) => forall i :: 0 <= i < |members| ==> CleanMember(members[i])
    case Array(items) => forall i :: 0 <= i < |items| ==> Clean(items[i])
    case _ => true
  }

  predicate CleanMember(member: Member)
    decreases member
  {
    if Sensitive(member.key) then member.value == MARK else Clean(member.value)
  }

  lemma {:induction false} RedactCleans(value: Json)
    ensures Clean(Redact(value))
    decreases value
  {
    match value
    case Object(members) =>
      forall i | 0 <= i < |members| ensures CleanMember(RedactMember(members[i])) {
        RedactCleans(members[i].value);
      }
    case Array(items) =>
      forall i | 0 <= i < |items| ensures Clean(Redact(items[i])) {
        RedactCleans(items[i]);
      }
    case _ =>
  }

  /** Redaction changes a value exactly when a credential is left in it. */
  lemma {:induction false} RedactKeepsExactlyTheClean(value: Json)
    ensures Redact(value) == value <==> Clean(value)
    decreases value
  {
    match value
    case Object(members) =>
      forall i | 0 <= i < |members| ensures RedactMember(members[i]) == members[i] <==> CleanMember(members[i]) {
        RedactKeepsExactlyTheClean(members[i].value);
      }
      var redacted := Redact(value).members;
      assert redacted == members <==> forall i :: 0 <= i < |members| ==> redacted[i] == members[i];
    case Array(items) =>
      forall i | 0 <= i < |items| ensures Redact(items[i]) == items[i] <==> Clean(items[i]) {
        RedactKeepsExactlyTheClean(items[i]);
      }
      var redacted := Redact(value).items;
      assert redacted == items <==> forall i :: 0 <= i < |items| ==> redacted[i] == items[i];
    case _ =>
  }

  lemma RedactIsIdempotent(value: Json)
    ensures Redact(Redact(value)) == Redact(value)
  {
    RedactCleans(value);
    RedactKeepsExactlyTheClean(Redact(value));
  }

  // Where a value stands: the index of an item or member at each level.

  function Child(value: Json, i: nat): Option<Json> {
    match value
    case Object(members) => if i < |members| then Some(members[i].value) else None
    case Array(items) => if i < |items| then Some(items[i]) else None
    case _ => None
  }

  predicate UnderSensitiveKey(value: Json, i: nat) {
    value.Object? && i < |value.members| && Sensitive(value.members[i].key)
  }

  function At(value: Json, path: seq<nat>): Option<Json>
    decreases |path|
  {
    if path == [] then Some(value)
    else
      var child := Child(value, path[0]);
      if child.None? then None else At(child.value, path[1..])
  }

  /** The path passes a sensitive key on its way. */
  predicate PassesCredential(value: Json, path: seq<nat>)
    decreases |path|
  {
    path != [] &&
    (UnderSensitiveKey(value, path[0])
     || (Child(value, path[0]).Some? && PassesCredential(Child(value, path[0]).value, path[1..])))
  }

  /** A path that passes no sensitive key leads to the same place, and to the same scalar. */
  lemma {:induction false} OtherPathsAreKept(value: Json, path: seq<nat>)
    requires !PassesCredential(value, path)
    ensures At(Redact(value), path) == (if At(value, path).None? then None else Some(Redact(At(value, path).value)))
    ensures At(value, path).Some? && !At(value, path).value.Object? && !At(value, path).value.Array? ==>
              At(Redact(value), path) == At(value, path)
    decreases |path|
  {
    if path != [] && Child(value, path[0]).Some? {
      OtherPathsAreKept(Child(value, path[0]).value, path[1..]);
    }
  }

  /** The value at the first sensitive key of a path is the mark. */
  lemma {:induction false} CredentialsAreMarked(value: Json, path: seq<nat>)
    requires path != [] && At(value, path).Some?
    requires !PassesCredential(value, path[..|path| - 1]) && PassesCredential(value, path)
    ensures At(Redact(value), path) == Some(MARK)
    decreases |path|
  {
    if |path| > 1 {
      assert path[..|path| - 1][1..] == path[1..][..|path| - 2];
      CredentialsAreMarked(Child(value, path[0]).value, path[1..]);
    } else {
      assert path[1..] == [];
    }
  }

  // ---------------------------------------------------------------------------
  // The whole request.
  // ---------------------------------------------------------------------------

  type Pair = (string, string)

  const FORM_TYPE := "application/" + "x-www-form-urlencoded"

  /** The formats a request is written in: JSON, URL queries, and URL-encoded forms. */
  datatype Formats = Formats(
    parseJson: seq<Byte> -> Option<Json>,
    printJson: Json -> Option<seq<Byte>>,
    parseQuery: string -> seq<Pair>,
    printQuery: seq<Pair> -> string,
    parseForm: seq<Byte> -> seq<Pair>)

  /** `json` and `form` hold what was last parsed of the body, when it was. */
  datatype Request = Request(
    headers: seq<Pair>, body: seq<Byte>, query: string, json: Option<Option<Json>>, form: Option<Option<seq<Pair>>>)

  function RedactPair(p: Pair): Pair {
    if Sensitive(p.0) then (p.0, REDACTED) else p
  }

  function RedactPairs(pairs: seq<Pair>): seq<Pair> {
    seq(|pairs|, i requires 0 <= i < |pairs| => RedactPair(pairs[i]))
  }

  predicate AnySensitive(pairs: seq<Pair>) {
    exists p :: p in pairs && Sensitive(p.0)
  }

  function WithoutContentLength(headers: seq<Pair>): seq<Pair> {
    if headers == [] then []
    else (if headers[0].0 == "content-length" then [] else [headers[0]]) + WithoutContentLength(headers[1..])
  }

  /** The new body, when the JSON changes and can be printed. */
  function NewBody(f: Formats, body: seq<Byte>): Option<seq<Byte>> {
    var value := f.parseJson(body);
    if value.None? || Redact(value.value) == value.value then None else f.printJson(Redact(value.value))
  }

  function WithoutCredentials(f: Formats, r: Request): Request {
    var headers := RedactPairs(r.headers);
    var body := NewBody(f, r.body);
    var afterBody :=
      if body.Some? then r.(headers := WithoutContentLength(headers), body := body.value, json := None)
      else r.(headers := headers);
    var query := f.parseQuery(r.query);
    if AnySensitive(query) then afterBody.(query := f.printQuery(RedactPairs(query)), form := None) else afterBody
  }

  class CapturedRequest {
    var headers: seq<Pair>
    var body: seq<Byte>
    var query: string
    var json: Option<Option<Json>>
    var form: Option<Option<seq<Pair>>>

    ghost function View(): Request
      reads this
    {
      Request(headers, body, query, json, form)
    }

    method RedactHeaders()
      modifies this`headers
      ensures headers == RedactPairs(old(headers))
    {
      var i := 0;
      while i < |headers|
        invariant 0 <= i <= |headers| == old(|headers|)
        invariant forall j :: 0 <= j < i ==> headers[j] == RedactPair(old(headers)[j])
        invariant forall j :: i <= j < |headers| ==> headers[j] == old(headers)[j]
      {
        if Sensitive(headers[i].0) {
          headers := headers[i := (headers[i].0, REDACTED)];
        }
        i := i + 1;
      }
    }

    method DropContentLength()
      modifies this`headers
      ensures headers == WithoutContentLength(old(headers))
    {
      var kept := [];
      var i := 0;
      while i < |headers|
        invariant 0 <= i <= |headers|
        invariant WithoutContentLength(headers) == kept + WithoutContentLength(headers[i..])
      {
        assert headers[i..][1..] == headers[i + 1..];
        if headers[i].0 != "content-length" {
          kept := kept + [headers[i]];
        }
        i := i + 1;
      }
      headers := kept;
    }

    method RemoveCredentials(f: Formats)
      modifies this
      ensures View() == WithoutCredentials(f, old(View()))
    {
      RedactHeaders();
      var value := f.parseJson(body);
      if value.Some? {
        var redacted := Redact(value.value);
        if redacted != value.value {
          var bytes := f.printJson(redacted);
          if bytes.Some? {
            body := bytes.value;
            DropContentLength();
            json := None;
          }
        }
      }
      var pairs := f.parseQuery(query);
      if AnySensitive(pairs) {
        query := f.printQuery(RedactPairs(pairs));
        form := None;
      }
    }
  }

  lemma {:induction false} ContentLengthIsGone(headers: seq<Pair>, p: Pair)
    ensures p in WithoutContentLength(headers) <==> p in headers && p.0 != "content-length"
    decreases |headers|
  {
    if headers != [] {
      ContentLengthIsGone(headers[1..], p);
      assert p in headers <==> p == headers[0] || p in headers[1..];
    }
  }

  /** The body is replaced exactly when it is JSON that holds a credential; then, and only then, its length goes. */
  lemma BodyIsReplacedExactlyForCredentials(f: Formats, r: Request)
    requires forall v :: f.printJson(v).Some?
    ensures var after, value := WithoutCredentials(f, r), f.parseJson(r.body);
            if value.Some? && !Clean(value.value) then
              && Some(after.body) == f.printJson(Redact(value.value)) && after.json.None?
              && after.headers == WithoutContentLength(RedactPairs(r.headers))
            else after.body == r.body && after.json == r.json && after.headers == RedactPairs(r.headers)
  {
    if f.parseJson(r.body).Some? {
      RedactKeepsExactlyTheClean(f.parseJson(r.body).value);
    }
  }

  ghost predicate PairsClean(pairs: seq<Pair>) {
    forall p :: p in pairs && Sensitive(p.0) ==> p.1 == REDACTED
  }

  lemma RedactedPairsAreClean(pairs: seq<Pair>)
    ensures PairsClean(RedactPairs(pairs))
    ensures PairsClean(pairs) ==> RedactPairs(pairs) == pairs
    ensures AnySensitive(RedactPairs(pairs)) == AnySensitive(pairs)
  {
    assert forall i :: 0 <= i < |pairs| ==> RedactPairs(pairs)[i] == RedactPair(pairs[i]) && pairs[i] in pairs;
    if AnySensitive(pairs) {
      var i :| 0 <= i < |pairs| && Sensitive(pairs[i].0);
      assert RedactPairs(pairs)[i] in RedactPairs(pairs);
    }
  }

  /** What the formats must do: a printed query reads back, and printing a clean value hides no credential in it. */
  ghost predicate Faithful(f: Formats) {
    && (forall q :: f.parseQuery(f.printQuery(q)) == q)
    && (forall v :: f.printJson(v).Some?)
    && (forall v :: Clean(v) && f.parseJson(f.printJson(v).value).Some? ==>
          Clean(f.parseJson(f.printJson(v).value).value))
  }

  lemma CleanedBodyIsClean(f: Formats, r: Request)
    requires Faithful(f)
    ensures NewBody(f, WithoutCredentials(f, r).body).None?
  {
    var value := f.parseJson(r.body);
    if value.Some? {
      RedactCleans(value.value);
      RedactKeepsExactlyTheClean(value.value);
      var again := f.parseJson(WithoutCredentials(f, r).body);
      if again.Some? {
        RedactKeepsExactlyTheClean(again.value);
      }
    }
  }

  /** Afterwards no header, query value or JSON value under a sensitive name holds anything but the mark. */
  lemma NoCredentialIsLeft(f: Formats, r: Request)
    requires Faithful(f)
    ensures var after := WithoutCredentials(f, r);
            && PairsClean(after.headers)
            && (AnySensitive(f.parseQuery(r.query)) ==> PairsClean(f.parseQuery(after.query)))
            && (!AnySensitive(f.parseQuery(r.query)) ==>
                  after.query == r.query && !AnySensitive(f.parseQuery(after.query)))
            && (f.parseJson(after.body).Some? ==> Clean(f.parseJson(after.body).value))
  {
    var after := WithoutCredentials(f, r);
    RedactedPairsAreClean(r.headers);
    RedactedPairsAreClean(f.parseQuery(r.query));
    forall p | p in after.headers && Sensitive(p.0) ensures p.1 == REDACTED {
      ContentLengthIsGone(RedactPairs(r.headers), p);
    }
    CleanedBodyIsClean(f, r);
    if f.parseJson(after.body).Some? {
      RedactKeepsExactlyTheClean(f.parseJson(after.body).value);
    }
  }

  /** Removing credentials twice is removing them once. */
  lemma RemovalIsIdempotent(f: Formats, r: Request)
    requires Faithful(f)
    ensures WithoutCredentials(f, WithoutCredentials(f, r)) == WithoutCredentials(f, r)
  {
    var once := WithoutCredentials(f, r);
    NoCredentialIsLeft(f, r);
    CleanedBodyIsClean(f, r);
    RedactedPairsAreClean(once.headers);
    RedactedPairsAreClean(f.parseQuery(r.query));
    RedactedPairsAreClean(f.parseQuery(once.query));
  }

  // ---------------------------------------------------------------------------
  // The parsed copies kept beside the body.
  // ---------------------------------------------------------------------------

  ghost predicate JsonIsCurrent(f: Formats, r: Request) {
    r.json.Some? ==> r.json.value == f.parseJson(r.body)
  }

  function HeaderValues(headers: seq<Pair>, name: string): seq<string> {
    if headers == [] then []
    else (if headers[0].0 == name then [headers[0].1] else []) + HeaderValues(headers[1..], name)
  }

  /** Repeated fields are combined with a comma. */
  function Combined(values: seq<string>): string {
    if |values| == 0 then "" else if |values| == 1 then values[0] else values[0] + ", " + Combined(values[1..])
  }

  /** The media type: the content type up to its parameters, trimmed and in lower case. */
  function MediaType(headers: seq<Pair>): Option<string> {
    var values := HeaderValues(headers, "content-type");
    if values == [] then None else Some(Lower(Trim(Split(Combined(values), ';')[0])))
  }

  function FormOf(f: Formats, headers: seq<Pair>, body: seq<Byte>): Option<seq<Pair>> {
    if MediaType(headers) != Some(FORM_TYPE) then None else Some(f.parseForm(body))
  }

  ghost predicate FormIsCurrent(f: Formats, r: Request) {
    r.form.Some? ==> r.form.value == FormOf(f, r.headers, r.body)
  }

  lemma {:induction false} RedactionKeepsValues(headers: seq<Pair>, name: string)
    requires !Sensitive(name)
    ensures HeaderValues(RedactPairs(headers), name) == HeaderValues(headers, name)
    decreases |headers|
  {
    if headers != [] {
      RedactionKeepsValues(headers[1..], name);
      assert RedactPairs(headers)[1..] == RedactPairs(headers[1..]);
    }
  }

  lemma {:induction false} DroppingLengthKeepsValues(headers: seq<Pair>, name: string)
    requires name != "content-length"
    ensures HeaderValues(WithoutContentLength(headers), name) == HeaderValues(headers, name)
    decreases |headers|
  {
    if headers != [] {
      DroppingLengthKeepsValues(headers[1..], name);
      var kept, rest := WithoutContentLength(headers), WithoutContentLength(headers[1..]);
      if headers[0].0 != "content-length" {
        assert kept == [headers[0]] + rest && kept[1..] == rest;
      } else {
        assert kept == rest;
      }
    }
  }

  lemma ContentTypeIsNoCredential()
    ensures !Sensitive("content-type")
  {
    assert Lower("content-type")[3] == 't';
    assert forall n :: n in SENSITIVE_NAMES && |n| == 12 ==> n[3] != 't';
  }

  lemma MediaTypeStays(f: Formats, r: Request)
    ensures MediaType(WithoutCredentials(f, r).headers) == MediaType(r.headers)
  {
    ContentTypeIsNoCredential();
    RedactionKeepsValues(r.headers, "content-type");
    DroppingLengthKeepsValues(RedactPairs(r.headers), "content-type");
  }

  /** The guard under which a parsed form outlives its body: sent as a form, already parsed, no sensitive query name. */
  predicate FormIsKept(f: Formats, r: Request) {
    r.form.Some? && MediaType(r.headers) == Some(FORM_TYPE) && !AnySensitive(f.parseQuery(r.query))
  }

  predicate HoldsJsonCredential(f: Formats, body: seq<Byte>) {
    var value := f.parseJson(body);
    value.Some? && !Clean(value.value)
  }

  /** A body without a JSON credential, no parsed form, another media type or a sensitive query name: all is current. */
  lemma FormStaysCurrentOutsideTheGuard(f: Formats, r: Request)
    requires Faithful(f) && FormIsCurrent(f, r)
    requires !FormIsKept(f, r) || !HoldsJsonCredential(f, r.body)
    ensures FormIsCurrent(f, WithoutCredentials(f, r))
  {
    MediaTypeStays(f, r);
    BodyIsReplacedExactlyForCredentials(f, r);
  }

  /** Within the guard, a parsed form goes stale exactly when the new body reads as another form. */
  lemma FormGoesStaleExactly(f: Formats, r: Request)
    requires Faithful(f) && FormIsCurrent(f, r)
    ensures !FormIsCurrent(f, WithoutCredentials(f, r)) <==>
              && FormIsKept(f, r) && HoldsJsonCredential(f, r.body)
              && f.parseForm(f.printJson(Redact(f.parseJson(r.body).value)).value) != f.parseForm(r.body)
  {
    MediaTypeStays(f, r);
    BodyIsReplacedExactlyForCredentials(f, r);
    if FormIsKept(f, r) && HoldsJsonCredential(f, r.body) {
      assert WithoutCredentials(f, r).form == r.form;
    } else {
      FormStaysCurrentOutsideTheGuard(f, r);
    }
  }

  // ---------------------------------------------------------------------------
  // Which names are sensitive, and everything that stays.
  // ---------------------------------------------------------------------------

  /** The name is this word, in any mixture of capitals and small letters. */
  predicate SpelledAs(name: string, word: string) {
    |name| == |word| &&
    forall i :: 0 <= i < |name| ==>
      name[i] == word[i] || ('A' <= name[i] <= 'Z' && 'a' <= word[i] <= 'z' && name[i] - 'A' == word[i] - 'a')
  }

  predicate HasNoCapital(word: string) {
    forall i :: 0 <= i < |word| ==> !('A' <= word[i] <= 'Z')
  }

  lemma LoweredIsSpelled(name: string, word: string)
    requires HasNoCapital(word)
    ensures Lower(name) == word <==> SpelledAs(name, word)
  {
    if SpelledAs(name, word) {
      forall i | 0 <= i < |name| ensures Lower(name)[i] == word[i] {
      }
    }
    if Lower(name) == word {
      forall i | 0 <= i < |name|
        ensures name[i] == word[i] || ('A' <= name[i] <= 'Z' && 'a' <= word[i] <= 'z' && name[i] - 'A' == word[i] - 'a')
      {
        assert Lower(name)[i] == word[i];
      }
    }
  }

  const HEADER_WORDS := {
    "authorization", "cookie", "set-cookie", "x-hook-test-key", "x-hook-test-app-secret", "x-testing-environment-key",
    "x-testing-application"
  }

  const FIELD_WORDS := {
    "app_secret", "testing_key", "iam_test_key", "access_token", "refresh_token", "client_secret"
  }

  lemma HeaderWordsHaveNoCapital(word: string)
    requires word in HEADER_WORDS
    ensures HasNoCapital(word)
  {
    assert HasNoCapital("authorization") && HasNoCapital("cookie") && HasNoCapital("set-cookie");
    TestHeadersHaveNoCapital();
  }

  lemma TestHeadersHaveNoCapital()
    ensures HasNoCapital("x-hook-test-key") && HasNoCapital("x-hook-test-app-secret")
    ensures HasNoCapital("x-testing-environment-key") && HasNoCapital("x-testing-application")
  {
  }

  lemma FieldWordsHaveNoCapital(word: string)
    requires word in FIELD_WORDS
    ensures HasNoCapital(word)
  {
    assert HasNoCapital("app_secret") && HasNoCapital("testing_key") && HasNoCapital("iam_test_key");
    assert HasNoCapital("access_token") && HasNoCapital("refresh_token") && HasNoCapital("client_secret");
  }

  /** Thirteen names are sensitive, however they are capitalized, and no other is. */
  lemma SensitiveExactlyInAnyCase(name: string)
    ensures Sensitive(name) <==> exists word :: word in HEADER_WORDS + FIELD_WORDS && SpelledAs(name, word)
  {
    assert SENSITIVE_NAMES == HEADER_WORDS + FIELD_WORDS;
    forall word | word in HEADER_WORDS + FIELD_WORDS ensures Lower(name) == word <==> SpelledAs(name, word) {
      if word in HEADER_WORDS { HeaderWordsHaveNoCapital(word); } else { FieldWordsHaveNoCapital(word); }
      LoweredIsSpelled(name, word);
    }
  }

  /** Past no credential, an object keeps its names and an array its length. */
  lemma NamesAreKept(value: Json, path: seq<nat>, i: nat)
    requires !PassesCredential(value, path) && At(value, path).Some?
    ensures var was, now := At(value, path).value, At(Redact(value), path);
            && now.Some?
            && (was.Object? ==> now.value.Object? && |now.value.members| == |was.members|)
            && (was.Object? && i < |was.members| ==> now.value.members[i].key == was.members[i].key)
            && (was.Array? ==> now.value.Array? && |now.value.items| == |was.items|)
  {
    OtherPathsAreKept(value, path);
  }

  /** The values of a name in order: the mark for each under a sensitive name, else as they were. */
  function Expected(name: string, values: seq<string>): seq<string> {
    if Sensitive(name) then seq(|values|, i => "[REDACTED]") else values
  }

  lemma {:induction false} SensitiveValuesAreMarked(pairs: seq<Pair>, name: string)
    requires Sensitive(name)
    ensures HeaderValues(RedactPairs(pairs), name) == Expected(name, HeaderValues(pairs, name))
    decreases |pairs|
  {
    if pairs != [] {
      SensitiveValuesAreMarked(pairs[1..], name);
      assert RedactPairs(pairs)[1..] == RedactPairs(pairs[1..]);
    }
  }

  /** The pairs as they must be afterwards: same places and names, and the mark under sensitive names only. */
  ghost predicate OnlyMarked(before: seq<Pair>, after: seq<Pair>) {
    |after| == |before| &&
    forall i :: 0 <= i < |before| ==>
      after[i].0 == before[i].0 && after[i].1 == if Sensitive(before[i].0) then "[REDACTED]" else before[i].1
  }

  /**
   * Every header but the length keeps its values, in order, and every query pair its place, apart from
   * the values under sensitive names, each of which becomes the mark.
   */
  lemma EverythingElseIsKept(f: Formats, r: Request, name: string)
    requires Faithful(f) && name != "content-length"
    ensures var after := WithoutCredentials(f, r);
            && HeaderValues(after.headers, name) == Expected(name, HeaderValues(r.headers, name))
            && OnlyMarked(f.parseQuery(r.query), f.parseQuery(after.query))
  {
    if Sensitive(name) {
      SensitiveValuesAreMarked(r.headers, name);
    } else {
      RedactionKeepsValues(r.headers, name);
    }
    DroppingLengthKeepsValues(RedactPairs(r.headers), name);
    QueryIsOnlyMarked(f.parseQuery(r.query));
    var query := f.parseQuery(r.query);
    assert f.parseQuery(f.printQuery(RedactPairs(query))) == RedactPairs(query);
    if !AnySensitive(query) {
      assert forall i :: 0 <= i < |query| ==> query[i] in query;
    }
  }

  lemma QueryIsOnlyMarked(pairs: seq<Pair>)
    ensures OnlyMarked(pairs, RedactPairs(pairs))
  {
  }

  // ---------------------------------------------------------------------------
  // A captured request over its life: its body is parsed on demand, and credentials are removed.
  // ---------------------------------------------------------------------------

  datatype Use = ReadJson | ReadForm | RemoveCredentials

  function Used(f: Formats, r: Request, use: Use): Request {
    match use
    case ReadJson => if r.json.Some? then r else r.(json := Some(f.parseJson(r.body)))
    case ReadForm => if r.form.Some? then r else r.(form := Some(FormOf(f, r.headers, r.body)))
    case RemoveCredentials => WithoutCredentials(f, r)
  }

  function Life(f: Formats, captured: Request, uses: seq<Use>): Request
    decreases |uses|
  {
    if uses == [] then captured else Used(f, Life(f, captured, uses[..|uses| - 1]), uses[|uses| - 1])
  }

  /** A parsed copy of the JSON body never outlives the body. */
  lemma {:induction false} JsonIsAlwaysCurrent(f: Formats, captured: Request, uses: seq<Use>)
    requires captured.json.None?
    ensures JsonIsCurrent(f, Life(f, captured, uses))
    decreases |uses|
  {
    if uses != [] {
      JsonIsAlwaysCurrent(f, captured, uses[..|uses| - 1]);
    }
  }

  /** Removing credentials now would leave a parsed form of the old body. */
  predicate WouldGoStale(f: Formats, r: Request) {
    && FormIsKept(f, r) && HoldsJsonCredential(f, r.body)
    && var redacted := f.printJson(Redact(f.parseJson(r.body).value));
       redacted.Some? && f.parseForm(redacted.value) != f.parseForm(r.body)
  }

  /** Nothing is left to remove: neither the body nor the query would change, nor a parsed form be dropped. */
  ghost predicate Settled(f: Formats, r: Request) {
    NewBody(f, r.body).None? && !AnySensitive(f.parseQuery(r.query)) && r.form.Some?
  }

  lemma StaleIsSettled(f: Formats, r: Request)
    requires Faithful(f) && FormIsCurrent(f, r) && !FormIsCurrent(f, WithoutCredentials(f, r))
    ensures Settled(f, WithoutCredentials(f, r))
  {
    FormGoesStaleExactly(f, r);
    CleanedBodyIsClean(f, r);
  }

  lemma SettledStaysStale(f: Formats, r: Request, use: Use)
    requires Settled(f, r) && !FormIsCurrent(f, r)
    ensures Settled(f, Used(f, r, use)) && !FormIsCurrent(f, Used(f, r, use))
  {
    if use.RemoveCredentials? {
      MediaTypeStays(f, r);
    }
  }

  /** No removal of the life found a parsed form ready to go stale. */
  ghost predicate NeverGoesStale(f: Formats, captured: Request, uses: seq<Use>) {
    forall k :: 0 <= k < |uses| && uses[k].RemoveCredentials? ==> !WouldGoStale(f, Life(f, captured, uses[..k]))
  }

  lemma NeverGoesStaleSnoc(f: Formats, captured: Request, uses: seq<Use>)
    requires uses != []
    ensures var before, last := uses[..|uses| - 1], uses[|uses| - 1];
            NeverGoesStale(f, captured, uses) <==>
              NeverGoesStale(f, captured, before)
              && (last.RemoveCredentials? ==> !WouldGoStale(f, Life(f, captured, before)))
  {
    var before := uses[..|uses| - 1];
    assert forall k :: 0 <= k < |before| ==> before[..k] == uses[..k] && before[k] == uses[k];
  }

  /** Over the whole life of a request its parsed form is current exactly when no removal met the guard. */
  lemma {:induction false} FormIsCurrentExactly(f: Formats, captured: Request, uses: seq<Use>)
    requires Faithful(f) && captured.form.None?
    ensures FormIsCurrent(f, Life(f, captured, uses)) <==> NeverGoesStale(f, captured, uses)
    ensures !FormIsCurrent(f, Life(f, captured, uses)) ==> Settled(f, Life(f, captured, uses))
    decreases |uses|
  {
    if uses != [] {
      var before, last := uses[..|uses| - 1], uses[|uses| - 1];
      var r := Life(f, captured, before);
      FormIsCurrentExactly(f, captured, before);
      NeverGoesStaleSnoc(f, captured, uses);
      if !FormIsCurrent(f, r) {
        SettledStaysStale(f, r, last);
      } else if last.RemoveCredentials? {
        FormGoesStaleExactly(f, r);
        if !FormIsCurrent(f, WithoutCredentials(f, r)) {
          StaleIsSettled(f, r);
        }
      }
    }
  }

  // ---------------------------------------------------------------------------
  // A request whose parsed form keeps its credential.
  // ---------------------------------------------------------------------------

  const SECRET := Object([Member("access_token", String("s"))])
  const SECRET_TEXT := "{\"access_token\":\"" + "s\"}"
  const REDACTED_TEXT := "{\"access_token\":\"" + "[REDACTED]\"}"

  /** Formats that know these two bodies, with queries and forms read and written by `Queries`. */
  function SampleFormats(): Formats {
    Formats(
      b => if b == Bytes(SECRET_TEXT) then Some(SECRET)
           else if b == Bytes(REDACTED_TEXT) then Some(Redact(SECRET)) else None,
      v => Some(Bytes(if v == SECRET then SECRET_TEXT else REDACTED_TEXT)),
      Queries.Parse,
      Queries.Print,
      b => Queries.Parse(AsText(b)))
  }

  lemma SecretHoldsACredential()
    ensures Sensitive("access_token") && !Clean(SECRET) && Redact(SECRET) != SECRET
  {
    assert Lower("access_token") == "access_token";
    assert !CleanMember(SECRET.members[0]);
    RedactKeepsExactlyTheClean(SECRET);
  }

  lemma TextsDiffer()
    ensures Bytes(SECRET_TEXT) != Bytes(REDACTED_TEXT)
  {
    assert |Bytes(SECRET_TEXT)| != |Bytes(REDACTED_TEXT)|;
  }

  lemma SampleFormatsAreFaithful()
    ensures Faithful(SampleFormats())
  {
    var f := SampleFormats();
    forall q ensures f.parseQuery(f.printQuery(q)) == q { Queries.ReadsBack(q); }
    SecretHoldsACredential();
    TextsDiffer();
    RedactCleans(SECRET);
    forall v | Clean(v) && f.parseJson(f.printJson(v).value).Some?
      ensures Clean(f.parseJson(f.printJson(v).value).value)
    {
      assert v != SECRET;
    }
  }

  /** Small letters, dashes and slashes only. */
  predicate IsPlainType(text: string) {
    forall i :: 0 <= i < |text| ==> 'a' <= text[i] <= 'z' || text[i] == '-' || text[i] == '/'
  }

  lemma FormTypeIsPlain()
    ensures IsPlainType(FORM_TYPE) && |FORM_TYPE| == 33
  {
    assert IsPlainType("application/");
    assert IsPlainType("x-www-form-urlencoded");
  }

  lemma PlainTypesAreThemselves(text: string)
    requires IsPlainType(text) && text != ""
    ensures Lower(Trim(Split(text, ';')[0])) == text
  {
    assert Lacks(text, ';');
    SplitLeaves(text, ';');
    assert !IsWhiteSpace(text[0]) && !IsWhiteSpace(text[|text| - 1]);
    assert Trim(text) == text;
    assert Lower(text) == text;
  }

  lemma SampleIsAForm(headers: seq<Pair>)
    requires headers == [("content-type", FORM_TYPE)]
    ensures MediaType(headers) == Some(FORM_TYPE)
  {
    assert HeaderValues(headers, "content-type") == [FORM_TYPE];
    FormTypeIsPlain();
    PlainTypesAreThemselves(FORM_TYPE);
  }

  lemma SampleTextsArePlain(text: string)
    requires text == SECRET_TEXT || text == REDACTED_TEXT
    ensures Queries.Plain(text) && IsAscii(text) && text != ""
  {
    var a, b, c := "{\"access_token\":\"", "s\"}", "[REDACTED]\"}";
    assert Queries.Plain(a) && IsAscii(a);
    assert Queries.Plain(b) && IsAscii(b);
    assert Queries.Plain(c) && IsAscii(c);
  }

  lemma SampleReadsAsOnePair(text: string)
    requires text == SECRET_TEXT || text == REDACTED_TEXT
    ensures SampleFormats().parseForm(Bytes(text)) == [(text, "")]
  {
    SampleTextsArePlain(text);
    TextOfBytes(text);
    Queries.PlainReadsAsOnePair(text);
  }

  /** A JSON body sent as a form, its form already parsed: the parsed copy still holds the credential. */
  lemma ParsedFormCanKeepACredential() returns (r: Request)
    ensures Faithful(SampleFormats()) && FormIsCurrent(SampleFormats(), r)
    ensures !FormIsCurrent(SampleFormats(), WithoutCredentials(SampleFormats(), r))
    ensures WithoutCredentials(SampleFormats(), r).form == r.form == Some(Some([(SECRET_TEXT, "")]))
    ensures WithoutCredentials(SampleFormats(), r).body == Bytes(REDACTED_TEXT)
  {
    var f := SampleFormats();
    SampleFormatsAreFaithful();
    SecretHoldsACredential();
    TextsDiffer();
    r := Request([("content-type", FORM_TYPE)], Bytes(SECRET_TEXT), "", None, Some(Some([(SECRET_TEXT, "")])));
    SampleIsAForm(r.headers);
    SampleReadsAsOnePair(SECRET_TEXT);
    SampleReadsAsOnePair(REDACTED_TEXT);
    assert f.parseQuery(r.query) == [];
    BodyIsReplacedExactlyForCredentials(f, r);
    FormGoesStaleExactly(f, r);
  }
}
