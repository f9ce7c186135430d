/** Authenticated history cursors: claims in JSON, their tag, and both together in base64url. */
module CursorCodec {
  import opened Common
  import opened Identifiers
  import opened Text
  import opened Base64Url

  const HMAC_TAG_BYTES: nat := 32
  const CURSOR_VERSION: nat := 2
  const MAX_CURSOR_BYTES: nat := 2_048

  datatype Collection = Events | BlockedRequests

  datatype Scope = Scope(silicon: string, collection: Collection, hookId: Option<string>)

  /** An exclusive boundary: a receive time in nanoseconds since the epoch, and an identifier. */
  datatype Cursor = Cursor(receivedAt: Instant, id: string)

  datatype Claims = Claims(version: nat, scope: Scope, receivedAt: int, id: string)

  datatype CursorError =
    TooLong | InvalidEncoding | Authentication | InvalidPayload | UnsupportedVersion | ScopeMismatch

  /** The tag of a payload under the codec's key. */
  type Mac = seq<Byte> -> seq<Byte>

  type Parser = seq<Byte> -> Option<Claims>

  predicate ValidScope(s: Scope) {
    AccountUuid(s.silicon) && (s.hookId.Some? ==> CanonicalUuid(s.hookId.value))
  }

  const I128: int := 170_141_183_460_469_231_731_687_303_715_884_105_728

  predicate ValidClaims(c: Claims) {
    c.version < 256 && ValidScope(c.scope) && -I128 <= c.receivedAt < I128 && CanonicalUuid(c.id)
  }

  predicate ValidCursor(c: Cursor) {
    -I128 <= c.receivedAt < I128 && CanonicalUuid(c.id)
  }

  /** A timestamp can be rebuilt from its nanoseconds. */
  predicate Representable(at: int) {
    FIRST_INSTANT <= at <= LAST_INSTANT
  }

  // ---------------------------------------------------------------------------
  // The JSON text of the claims.
  // ---------------------------------------------------------------------------

  function CollectionName(c: Collection): string {
    match c
    case Events => "events"
    case BlockedRequests => "blocked_requests"
  }

  // The text between the quotation marks of the JSON, in order and in five segments.

  function Head(c: Claims): seq<string> {
    ["{", "version", ":" + Signed(c.version) + ",", "scope", ":{", "silicon", ":"]
  }

  function Middle(c: Claims): seq<string> {
    [",", "collection", ":", CollectionName(c.scope.collection), ",", "filter", ":{", "hook_id"]
  }

  function HookPieces(c: Claims): seq<string> {
    if c.scope.hookId.Some? then [":", c.scope.hookId.value, "}},"] else [":null}},"]
  }

  function Tail(c: Claims): seq<string> {
    ["received_at_unix_nanos", ":" + Signed(c.receivedAt) + ",", "id", ":", c.id, "}"]
  }

  function Pieces(c: Claims): seq<string> {
    Head(c) + [c.scope.silicon] + Middle(c) + HookPieces(c) + Tail(c)
  }

  function Serialize(c: Claims): string {
    Join(Pieces(c), '"')
  }

  function Payload(c: Claims): seq<Byte> {
    Bytes(Serialize(c))
  }

  /** What the codec relies on in a JSON reader: it reads every printed payload back. */
  ghost predicate ReadsBack(parse: Parser) {
    forall c :: ValidClaims(c) ==> parse(Payload(c)) == Some(c)
  }

  /** The number between the first and the last character of a piece. */
  function Number(piece: string): int {
    if |piece| < 2 then 0 else ReadSigned(piece[1..|piece| - 1])
  }

  /** The claims some pieces would be printed from, if any. */
  function Candidate(p: seq<string>): Option<Claims> {
    if (|p| != 23 && |p| != 25) || Number(p[2]) < 0 then None
    else
      var hookId := if |p| == 25 then Some(p[17]) else None;
      var collection := if p[11] == "events" then Events else BlockedRequests;
      Some(Claims(Number(p[2]), Scope(p[7], collection, hookId), Number(p[|p| - 5]), p[|p| - 2]))
  }

  /** A reader of exactly the printed form. */
  function Parse(bytes: seq<Byte>): Option<Claims> {
    var p := Split(AsText(bytes), '"');
    var c := Candidate(p);
    if c.Some? && ValidClaims(c.value) && Pieces(c.value) == p then c else None
  }

  predicate Plain(piece: string) {
    forall i :: 0 <= i < |piece| ==> piece[i] != '"' && piece[i] < 128 as char
  }

  predicate AllPlain(pieces: seq<string>) {
    forall i :: 0 <= i < |pieces| ==> Plain(pieces[i])
  }

  lemma NumbersArePlain(n: int)
    ensures Plain(":" + Signed(n) + ",")
  {
  }

  lemma HeadIsPlain(c: Claims)
    ensures AllPlain(Head(c))
  {
    NumbersArePlain(c.version);
    assert Plain("version") && Plain("scope") && Plain("silicon");
  }

  lemma MiddleIsPlain(c: Claims)
    ensures AllPlain(Middle(c))
  {
    assert Plain("collection") && Plain("filter") && Plain("hook_id");
    assert Plain("events") && Plain("blocked_requests");
  }

  lemma TailIsPlain(c: Claims)
    requires Plain(c.id)
    ensures AllPlain(Tail(c))
  {
    NumbersArePlain(c.receivedAt);
    assert Plain("received_at_unix_nanos");
  }

  lemma IdentifiersArePlain(id: string)
    requires AccountUuid(id) || CanonicalUuid(id)
    ensures Plain(id)
  {
  }

  lemma PlainAdds(a: seq<string>, b: seq<string>)
    requires AllPlain(a) && AllPlain(b)
    ensures AllPlain(a + b)
  {
  }

  lemma PiecesArePlain(c: Claims)
    requires ValidClaims(c)
    ensures AllPlain(Pieces(c))
  {
    IdentifiersArePlain(c.scope.silicon);
    IdentifiersArePlain(c.id);
    if c.scope.hookId.Some? { IdentifiersArePlain(c.scope.hookId.value); }
    HeadIsPlain(c);
    MiddleIsPlain(c);
    TailIsPlain(c);
    PlainAdds(Head(c), [c.scope.silicon]);
    PlainAdds(Head(c) + [c.scope.silicon], Middle(c));
    PlainAdds(Head(c) + [c.scope.silicon] + Middle(c), HookPieces(c));
    PlainAdds(Head(c) + [c.scope.silicon] + Middle(c) + HookPieces(c), Tail(c));
  }

  lemma PlainJoins(pieces: seq<string>)
    requires AllPlain(pieces) && pieces != []
    ensures Split(AsText(Bytes(Join(pieces, '"'))), '"') == pieces
  {
    forall i | 0 <= i < |pieces| ensures Plain(pieces[i]) && Lacks(pieces[i], '"') {
    }
    JoinIsMadeOf(pieces, '"', 128);
    TextOfBytes(Join(pieces, '"'));
    SplitOfJoin(pieces, '"');
  }

  /** Where the fields stand among the pieces. */
  ghost predicate HoldsFields(p: seq<string>, c: Claims) {
    && |p| == (if c.scope.hookId.Some? then 25 else 23)
    && p[2] == ":" + Signed(c.version) + "," && p[7] == c.scope.silicon
    && p[11] == CollectionName(c.scope.collection) && (c.scope.hookId.Some? ==> p[17] == c.scope.hookId.value)
    && p[|p| - 5] == ":" + Signed(c.receivedAt) + "," && p[|p| - 2] == c.id
  }

  /** An element of five segments put together, by its place in its own segment. */
  lemma Segments(a: seq<string>, b: seq<string>, d: seq<string>, e: seq<string>, f: seq<string>)
    ensures var p := a + b + d + e + f;
            && |p| == |a| + |b| + |d| + |e| + |f|
            && (forall i :: 0 <= i < |a| ==> p[i] == a[i])
            && (forall i :: 0 <= i < |b| ==> p[|a| + i] == b[i])
            && (forall i :: 0 <= i < |d| ==> p[|a| + |b| + i] == d[i])
            && (forall i :: 0 <= i < |e| ==> p[|a| + |b| + |d| + i] == e[i])
            && (forall i :: 0 <= i < |f| ==> p[|p| - |f| + i] == f[i])
  {
  }

  lemma PiecesHoldTheFields(c: Claims)
    ensures HoldsFields(Pieces(c), c)
  {
    var a, d, e, f := Head(c), Middle(c), HookPieces(c), Tail(c);
    Segments(a, [c.scope.silicon], d, e, f);
    var p := Pieces(c);
    assert |a| == 7 && |d| == 8 && |f| == 6;
    assert p[2] == a[2] && p[7 + 0] == [c.scope.silicon][0] && p[8 + 3] == d[3];
    assert c.scope.hookId.Some? ==> p[16 + 1] == e[1];
    assert p[|p| - 6 + 1] == f[1] && p[|p| - 6 + 4] == f[4];
  }

  lemma NumberReadsBack(n: int)
    ensures Number(":" + Signed(n) + ",") == n
  {
    var piece := ":" + Signed(n) + ",";
    assert piece[1..|piece| - 1] == Signed(n);
    SignedReadsBack(n);
  }

  lemma CandidateOfFields(p: seq<string>, c: Claims)
    requires HoldsFields(p, c)
    ensures Candidate(p) == Some(c)
  {
    NumberReadsBack(c.version);
    NumberReadsBack(c.receivedAt);
    assert CollectionName(BlockedRequests)[0] != "events"[0];
  }

  lemma FieldsReadBack(c: Claims)
    requires ValidClaims(c)
    ensures Parse(Payload(c)) == Some(c)
  {
    PiecesHoldTheFields(c);
    PiecesArePlain(c);
    PlainJoins(Pieces(c));
    CandidateOfFields(Pieces(c), c);
  }

  /** The printed claims can be read back: distinct claims have distinct texts. */
  lemma PrintedClaimsReadBack()
    ensures ReadsBack(Parse)
  {
    forall c | ValidClaims(c) ensures Parse(Payload(c)) == Some(c) {
      FieldsReadBack(c);
    }
  }

  // ---------------------------------------------------------------------------
  // The codec.
  // ---------------------------------------------------------------------------

  function ClaimsOf(scope: Scope, cursor: Cursor): Claims {
    Claims(CURSOR_VERSION, scope, cursor.receivedAt, cursor.id)
  }

  function EncodeCursor(mac: Mac, scope: Scope, cursor: Cursor): seq<Byte> {
    var payload := Payload(ClaimsOf(scope, cursor));
    Encode(payload + mac(payload))
  }

  function DecodeCursor(mac: Mac, parse: Parser, scope: Scope, text: seq<Byte>): Result<Cursor, CursorError> {
    if |text| > MAX_CURSOR_BYTES then Err(TooLong)
    else if text == [] || PADDING in text then Err(CursorError.InvalidEncoding)
    else
      var decoded := Decode(text);
      if decoded.None? || |decoded.value| <= HMAC_TAG_BYTES then Err(CursorError.InvalidEncoding)
      else
        var n := |decoded.value| - HMAC_TAG_BYTES;
        var payload, tag := decoded.value[..n], decoded.value[n..];
        if mac(payload) != tag then Err(Authentication)
        else
          var claims := parse(payload);
          if claims.None? then Err(InvalidPayload)
          else if claims.value.version != CURSOR_VERSION then Err(UnsupportedVersion)
          else if claims.value.scope != scope then Err(ScopeMismatch)
          else if !Representable(claims.value.receivedAt) then Err(InvalidPayload)
          else Ok(Cursor(claims.value.receivedAt, claims.value.id))
  }

  ghost predicate TagsHaveFixedLength(mac: Mac) {
    forall payload :: |mac(payload)| == HMAC_TAG_BYTES
  }

  /** Payloads are short: no printed claims come near the limit. */
  lemma PayloadIsShort(c: Claims)
    requires ValidClaims(c)
    ensures 0 < |Payload(c)| <= 1_000
  {
    DecimalIsShort(c.version, 3);
    assert Power10(13) == 10_000_000_000_000;
    Power10Adds(13, 13);
    Power10Adds(26, 13);
    DecimalIsShort(if c.receivedAt < 0 then -c.receivedAt else c.receivedAt, 39);
    JoinLength(Pieces(c), '"');
    PiecesLength(c);
  }

  lemma PiecesLength(c: Claims)
    requires ValidClaims(c) && |Signed(c.version)| <= 3 && |Signed(c.receivedAt)| <= 40
    ensures 0 < TotalLength(Pieces(c)) <= 900 && |Pieces(c)| <= 25
  {
    var a, b, d, e, f := Head(c), [c.scope.silicon], Middle(c), HookPieces(c), Tail(c);
    HeadIsShort(c);
    MiddleIsShort(c);
    HookPiecesAreShort(c);
    TailIsShort(c);
    TotalLengthIsBounded(b, MAX_ACCOUNT_UUID_LENGTH);
    TotalLengthAdds(a, b);
    TotalLengthAdds(a + b, d);
    TotalLengthAdds(a + b + d, e);
    TotalLengthAdds(a + b + d + e, f);
  }

  lemma HeadIsShort(c: Claims)
    requires |Signed(c.version)| <= 3
    ensures 0 < TotalLength(Head(c)) <= 56 && |Head(c)| == 7
  {
    var a := Head(c);
    assert |"version"| == 7 && |"silicon"| == 7 && |"scope"| == 5;
    TotalLengthIsBounded(a, 8);
    assert |a[0]| == 1;
  }

  lemma MiddleIsShort(c: Claims)
    ensures TotalLength(Middle(c)) <= 128 && |Middle(c)| == 8
  {
    assert |"collection"| == 10 && |"filter"| == 6 && |"hook_id"| == 7;
    assert |"events"| == 6 && |"blocked_requests"| == 16;
    TotalLengthIsBounded(Middle(c), 16);
  }

  lemma HookPiecesAreShort(c: Claims)
    requires ValidClaims(c)
    ensures TotalLength(HookPieces(c)) <= 108 && |HookPieces(c)| <= 3
  {
    assert |":null}},"| == 8;
    TotalLengthIsBounded(HookPieces(c), 36);
  }

  lemma TailIsShort(c: Claims)
    requires ValidClaims(c) && |Signed(c.receivedAt)| <= 40
    ensures TotalLength(Tail(c)) <= 252 && |Tail(c)| == 6
  {
    assert |"received_at_unix_nanos"| == 22;
    TotalLengthIsBounded(Tail(c), 42);
  }

  /** What is decoded from the text of a payload and its tag. */
  lemma DecodedParts(mac: Mac, payload: seq<Byte>)
    requires TagsHaveFixedLength(mac)
    ensures var text := Encode(payload + mac(payload));
            && Decode(text) == Some(payload + mac(payload)) && PADDING !in text
            && (payload + mac(payload))[..|payload|] == payload
            && (payload + mac(payload))[|payload|..] == mac(payload)
  {
    DecodeOfEncode(payload + mac(payload));
    NoPadding(payload + mac(payload));
  }

  /** A cursor Hook issues is within the limit, and decodes to its boundary exactly when its time is representable. */
  lemma CursorsReadBack(mac: Mac, parse: Parser, scope: Scope, cursor: Cursor)
    requires TagsHaveFixedLength(mac) && ReadsBack(parse) && ValidScope(scope) && ValidCursor(cursor)
    ensures |EncodeCursor(mac, scope, cursor)| <= MAX_CURSOR_BYTES
    ensures DecodeCursor(mac, parse, scope, EncodeCursor(mac, scope, cursor)) ==
              if Representable(cursor.receivedAt) then Ok(cursor) else Err(InvalidPayload)
  {
    var c := ClaimsOf(scope, cursor);
    PayloadIsShort(c);
    DecodedParts(mac, Payload(c));
    assert parse(Payload(c)) == Some(c);
  }

  /** Under any other scope it is refused as a mismatch. */
  lemma OtherScopesRefuse(mac: Mac, parse: Parser, scope: Scope, other: Scope, cursor: Cursor)
    requires TagsHaveFixedLength(mac) && ReadsBack(parse) && ValidScope(scope) && ValidCursor(cursor)
    ensures DecodeCursor(mac, parse, other, EncodeCursor(mac, scope, cursor)) == Err(ScopeMismatch) <==> other != scope
  {
    var c := ClaimsOf(scope, cursor);
    PayloadIsShort(c);
    DecodedParts(mac, Payload(c));
    assert parse(Payload(c)) == Some(c);
  }

  ghost predicate Authentic(mac: Mac, text: seq<Byte>, payload: seq<Byte>) {
    payload != [] && text == Encode(payload + mac(payload))
  }

  /** Acceptance, exactly: the one text of a payload with its right tag whose claims name query and boundary. */
  lemma AcceptedExactlyWhenAuthentic(mac: Mac, parse: Parser, scope: Scope, text: seq<Byte>, cursor: Cursor)
    requires TagsHaveFixedLength(mac)
    ensures DecodeCursor(mac, parse, scope, text) == Ok(cursor) <==>
              && |text| <= MAX_CURSOR_BYTES && Representable(cursor.receivedAt)
              && exists payload :: Authentic(mac, text, payload) && parse(payload) == Some(ClaimsOf(scope, cursor))
  {
    if DecodeCursor(mac, parse, scope, text) == Ok(cursor) {
      var decoded := Decode(text).value;
      var n := |decoded| - HMAC_TAG_BYTES;
      EncodeOfDecode(text);
      assert decoded == decoded[..n] + decoded[n..];
      assert Authentic(mac, text, decoded[..n]);
    }
    if payload :| Authentic(mac, text, payload) && parse(payload) == Some(ClaimsOf(scope, cursor)) {
      DecodedParts(mac, payload);
    }
  }

  /** The text is the encoding of a payload followed by 32 bytes in the place of its tag. */
  ghost predicate Carries(text: seq<Byte>, bytes: seq<Byte>) {
    |bytes| > 32 && text == Encode(bytes)
  }

  lemma CarriesItsDecoding(text: seq<Byte>, bytes: seq<Byte>)
    ensures Carries(text, bytes) <==> |bytes| > 32 && Decode(text) == Some(bytes)
    ensures Carries(text, bytes) ==> text != [] && PADDING !in text
  {
    TextIsCanonical(text, bytes);
    if Carries(text, bytes) {
      NoPadding(bytes);
      assert |Encode(bytes)| > 0;
    }
  }

  /** Too long a text is refused as such; then its encoding is, exactly where no payload and tag fit it. */
  lemma EncodingIsRefusedExactly(mac: Mac, parse: Parser, scope: Scope, text: seq<Byte>)
    ensures DecodeCursor(mac, parse, scope, text) == Err(TooLong) <==> |text| > 2_048
    ensures DecodeCursor(mac, parse, scope, text) == Err(CursorError.InvalidEncoding) <==>
              |text| <= 2_048 && forall bytes :: !Carries(text, bytes)
  {
    if bytes :| Carries(text, bytes) {
      CarriesItsDecoding(text, bytes);
    }
    if Decode(text).Some? {
      CarriesItsDecoding(text, Decode(text).value);
    }
  }

  /** What is wrong with the claims of an authentic payload, if anything. */
  function ClaimsRefusal(claims: Option<Claims>, scope: Scope): Option<CursorError> {
    match claims
    case None => Some(InvalidPayload)
    case Some(c) =>
      if c.version != 2 then Some(UnsupportedVersion)
      else if c.scope.silicon != scope.silicon || c.scope.collection != scope.collection
              || c.scope.hookId != scope.hookId then Some(ScopeMismatch)
      else if c.receivedAt < FIRST_INSTANT || LAST_INSTANT < c.receivedAt then Some(InvalidPayload)
      else None
  }

  /** A payload under a tag that is not its own is never read; under its own tag its claims decide. */
  lemma ClaimsAreReadExactlyWhenAuthentic(mac: Mac, parse: Parser, scope: Scope, text: seq<Byte>, bytes: seq<Byte>)
    requires |text| <= 2_048 && Carries(text, bytes)
    ensures var payload, tag := bytes[..|bytes| - 32], bytes[|bytes| - 32..];
            && (DecodeCursor(mac, parse, scope, text) == Err(Authentication) <==> tag != mac(payload))
            && (tag == mac(payload) ==>
                  var refusal := ClaimsRefusal(parse(payload), scope);
                  DecodeCursor(mac, parse, scope, text) ==
                    if refusal.Some? then Err(refusal.value)
                    else Ok(Cursor(parse(payload).value.receivedAt, parse(payload).value.id)))
  {
    CarriesItsDecoding(text, bytes);
  }

  datatype Issue = Issue(scope: Scope, cursor: Cursor)

  /** Nobody but Hook makes tags: a payload this text carries with its right tag is one Hook issued. */
  ghost predicate Unforged(mac: Mac, text: seq<Byte>, issued: iset<Issue>) {
    forall payload :: Authentic(mac, text, payload) ==>
      exists i :: i in issued && payload == Payload(ClaimsOf(i.scope, i.cursor))
  }

  /** With unforged tags the only text accepted for a boundary under a scope is the one issued for both. */
  lemma OnlyIssuedCursorsAreAccepted(mac: Mac, parse: Parser, scope: Scope, text: seq<Byte>, cursor: Cursor,
                                     issued: iset<Issue>)
    requires TagsHaveFixedLength(mac) && ReadsBack(parse) && Unforged(mac, text, issued)
    requires forall i :: i in issued ==> ValidScope(i.scope) && ValidCursor(i.cursor)
    ensures DecodeCursor(mac, parse, scope, text) == Ok(cursor) ==>
              Issue(scope, cursor) in issued && text == EncodeCursor(mac, scope, cursor)
    ensures text == EncodeCursor(mac, scope, cursor) && Issue(scope, cursor) in issued
              && Representable(cursor.receivedAt) ==>
              DecodeCursor(mac, parse, scope, text) == Ok(cursor)
  {
    AcceptedExactlyWhenAuthentic(mac, parse, scope, text, cursor);
    if DecodeCursor(mac, parse, scope, text) == Ok(cursor) {
      var payload :| Authentic(mac, text, payload) && parse(payload) == Some(ClaimsOf(scope, cursor));
      var i :| i in issued && payload == Payload(ClaimsOf(i.scope, i.cursor));
      assert parse(payload) == Some(ClaimsOf(i.scope, i.cursor));
    }
    if Issue(scope, cursor) in issued {
      CursorsReadBack(mac, parse, scope, cursor);
    }
  }
}
