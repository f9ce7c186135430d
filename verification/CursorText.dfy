/** The exact text of printed cursor claims. */
module CursorText {
  import opened Common
  import opened Text
  import opened CursorCodec

  /** A quoted text, and what follows it. */
  function Quoted(text: string, rest: string): string {
    "\"" + text + "\"" + rest
  }

  /** The claims in the order of their fields, without white space. */
  function Printed(c: Claims): string {
    "{" + Quoted("version", ":" + Signed(c.version) + "," + Quoted("scope", ":{" + Quoted("silicon", ":" +
    Quoted(c.scope.silicon, PrintedQuery(c)))))
  }

  function PrintedQuery(c: Claims): string {
    "," + Quoted("collection", ":" +
    Quoted(if c.scope.collection == Events then "events" else "blocked_requests", "," +
    Quoted("filter", ":{" + Quoted("hook_id", PrintedHook(c)))))
  }

  function PrintedHook(c: Claims): string {
    if c.scope.hookId.Some? then ":" + Quoted(c.scope.hookId.value, "}}," + PrintedTail(c))
    else ":null}}," + PrintedTail(c)
  }

  function PrintedTail(c: Claims): string {
    Quoted("received_at_unix_nanos", ":" + Signed(c.receivedAt) + "," + Quoted("id", ":" + Quoted(c.id, "}")))
  }

  /** Every other piece stands between quotation marks. */
  lemma JoinQuotes(p: seq<string>, i: nat)
    requires i + 2 < |p|
    ensures Join(p[i..], '"') == p[i] + Quoted(p[i + 1], Join(p[i + 2..], '"'))
  {
    assert p[i..][1..] == p[i + 1..] && p[i + 1..][1..] == p[i + 2..];
    assert Join(p[i..], '"') == p[i] + "\"" + (p[i + 1] + "\"" + Join(p[i + 2..], '"'));
  }

  lemma LastPiece(p: seq<string>)
    requires p != []
    ensures Join(p[|p| - 1..], '"') == p[|p| - 1]
  {
  }

  lemma HeadPieces(c: Claims)
    ensures var p := Pieces(c);
            && |p| == (if c.scope.hookId.Some? then 25 else 23)
            && p[0] == "{" && p[1] == "version" && p[2] == ":" + Signed(c.version) + "," && p[3] == "scope"
            && p[4] == ":{" && p[5] == "silicon" && p[6] == ":" && p[7] == c.scope.silicon
  {
    Segments(Head(c), [c.scope.silicon], Middle(c), HookPieces(c), Tail(c));
    var p := Pieces(c);
    assert forall i :: 0 <= i < 7 ==> p[i] == Head(c)[i];
    assert p[7 + 0] == [c.scope.silicon][0];
  }

  lemma MiddlePieces(c: Claims)
    ensures var p := Pieces(c);
            && |p| >= 23
            && p[8] == "," && p[9] == "collection" && p[10] == ":" && p[11] == CollectionName(c.scope.collection)
            && p[12] == "," && p[13] == "filter" && p[14] == ":{" && p[15] == "hook_id"
  {
    Segments(Head(c), [c.scope.silicon], Middle(c), HookPieces(c), Tail(c));
    var p := Pieces(c);
    assert forall i :: 0 <= i < 8 ==> p[8 + i] == Middle(c)[i];
    assert p[8 + 0] == "," && p[8 + 1] == "collection" && p[8 + 2] == ":" && p[8 + 4] == ",";
    assert p[8 + 3] == CollectionName(c.scope.collection) && p[8 + 5] == "filter" && p[8 + 6] == ":{";
  }

  lemma TailPieces(c: Claims)
    ensures var p, n := Pieces(c), |Pieces(c)|;
            && n == (if c.scope.hookId.Some? then 25 else 23)
            && (c.scope.hookId.Some? ==> p[16] == ":" && p[17] == c.scope.hookId.value && p[18] == "}},")
            && (c.scope.hookId.None? ==> p[16] == ":null}},")
            && p[n - 6] == "received_at_unix_nanos" && p[n - 5] == ":" + Signed(c.receivedAt) + ","
            && p[n - 4] == "id" && p[n - 3] == ":" && p[n - 2] == c.id && p[n - 1] == "}"
  {
    Segments(Head(c), [c.scope.silicon], Middle(c), HookPieces(c), Tail(c));
    var p, n := Pieces(c), |Pieces(c)|;
    assert forall i :: 0 <= i < |HookPieces(c)| ==> p[16 + i] == HookPieces(c)[i];
    assert forall i :: 0 <= i < 6 ==> p[n - 6 + i] == Tail(c)[i];
    if c.scope.hookId.Some? { assert p[16 + 1] == HookPieces(c)[1] && p[16 + 2] == HookPieces(c)[2]; }
    assert p[16 + 0] == HookPieces(c)[0];
    assert p[n - 6 + 1] == Tail(c)[1] && p[n - 6 + 2] == Tail(c)[2] && p[n - 6 + 3] == Tail(c)[3];
    assert p[n - 6 + 4] == Tail(c)[4] && p[n - 6 + 5] == Tail(c)[5] && p[n - 6 + 0] == Tail(c)[0];
  }

  lemma TailIsPrinted(c: Claims)
    ensures Join(Pieces(c)[16..], '"') == PrintedHook(c)
  {
    var p, n := Pieces(c), |Pieces(c)|;
    TailPieces(c);
    LastPiece(p);
    JoinQuotes(p, n - 3);
    JoinQuotes(p, n - 5);
    JoinQuotes(p, n - 7);
    if c.scope.hookId.Some? { JoinQuotes(p, 16); }
  }

  lemma QueryIsPrinted(c: Claims)
    ensures Join(Pieces(c)[8..], '"') == PrintedQuery(c)
  {
    var p := Pieces(c);
    MiddlePieces(c);
    TailIsPrinted(c);
    JoinQuotes(p, 14);
    JoinQuotes(p, 12);
    JoinQuotes(p, 10);
    JoinQuotes(p, 8);
  }

  /** The payload of a cursor is this JSON text, character for character. */
  lemma ClaimsArePrintedExactly(c: Claims)
    ensures Serialize(c) == Printed(c) && Payload(c) == Bytes(Printed(c))
  {
    var p := Pieces(c);
    HeadPieces(c);
    QueryIsPrinted(c);
    JoinQuotes(p, 6);
    JoinQuotes(p, 4);
    JoinQuotes(p, 2);
    JoinQuotes(p, 0);
    assert p[0..] == p;
  }
}
