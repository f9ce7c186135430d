/** Printing and reading back: decimal numbers and texts cut at a separator. */
module Text {
  import opened Common

  /** Unicode white space. */
  predicate IsWhiteSpace(c: char) {
    || '\t' <= c <= '\r' || c == ' ' || c == '\U{85}' || c == '\U{a0}' || c == '\U{1680}'
    || '\U{2000}' <= c <= '\U{200a}' || c == '\U{2028}' || c == '\U{2029}' || c == '\U{202f}' || c == '\U{205f}'
    || c == '\U{3000}'
  }

  function Trim(text: string): string
    decreases |text|
  {
    if text != "" && IsWhiteSpace(text[0]) then Trim(text[1..])
    else if text != "" && IsWhiteSpace(text[|text| - 1]) then Trim(text[..|text| - 1])
    else text
  }

  /** ASCII letters in lower case. */
  function LowerChar(c: char): char {
    if 'A' <= c <= 'Z' then (c as int + 32) as char else c
  }

  function Lower(text: string): string {
    seq(|text|, i requires 0 <= i < |text| => LowerChar(text[i]))
  }

  predicate IsAscii(text: string) {
    forall i :: 0 <= i < |text| ==> text[i] < 128 as char
  }

  /** ASCII text as bytes. */
  function Bytes(text: string): seq<Byte> {
    seq(|text|, i requires 0 <= i < |text| => if text[i] < 128 as char then text[i] as int else 63)
  }

  function AsText(bytes: seq<Byte>): string {
    seq(|bytes|, i requires 0 <= i < |bytes| => bytes[i] as char)
  }

  lemma TextOfBytes(text: string)
    requires IsAscii(text)
    ensures AsText(Bytes(text)) == text
  {
  }

  function Digit(d: int): char
    requires 0 <= d < 10
  {
    '0' + d as char
  }

  function Decimal(n: nat): (text: string)
    ensures text != [] && forall i :: 0 <= i < |text| ==> '0' <= text[i] <= '9'
  {
    if n < 10 then [Digit(n)] else Decimal(n / 10) + [Digit(n % 10)]
  }

  function Signed(n: int): string {
    if n < 0 then "-" + Decimal(-n) else Decimal(n)
  }

  function ReadDecimal(text: string): nat {
    if text == [] then 0
    else
      var c := text[|text| - 1];
      ReadDecimal(text[..|text| - 1]) * 10 + if '0' <= c <= '9' then c as int - '0' as int else 0
  }

  function ReadSigned(text: string): int {
    if text != [] && text[0] == '-' then 0 - ReadDecimal(text[1..]) else ReadDecimal(text)
  }

  lemma {:induction false} DecimalReadsBack(n: nat)
    ensures ReadDecimal(Decimal(n)) == n
  {
    if n >= 10 {
      DecimalReadsBack(n / 10);
      assert Decimal(n)[..|Decimal(n)| - 1] == Decimal(n / 10);
    }
  }

  lemma SignedReadsBack(n: int)
    ensures ReadSigned(Signed(n)) == n
  {
    if n < 0 {
      DecimalReadsBack(-n);
      assert Signed(n)[1..] == Decimal(-n);
    } else {
      DecimalReadsBack(n);
    }
  }

  function Power10(k: nat): nat {
    if k == 0 then 1 else 10 * Power10(k - 1)
  }

  lemma {:induction false} Power10Adds(j: nat, k: nat)
    ensures Power10(j + k) == Power10(j) * Power10(k)
    decreases j
  {
    if j > 0 {
      Power10Adds(j - 1, k);
    }
  }

  lemma {:induction false} DecimalIsShort(n: nat, k: nat)
    requires 0 < k && n < Power10(k)
    ensures |Decimal(n)| <= k
    decreases k
  {
    if n >= 10 {
      assert k > 1;
      DecimalIsShort(n / 10, k - 1);
    }
  }

  function Join(pieces: seq<string>, separator: char): string {
    if |pieces| == 0 then ""
    else if |pieces| == 1 then pieces[0]
    else pieces[0] + [separator] + Join(pieces[1..], separator)
  }

  function Split(text: string, separator: char): (pieces: seq<string>)
    ensures pieces != []
    decreases |text|
  {
    if text == "" then [""]
    else
      var rest := Split(text[1..], separator);
      if text[0] == separator then [""] + rest else [[text[0]] + rest[0]] + rest[1..]
  }

  predicate Lacks(piece: string, separator: char) {
    forall i :: 0 <= i < |piece| ==> piece[i] != separator
  }

  lemma {:induction false} SplitLeaves(piece: string, separator: char)
    requires Lacks(piece, separator)
    ensures Split(piece, separator) == [piece]
    decreases |piece|
  {
    if piece != "" {
      SplitLeaves(piece[1..], separator);
      assert piece == [piece[0]] + piece[1..];
    }
  }

  lemma {:induction false} SplitCuts(piece: string, rest: string, separator: char)
    requires Lacks(piece, separator)
    ensures Split(piece + [separator] + rest, separator) == [piece] + Split(rest, separator)
    decreases |piece|
  {
    var text := piece + [separator] + rest;
    if piece == "" {
      assert text[1..] == rest;
    } else {
      SplitCuts(piece[1..], rest, separator);
      assert text[1..] == piece[1..] + [separator] + rest;
      assert [piece[0]] + piece[1..] == piece;
    }
  }

  lemma {:induction false} SplitOfJoin(pieces: seq<string>, separator: char)
    requires pieces != [] && forall i :: 0 <= i < |pieces| ==> Lacks(pieces[i], separator)
    ensures Split(Join(pieces, separator), separator) == pieces
    decreases |pieces|
  {
    if |pieces| == 1 {
      SplitLeaves(pieces[0], separator);
    } else {
      SplitCuts(pieces[0], Join(pieces[1..], separator), separator);
      SplitOfJoin(pieces[1..], separator);
    }
  }

  function TotalLength(pieces: seq<string>): nat {
    if pieces == [] then 0 else |pieces[0]| + TotalLength(pieces[1..])
  }

  lemma {:induction false} TotalLengthAdds(a: seq<string>, b: seq<string>)
    ensures TotalLength(a + b) == TotalLength(a) + TotalLength(b)
    decreases |a|
  {
    if a == [] {
      assert a + b == b;
    } else {
      TotalLengthAdds(a[1..], b);
      assert (a + b)[1..] == a[1..] + b;
    }
  }

  lemma {:induction false} TotalLengthIsBounded(pieces: seq<string>, limit: nat)
    requires forall i :: 0 <= i < |pieces| ==> |pieces[i]| <= limit
    ensures TotalLength(pieces) <= limit * |pieces|
    decreases |pieces|
  {
    if pieces != [] {
      TotalLengthIsBounded(pieces[1..], limit);
    }
  }

  lemma {:induction false} JoinLength(pieces: seq<string>, separator: char)
    requires pieces != []
    ensures |Join(pieces, separator)| == TotalLength(pieces) + |pieces| - 1
    decreases |pieces|
  {
    if |pieces| > 1 {
      JoinLength(pieces[1..], separator);
    }
  }

  lemma {:induction false} JoinIsMadeOf(pieces: seq<string>, separator: char, limit: int)
    requires separator as int < limit
    requires forall i, j :: 0 <= i < |pieces| && 0 <= j < |pieces[i]| ==> pieces[i][j] as int < limit
    ensures forall j :: 0 <= j < |Join(pieces, separator)| ==> Join(pieces, separator)[j] as int < limit
    decreases |pieces|
  {
    if |pieces| > 1 {
      JoinIsMadeOf(pieces[1..], separator, limit);
    }
  }
}
