/** Unpadded, canonical base64url (section 5 of RFC 4648), and the 32-byte keys configured in it. */
module Base64Url {
  import opened Common

  /** A value below 64 as its symbol: A-Z, a-z, 0-9, '-' and '_'. */
  function Symbol(v: int): Byte
    requires 0 <= v < 64
  {
    if v < 26 then 65 + v
    else if v < 52 then 97 + v - 26
    else if v < 62 then 48 + v - 52
    else if v == 62 then 45
    else 95
  }

  /** The value of a symbol, or 64 for a byte that is none. */
  function Value(symbol: Byte): (v: int)
    ensures 0 <= v <= 64
    ensures v < 64 ==> Symbol(v) == symbol
  {
    var v :=
      if 65 <= symbol < 91 then symbol - 65
      else if 97 <= symbol < 123 then symbol - 97 + 26
      else if 48 <= symbol < 58 then symbol - 48 + 52
      else if symbol == 45 then 62
      else if symbol == 95 then 63
      else 64;
    assert v < 64 ==> Symbol(v) == symbol;
    v
  }

  lemma ValueOfSymbol(v: int)
    requires 0 <= v < 64
    ensures Value(Symbol(v)) == v
  {
  }

  function Encode(bytes: seq<Byte>): (text: seq<Byte>)
    ensures |text| == (4 * |bytes| + 2) / 3
  {
    if |bytes| == 0 then []
    else if |bytes| == 1 then [Symbol(bytes[0] / 4), Symbol(bytes[0] % 4 * 16)]
    else if |bytes| == 2 then
      [Symbol(bytes[0] / 4), Symbol(bytes[0] % 4 * 16 + bytes[1] / 16), Symbol(bytes[1] % 16 * 4)]
    else
      [Symbol(bytes[0] / 4), Symbol(bytes[0] % 4 * 16 + bytes[1] / 16),
       Symbol(bytes[1] % 16 * 4 + bytes[2] / 64), Symbol(bytes[2] % 64)] + Encode(bytes[3..])
  }

  /** Bits past the last byte must be zero, and one symbol alone holds no byte. */
  function Decode(text: seq<Byte>): Option<seq<Byte>> {
    if |text| == 0 then Some([])
    else if |text| == 1 then None
    else
      var a, b := Value(text[0]), Value(text[1]);
      if a == 64 || b == 64 then None
      else if |text| == 2 then
        if b % 16 == 0 then Some([a * 4 + b / 16]) else None
      else
        var c := Value(text[2]);
        if c == 64 then None
        else if |text| == 3 then
          if c % 4 == 0 then Some([a * 4 + b / 16, b % 16 * 16 + c / 4]) else None
        else
          var d := Value(text[3]);
          if d == 64 then None else
          var rest := Decode(text[4..]);
          if rest.None? then None else Some([a * 4 + b / 16, b % 16 * 16 + c / 4, c % 4 * 64 + d] + rest.value)
  }

  lemma SextetsOf(x: Byte, y: Byte, z: Byte)
    ensures var b, c := x % 4 * 16 + y / 16, y % 16 * 4 + z / 64;
            && 0 <= x / 4 < 64 && 0 <= b < 64 && 0 <= c < 64
            && x / 4 * 4 + b / 16 == x && b % 16 * 16 + c / 4 == y && c % 4 * 64 + z % 64 == z
  {
  }

  lemma BytesOf(a: int, b: int, c: int, d: int)
    requires 0 <= a < 64 && 0 <= b < 64 && 0 <= c < 64 && 0 <= d < 64
    ensures var x, y, z := a * 4 + b / 16, b % 16 * 16 + c / 4, c % 4 * 64 + d;
            && x < 256 && y < 256 && z < 256
            && x / 4 == a && x % 4 * 16 + y / 16 == b && y % 16 * 4 + z / 64 == c && z % 64 == d
  {
  }

  lemma DecodeOne(x: Byte)
    ensures Decode(Encode([x])) == Some([x])
  {
    var a, b := x / 4, x % 4 * 16;
    SextetsOf(x, 0, 0);
    ValueOfSymbol(a);
    ValueOfSymbol(b);
    assert b % 16 == 0;
    assert Encode([x]) == [Symbol(a), Symbol(b)];
  }

  lemma DecodeTwo(x: Byte, y: Byte)
    ensures Decode(Encode([x, y])) == Some([x, y])
  {
    var a, b, c := x / 4, x % 4 * 16 + y / 16, y % 16 * 4;
    SextetsOf(x, y, 0);
    ValueOfSymbol(a);
    ValueOfSymbol(b);
    ValueOfSymbol(c);
    assert c % 4 == 0;
    assert Encode([x, y]) == [Symbol(a), Symbol(b), Symbol(c)];
  }

  lemma DecodeFour(a: int, b: int, c: int, d: int, rest: seq<Byte>)
    requires 0 <= a < 64 && 0 <= b < 64 && 0 <= c < 64 && 0 <= d < 64 && Decode(rest).Some?
    ensures Decode([Symbol(a), Symbol(b), Symbol(c), Symbol(d)] + rest) ==
              Some([a * 4 + b / 16, b % 16 * 16 + c / 4, c % 4 * 64 + d] + Decode(rest).value)
  {
    ValueOfSymbol(a);
    ValueOfSymbol(b);
    ValueOfSymbol(c);
    ValueOfSymbol(d);
    assert ([Symbol(a), Symbol(b), Symbol(c), Symbol(d)] + rest)[4..] == rest;
  }

  lemma DecodeTriple(x: Byte, y: Byte, z: Byte, rest: seq<Byte>)
    requires Decode(Encode(rest)) == Some(rest)
    ensures Decode(Encode([x, y, z] + rest)) == Some([x, y, z] + rest)
  {
    SextetsOf(x, y, z);
    EncodeTriple(x, y, z, rest);
    DecodeFour(x / 4, x % 4 * 16 + y / 16, y % 16 * 4 + z / 64, z % 64, Encode(rest));
  }

  lemma {:induction false} DecodeOfEncode(bytes: seq<Byte>)
    ensures Decode(Encode(bytes)) == Some(bytes)
    decreases |bytes|
  {
    if |bytes| == 1 {
      DecodeOne(bytes[0]);
      assert bytes == [bytes[0]];
    } else if |bytes| == 2 {
      DecodeTwo(bytes[0], bytes[1]);
      assert bytes == [bytes[0], bytes[1]];
    } else if |bytes| > 2 {
      DecodeOfEncode(bytes[3..]);
      DecodeTriple(bytes[0], bytes[1], bytes[2], bytes[3..]);
      assert bytes == [bytes[0], bytes[1], bytes[2]] + bytes[3..];
    }
  }

  lemma {:induction false} EncodeOfDecode(text: seq<Byte>)
    requires Decode(text).Some?
    ensures Encode(Decode(text).value) == text
    decreases |text|
  {
    if |text| >= 4 {
      assert Decode(text[4..]).Some?;
      EncodeOfDecode(text[4..]);
      EncodeFourSymbols(text[0], text[1], text[2], text[3], text[4..]);
      assert text == [text[0], text[1], text[2], text[3]] + text[4..];
    } else if |text| == 2 {
      EncodeTwoSymbols(text[0], text[1]);
      assert text == [text[0], text[1]];
    } else if |text| == 3 {
      EncodeThreeSymbols(text[0], text[1], text[2]);
      assert text == [text[0], text[1], text[2]];
    }
  }

  lemma EncodeTwoSymbols(s: Byte, t: Byte)
    requires Decode([s, t]).Some?
    ensures Encode(Decode([s, t]).value) == [s, t]
  {
    var a, b := Value(s), Value(t);
    BytesOf(a, b, 0, 0);
    assert Decode([s, t]).value == [a * 4 + b / 16];
    assert (a * 4 + b / 16) % 4 * 16 == b;
  }

  lemma EncodeThreeSymbols(s: Byte, t: Byte, u: Byte)
    requires Decode([s, t, u]).Some?
    ensures Encode(Decode([s, t, u]).value) == [s, t, u]
  {
    var a, b, c := Value(s), Value(t), Value(u);
    BytesOf(a, b, c, 0);
    var x, y := a * 4 + b / 16, b % 16 * 16 + c / 4;
    assert Decode([s, t, u]).value == [x, y];
    assert y % 16 * 4 == c;
  }

  lemma DecodedFour(s: Byte, t: Byte, u: Byte, v: Byte, rest: seq<Byte>)
    requires Decode([s, t, u, v] + rest).Some?
    ensures Value(s) < 64 && Value(t) < 64 && Value(u) < 64 && Value(v) < 64 && Decode(rest).Some?
    ensures var a, b, c, d := Value(s), Value(t), Value(u), Value(v);
            Decode([s, t, u, v] + rest).value ==
              [a * 4 + b / 16, b % 16 * 16 + c / 4, c % 4 * 64 + d] + Decode(rest).value
  {
    assert ([s, t, u, v] + rest)[4..] == rest;
  }

  lemma EncodeFourSymbols(s: Byte, t: Byte, u: Byte, v: Byte, rest: seq<Byte>)
    requires Decode([s, t, u, v] + rest).Some?
    requires Decode(rest).Some? ==> Encode(Decode(rest).value) == rest
    ensures Encode(Decode([s, t, u, v] + rest).value) == [s, t, u, v] + rest
  {
    DecodedFour(s, t, u, v, rest);
    var a, b, c, d := Value(s), Value(t), Value(u), Value(v);
    BytesOf(a, b, c, d);
    EncodeTriple(a * 4 + b / 16, b % 16 * 16 + c / 4, c % 4 * 64 + d, Decode(rest).value);
  }

  lemma EncodeTriple(x: Byte, y: Byte, z: Byte, rest: seq<Byte>)
    ensures Encode([x, y, z] + rest) ==
              [Symbol(x / 4), Symbol(x % 4 * 16 + y / 16), Symbol(y % 16 * 4 + z / 64), Symbol(z % 64)] + Encode(rest)
  {
    assert ([x, y, z] + rest)[3..] == rest;
  }

  /** Every text has at most one reading, and every byte string exactly one text. */
  lemma TextIsCanonical(text: seq<Byte>, bytes: seq<Byte>)
    ensures Decode(text) == Some(bytes) <==> text == Encode(bytes)
  {
    DecodeOfEncode(bytes);
    if Decode(text) == Some(bytes) {
      EncodeOfDecode(text);
    }
  }

  // ---------------------------------------------------------------------------
  // The encoding itself: RFC 4648's table, and groups of 24 bits.
  // ---------------------------------------------------------------------------

  const CAPITALS := "ABCDEFGHIJKLMNOPQRSTUVWXYZ"
  const SMALL := "abcdefghijklmnopqrstuvwxyz"
  const FIGURES := "0123456789"

  lemma CapitalIs(i: nat)
    requires i < 26
    ensures |CAPITALS| == 26 && CAPITALS[i] as int == 65 + i
  {
  }

  lemma SmallIs(i: nat)
    requires i < 26
    ensures |SMALL| == 26 && SMALL[i] as int == 97 + i
  {
  }

  lemma FigureIs(i: nat)
    requires i < 10
    ensures |FIGURES| == 10 && FIGURES[i] as int == 48 + i
  {
  }

  /** Table 2 of RFC 4648: capitals, small letters, figures, the hyphen and the underscore, in this order. */
  lemma SymbolsFollowTheTable(v: nat)
    requires v < 64
    ensures var table := CAPITALS + SMALL + FIGURES + "-" + "_";
            |table| == 64 && table[v] as int == Symbol(v) && Value(Symbol(v)) == v
  {
    ValueOfSymbol(v);
    CapitalIs(0);
    SmallIs(0);
    FigureIs(0);
    if v < 26 { CapitalIs(v); } else if v < 52 { SmallIs(v - 26); } else if v < 62 { FigureIs(v - 52); }
  }

  /** The byte at a place, or zero past the end. */
  function ByteAt(bytes: seq<Byte>, i: nat): int {
    if i < |bytes| then bytes[i] else 0
  }

  function SextetAt(text: seq<Byte>, i: nat): int {
    if i < |text| then Value(text[i]) else 0
  }

  /** The k-th three bytes as one number. */
  function BytesGroup(bytes: seq<Byte>, k: nat): int {
    65_536 * ByteAt(bytes, 3 * k) + 256 * ByteAt(bytes, 3 * k + 1) + ByteAt(bytes, 3 * k + 2)
  }

  /** The k-th four symbols as one number. */
  function TextGroup(text: seq<Byte>, k: nat): int {
    262_144 * SextetAt(text, 4 * k) + 4_096 * SextetAt(text, 4 * k + 1)
    + 64 * SextetAt(text, 4 * k + 2) + SextetAt(text, 4 * k + 3)
  }

  /** Every three bytes and their four symbols are one number of 24 bits; what is missing at the end counts as zeros. */
  lemma {:induction false} GroupsAreTheSame24Bits(bytes: seq<Byte>, k: nat)
    requires 3 * k < |bytes|
    ensures BytesGroup(bytes, k) == TextGroup(Encode(bytes), k)
    decreases k
  {
    if k > 0 {
      var rest := bytes[3..];
      GroupsAreTheSame24Bits(rest, k - 1);
      LaterGroup(bytes, rest, k - 1);
    } else {
      FirstGroup(bytes);
    }
  }

  lemma LaterGroup(bytes: seq<Byte>, rest: seq<Byte>, k: nat)
    requires |bytes| > 3 && rest == bytes[3..] && BytesGroup(rest, k) == TextGroup(Encode(rest), k)
    ensures BytesGroup(bytes, k + 1) == TextGroup(Encode(bytes), k + 1)
  {
    var head := TextPastTheFirstGroup(bytes);
    GroupsPast(head, Encode(rest), bytes, k);
  }

  lemma ValuesOfSymbols(a: nat, b: nat, c: nat, d: nat)
    requires a < 64 && b < 64 && c < 64 && d < 64
    ensures Value(Symbol(a)) == a && Value(Symbol(b)) == b && Value(Symbol(c)) == c && Value(Symbol(d)) == d
  {
    ValueOfSymbol(a);
    ValueOfSymbol(b);
    ValueOfSymbol(c);
    ValueOfSymbol(d);
  }

  lemma FirstSymbols(bytes: seq<Byte>)
    requires bytes != []
    ensures var text, x, y, z := Encode(bytes), bytes[0], ByteAt(bytes, 1), ByteAt(bytes, 2);
            && |text| == (4 * |bytes| + 2) / 3
            && text[0] == Symbol(x / 4) && text[1] == Symbol(x % 4 * 16 + y / 16)
            && (|bytes| > 1 ==> text[2] == Symbol(y % 16 * 4 + z / 64))
            && (|bytes| > 2 ==> text[3] == Symbol(z % 64))
  {
    SextetsOf(bytes[0], ByteAt(bytes, 1), ByteAt(bytes, 2));
  }

  /** The symbols of the first group, by their values; those of the zeros past the end are left out. */
  lemma FirstSextets(bytes: seq<Byte>)
    requires bytes != []
    ensures var text, x, y, z := Encode(bytes), bytes[0], ByteAt(bytes, 1), ByteAt(bytes, 2);
            && SextetAt(text, 0) == x / 4 && SextetAt(text, 1) == x % 4 * 16 + y / 16
            && SextetAt(text, 2) == y % 16 * 4 + z / 64 && SextetAt(text, 3) == z % 64
  {
    var x, y, z := bytes[0], ByteAt(bytes, 1), ByteAt(bytes, 2);
    SextetsOf(x, y, z);
    FirstSymbols(bytes);
    ValuesOfSymbols(x / 4, x % 4 * 16 + y / 16, y % 16 * 4 + z / 64, z % 64);
  }

  lemma FirstGroup(bytes: seq<Byte>)
    requires bytes != []
    ensures BytesGroup(bytes, 0) == TextGroup(Encode(bytes), 0)
  {
    FirstSextets(bytes);
    SplitOf24Bits(bytes[0], ByteAt(bytes, 1), ByteAt(bytes, 2));
  }

  lemma SextetsPast(head: seq<Byte>, rest: seq<Byte>, j: nat)
    requires |head| == 4
    ensures SextetAt(head + rest, 4 + j) == SextetAt(rest, j)
  {
    if j < |rest| { assert (head + rest)[4 + j] == rest[j]; }
  }

  /** Past the first group, the text is the encoding of the bytes past it. */
  lemma TextPastTheFirstGroup(bytes: seq<Byte>) returns (head: seq<Byte>)
    requires |bytes| > 3
    ensures |head| == 4 && Encode(bytes) == head + Encode(bytes[3..])
  {
    var x, y, z := bytes[0], bytes[1], bytes[2];
    EncodeTriple(x, y, z, bytes[3..]);
    assert bytes == [x, y, z] + bytes[3..];
    head := [Symbol(x / 4), Symbol(x % 4 * 16 + y / 16), Symbol(y % 16 * 4 + z / 64), Symbol(z % 64)];
  }

  lemma GroupsPast(head: seq<Byte>, rest: seq<Byte>, bytes: seq<Byte>, k: nat)
    requires |head| == 4 && |bytes| > 3
    ensures TextGroup(head + rest, k + 1) == TextGroup(rest, k)
    ensures BytesGroup(bytes, k + 1) == BytesGroup(bytes[3..], k)
  {
    SextetsPast(head, rest, 4 * k);
    SextetsPast(head, rest, 4 * k + 1);
    SextetsPast(head, rest, 4 * k + 2);
    SextetsPast(head, rest, 4 * k + 3);
  }

  lemma SplitOf24Bits(x: Byte, y: Byte, z: Byte)
    ensures 65_536 * x + 256 * y + z ==
            262_144 * (x / 4) + 4_096 * (x % 4 * 16 + y / 16) + 64 * (y % 16 * 4 + z / 64) + z % 64
  {
  }

  // ---------------------------------------------------------------------------
  // Configured keys.
  // ---------------------------------------------------------------------------

  const KEY_BYTES: nat := 32
  const PADDING: Byte := 61

  datatype KeyError = InvalidEncoding | InvalidLength

  /** More than 32 bytes do not fit the buffer and read as a bad encoding; fewer are a bad length. */
  function KeyFromBase64Url(text: seq<Byte>): Result<seq<Byte>, KeyError> {
    if PADDING in text then Err(InvalidEncoding)
    else
      var decoded := Decode(text);
      if decoded.None? || |decoded.value| > KEY_BYTES then Err(InvalidEncoding)
      else if |decoded.value| != KEY_BYTES then Err(InvalidLength)
      else if Encode(decoded.value) != text then Err(InvalidEncoding)
      else Ok(decoded.value)
  }

  lemma {:induction false} NoPadding(bytes: seq<Byte>)
    ensures PADDING !in Encode(bytes)
    decreases |bytes|
  {
    if |bytes| > 2 {
      NoPadding(bytes[3..]);
    }
  }

  /** A key is accepted exactly in its one encoding; the re-encoding check refuses nothing more. */
  lemma KeysHaveOneText(text: seq<Byte>, key: seq<Byte>)
    ensures KeyFromBase64Url(text) == Ok(key) <==> |key| == KEY_BYTES && text == Encode(key)
    ensures Decode(text).Some? ==> Encode(Decode(text).value) == text
  {
    TextIsCanonical(text, key);
    NoPadding(key);
    if Decode(text).Some? {
      EncodeOfDecode(text);
    }
  }

  /** Shorter key material is told apart from a broken encoding. */
  lemma ShortKeysAreInvalidLength(bytes: seq<Byte>)
    ensures KeyFromBase64Url(Encode(bytes)) == Err(InvalidLength) <==> |bytes| < KEY_BYTES
  {
    DecodeOfEncode(bytes);
    NoPadding(bytes);
    LengthDecides(Encode(bytes), bytes);
  }

  lemma LengthDecides(text: seq<Byte>, bytes: seq<Byte>)
    requires Decode(text) == Some(bytes) && PADDING !in text && Encode(bytes) == text
    ensures KeyFromBase64Url(text) == Err(InvalidLength) <==> |bytes| < KEY_BYTES
  {
  }
}
