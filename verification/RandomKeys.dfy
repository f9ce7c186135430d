/** Rejection sampling from an alphabet, and the endpoint keys drawn with it. */
module RandomKeys {
  import opened Common
  import opened Identifiers

  const CHUNK: nat := 64
  const ENDPOINT_KEY_LENGTH: nat := 8
  const LETTERS := "ABCDEFGHIJKLMNOPQRSTUVWXYZ"
  const DIGITS := "0123456789"
  const ENDPOINT_KEY_ALPHABET := LETTERS + DIGITS

  /** The largest multiple of the alphabet's size that fits in a byte. */
  function Limit(size: nat): nat
    requires size > 0
  {
    256 / size * size
  }

  /** The symbol a byte stands for; bytes at or above the limit stand for none. */
  function SymbolOf(alphabet: string, limit: nat, byte: Byte): string
    requires alphabet != ""
  {
    if byte < limit then [alphabet[byte % |alphabet|]] else ""
  }

  /** The symbols a stream of random bytes stands for. */
  function Draw(alphabet: string, limit: nat, bytes: seq<Byte>): string
    requires alphabet != ""
    decreases |bytes|
  {
    if bytes == [] then ""
    else Draw(alphabet, limit, bytes[..|bytes| - 1]) + SymbolOf(alphabet, limit, bytes[|bytes| - 1])
  }

  /** The random source, read 64 bytes at a time until it fails. */
  function Stream(chunks: seq<seq<Byte>>): seq<Byte>
    decreases |chunks|
  {
    if chunks == [] then [] else Stream(chunks[..|chunks| - 1]) + chunks[|chunks| - 1]
  }

  datatype EntropyError = EntropyError

  lemma {:induction false} DrawAdds(alphabet: string, limit: nat, a: seq<Byte>, b: seq<Byte>)
    requires alphabet != ""
    ensures Draw(alphabet, limit, a + b) == Draw(alphabet, limit, a) + Draw(alphabet, limit, b)
    decreases |b|
  {
    if b == [] {
      assert a + b == a;
    } else {
      DrawAdds(alphabet, limit, a, b[..|b| - 1]);
      assert (a + b)[..|a + b| - 1] == a + b[..|b| - 1];
    }
  }

  lemma {:induction false} DrawGrows(alphabet: string, limit: nat, chunks: seq<seq<Byte>>, k: nat)
    requires alphabet != "" && k <= |chunks|
    ensures Draw(alphabet, limit, Stream(chunks[..k])) <= Draw(alphabet, limit, Stream(chunks))
    decreases |chunks| - k
  {
    if k == |chunks| {
      assert chunks[..k] == chunks;
    } else {
      DrawGrows(alphabet, limit, chunks, k + 1);
      assert chunks[..k + 1][..k] == chunks[..k];
      DrawAdds(alphabet, limit, Stream(chunks[..k]), chunks[k]);
    }
  }

  lemma DrawSnoc(alphabet: string, limit: nat, bytes: seq<Byte>, byte: Byte)
    requires alphabet != ""
    ensures Draw(alphabet, limit, bytes + [byte]) == Draw(alphabet, limit, bytes) + SymbolOf(alphabet, limit, byte)
  {
    assert (bytes + [byte])[..|bytes|] == bytes;
  }

  lemma MoveByte(seen: seq<Byte>, buffer: seq<Byte>, i: nat)
    requires i < |buffer|
    ensures (seen + [buffer[i]]) + buffer[i + 1..] == seen + buffer[i..]
  {
    assert buffer[i..] == [buffer[i]] + buffer[i + 1..];
  }

  /** The inner loop: takes symbols from one buffer until the output is long enough. */
  method TakeSymbols(alphabet: string, limit: nat, start: string, length: nat, buffer: seq<Byte>,
                     ghost before: seq<Byte>)
    returns (output: string)
    requires alphabet != "" && start == Draw(alphabet, limit, before) && |start| < length
    ensures |output| <= length && output <= Draw(alphabet, limit, before + buffer)
    ensures |output| < length ==> output == Draw(alphabet, limit, before + buffer)
  {
    output := start;
    ghost var seen := before;
    var i := 0;
    while i < |buffer| && |output| < length
      invariant 0 <= i <= |buffer| && |output| <= length
      invariant seen + buffer[i..] == before + buffer
      invariant output == Draw(alphabet, limit, seen)
    {
      DrawSnoc(alphabet, limit, seen, buffer[i]);
      if buffer[i] < limit {
        output := output + [alphabet[buffer[i] % |alphabet|]];
      }
      MoveByte(seen, buffer, i);
      seen, i := seen + [buffer[i]], i + 1;
    }
    DrawAdds(alphabet, limit, seen, buffer[i..]);
    assert |output| < length ==> buffer[i..] == [];
  }

  /** Where the stream holds a byte below the limit, in order. */
  function AcceptedAt(limit: nat, bytes: seq<Byte>): seq<nat>
    decreases |bytes|
  {
    if bytes == [] then [] else
    var before := AcceptedAt(limit, bytes[..|bytes| - 1]);
    if bytes[|bytes| - 1] < limit then before + [|bytes| - 1] else before
  }

  ghost predicate Ascending(at: seq<nat>) {
    forall i, j :: 0 <= i < j < |at| ==> at[i] < at[j]
  }

  /** The accepted positions are exactly those of the bytes below the limit, each once and in order. */
  lemma {:induction false} AcceptedAreTheBytesBelow(limit: nat, bytes: seq<Byte>)
    ensures forall i :: i in AcceptedAt(limit, bytes) <==> 0 <= i < |bytes| && bytes[i] < limit
    ensures Ascending(AcceptedAt(limit, bytes))
    decreases |bytes|
  {
    if bytes != [] {
      var before := AcceptedAt(limit, bytes[..|bytes| - 1]);
      AcceptedAreTheBytesBelow(limit, bytes[..|bytes| - 1]);
      forall i | 0 <= i < |before| ensures before[i] < |bytes| - 1 {
        assert before[i] in before;
      }
    }
  }

  /** The text spells, for each accepted byte in turn, the letter at its remainder. */
  ghost predicate Spells(alphabet: string, limit: nat, bytes: seq<Byte>, text: string)
    requires alphabet != ""
  {
    var at := AcceptedAt(limit, bytes);
    && |text| <= |at|
    && forall i :: 0 <= i < |text| ==> 0 <= at[i] < |bytes| && text[i] == alphabet[bytes[at[i]] % |alphabet|]
  }

  lemma {:induction false} DrawSpells(alphabet: string, limit: nat, bytes: seq<Byte>)
    requires alphabet != ""
    ensures |Draw(alphabet, limit, bytes)| == |AcceptedAt(limit, bytes)|
    ensures Spells(alphabet, limit, bytes, Draw(alphabet, limit, bytes))
    decreases |bytes|
  {
    if bytes != [] {
      DrawSpells(alphabet, limit, bytes[..|bytes| - 1]);
    }
  }

  /** The stream is the chunks end to end. */
  lemma {:induction false} StreamIsTheChunks(chunks: seq<seq<Byte>>, c: nat, i: nat)
    requires (forall j :: 0 <= j < |chunks| ==> |chunks[j]| == 64) && c < |chunks| && i < 64
    ensures |Stream(chunks)| == 64 * |chunks| && Stream(chunks)[64 * c + i] == chunks[c][i]
    decreases |chunks|
  {
    var before := chunks[..|chunks| - 1];
    if c < |before| {
      StreamIsTheChunks(before, c, i);
      assert before[c] == chunks[c];
    } else {
      if before != [] { StreamIsTheChunks(before, 0, 0); }
      assert |Stream(before)| == 64 * c;
    }
  }

  /** The first `length` accepted bytes as symbols, wherever the chunks end; else the source ran dry. */
  method RandomString(alphabet: string, length: nat, chunks: seq<seq<Byte>>) returns (r: Result<string, EntropyError>)
    requires alphabet != "" && forall i :: 0 <= i < |chunks| ==> |chunks[i]| == CHUNK
    ensures r.Ok? <==> length <= |AcceptedAt(Limit(|alphabet|), Stream(chunks))|
    ensures r.Ok? ==> |r.value| == length && Spells(alphabet, Limit(|alphabet|), Stream(chunks), r.value)
    ensures r.Ok? ==> r.value <= Draw(alphabet, Limit(|alphabet|), Stream(chunks))
  {
    var limit := 256 / |alphabet| * |alphabet|;
    DrawSpells(alphabet, limit, Stream(chunks));
    var output := "";
    var filled := 0;
    while |output| < length
      invariant filled <= |chunks| && |output| <= length
      invariant output <= Draw(alphabet, limit, Stream(chunks[..filled]))
      invariant |output| < length ==> output == Draw(alphabet, limit, Stream(chunks[..filled]))
      decreases |chunks| - filled
    {
      if filled == |chunks| {
        assert chunks[..filled] == chunks;
        return Err(EntropyError);
      }
      output := TakeSymbols(alphabet, limit, output, length, chunks[filled], Stream(chunks[..filled]));
      filled := filled + 1;
      assert chunks[..filled][..filled - 1] == chunks[..filled - 1];
    }
    DrawGrows(alphabet, limit, chunks, filled);
    r := Ok(output);
  }

  // ---------------------------------------------------------------------------
  // Fairness: every symbol owns the same number of byte values.
  // ---------------------------------------------------------------------------

  /** The byte values that draw the `k`-th symbol of an alphabet of this size. */
  function Owned(size: nat, k: nat): set<int>
    requires k < size
  {
    set b | 0 <= b < 256 && b < Limit(size) && b % size == k
  }

  function Multiples(size: nat, k: nat, count: nat): set<int> {
    if count == 0 then {} else Multiples(size, k, count - 1) + {k + size * (count - 1)}
  }

  lemma {:induction false} MultiplesAre(size: nat, k: nat, count: nat)
    requires k < size
    ensures |Multiples(size, k, count)| == count
    ensures forall b :: b in Multiples(size, k, count) <==> 0 <= b < size * count && b % size == k
    decreases count
  {
    if count > 0 {
      MultiplesAre(size, k, count - 1);
      forall b ensures b in Multiples(size, k, count) <==> 0 <= b < size * count && b % size == k {
        OneMoreMultiple(size, k, count, b);
      }
    }
  }

  lemma OneMoreMultiple(size: nat, k: nat, count: nat, b: int)
    requires k < size && count > 0
    ensures (0 <= b < size * count && b % size == k) <==>
              (0 <= b < size * (count - 1) && b % size == k) || b == k + size * (count - 1)
  {
    var c := count - 1;
    assert size * count == size * c + size;
    assert size * c >= 0;
    ModOfMultiple(size, c, k);
    if size * c <= b < size * count && b % size == k {
      ModOfMultiple(size, c, b - size * c);
    }
  }

  lemma ModOfMultiple(size: nat, c: nat, r: nat)
    requires r < size
    ensures (size * c + r) % size == r
  {
    var n := size * c + r;
    assert n == size * (n / size) + n % size;
    MultiplesAreFarApart(size, n / size - c);
  }

  lemma MultiplesAreFarApart(s: int, d: int)
    requires s > 0
    ensures d > 0 ==> s * d >= s
    ensures d < 0 ==> s * d <= -s
  {
  }

  /** The byte values below a limit that draw the `k`-th symbol of an alphabet of this size. */
  function Drawing(size: nat, k: nat, limit: nat): set<int>
    requires k < size
  {
    set b | 0 <= b < limit && b % size == k
  }

  lemma DrawingBelow(size: nat, k: nat, count: nat, limit: nat)
    requires k < size && limit == size * count
    ensures |Drawing(size, k, limit)| == count
  {
    MultiplesAre(size, k, count);
    assert Drawing(size, k, limit) == Multiples(size, k, count);
  }

  lemma LimitFits(size: nat)
    requires 0 < size <= 256
    ensures Limit(size) == size * (256 / size) && Limit(size) <= 256
  {
  }

  lemma EverySymbolIsEquallyLikely(size: nat, k: nat)
    requires k < size <= 256
    ensures |Owned(size, k)| == 256 / size
  {
    LimitFits(size);
    OwnedAreBelowTheLimit(size, k, Limit(size));
    DrawingBelow(size, k, 256 / size, Limit(size));
  }

  /** The limit is the largest multiple of the size that a byte can hold. */
  lemma LimitIsTheLargestMultiple(size: nat)
    requires 0 < size <= 256
    ensures Limit(size) % size == 0 && Limit(size) <= 256 < Limit(size) + size
  {
    LimitFits(size);
    ModOfMultiple(size, 256 / size, 0);
    assert 256 == size * (256 / size) + 256 % size;
  }

  /** Every letter of an alphabet without repeats is drawn by the same number of byte values. */
  lemma EveryLetterIsEquallyLikely(alphabet: string, k: nat)
    requires 0 < |alphabet| <= 256 && k < |alphabet|
    requires forall i, j :: 0 <= i < j < |alphabet| ==> alphabet[i] != alphabet[j]
    ensures |set b: int | 0 <= b < 256 && SymbolOf(alphabet, Limit(|alphabet|), b) == [alphabet[k]]|
            == 256 / |alphabet|
  {
    var drawing := set b: int | 0 <= b < 256 && SymbolOf(alphabet, Limit(|alphabet|), b) == [alphabet[k]];
    EverySymbolIsEquallyLikely(|alphabet|, k);
    forall b | 0 <= b < 256 ensures b in drawing <==> b in Owned(|alphabet|, k) {
      assert SymbolOf(alphabet, Limit(|alphabet|), b) == [alphabet[k]] <==>
             b < Limit(|alphabet|) && alphabet[b % |alphabet|] == alphabet[k];
    }
    assert drawing == Owned(|alphabet|, k);
  }

  lemma OwnedAreBelowTheLimit(size: nat, k: nat, limit: nat)
    requires k < size && limit == Limit(size) <= 256
    ensures Owned(size, k) == Drawing(size, k, limit)
  {
  }

  // ---------------------------------------------------------------------------
  // Endpoint keys.
  // ---------------------------------------------------------------------------

  function Upper(c: char): char {
    if 'a' <= c <= 'z' then (c as int - 32) as char else c
  }

  /** Exactly eight letters or digits, with letters read as uppercase. */
  function ParseKey(text: string): Option<string> {
    if |text| != ENDPOINT_KEY_LENGTH || exists i :: 0 <= i < |text| && !Alphanumeric(text[i]) then None
    else Some(seq(|text|, i requires 0 <= i < |text| => Upper(text[i])))
  }

  lemma {:induction false} DrawnFromAlphabet(alphabet: string, limit: nat, bytes: seq<Byte>)
    requires alphabet != ""
    ensures forall i :: 0 <= i < |Draw(alphabet, limit, bytes)| ==> Draw(alphabet, limit, bytes)[i] in alphabet
    decreases |bytes|
  {
    if bytes != [] {
      DrawnFromAlphabet(alphabet, limit, bytes[..|bytes| - 1]);
    }
  }

  /** A generated key is a key, and reads back as itself. */
  method GenerateKey(chunks: seq<seq<Byte>>) returns (r: Result<string, EntropyError>)
    requires forall i :: 0 <= i < |chunks| ==> |chunks[i]| == CHUNK
    ensures r.Ok? <==> 8 <= |AcceptedAt(252, Stream(chunks))|
    ensures r.Ok? ==> |r.value| == 8 && Spells(ENDPOINT_KEY_ALPHABET, 252, Stream(chunks), r.value)
    ensures r.Ok? ==> ParseKey(r.value) == Some(r.value)
  {
    r := RandomString(ENDPOINT_KEY_ALPHABET, ENDPOINT_KEY_LENGTH, chunks);
    assert Limit(|ENDPOINT_KEY_ALPHABET|) == 252;
    DrawSpells(ENDPOINT_KEY_ALPHABET, 252, Stream(chunks));
    if r.Ok? {
      KeysParse(Stream(chunks), r.value);
    }
  }

  lemma LettersAreUppercase(c: char)
    requires c in LETTERS
    ensures 'A' <= c <= 'Z'
  {
  }

  lemma AlphabetIsUppercase(c: char)
    requires c in ENDPOINT_KEY_ALPHABET
    ensures 'A' <= c <= 'Z' || '0' <= c <= '9'
  {
    if c in LETTERS { LettersAreUppercase(c); } else { assert c in DIGITS; }
  }

  /** The letter at each place of the key alphabet: the capitals, then the digits. */
  lemma KeyAlphabetIs(i: nat)
    requires i < 36
    ensures |ENDPOINT_KEY_ALPHABET| == 36
    ensures ENDPOINT_KEY_ALPHABET[i] as int == if i < 26 then 'A' as int + i else '0' as int + i - 26
  {
    if i < 26 { LetterIs(i); } else { DigitIs(i - 26); }
  }

  lemma LetterIs(i: nat)
    requires i < 26
    ensures LETTERS[i] as int == 'A' as int + i
  {
  }

  lemma DigitIs(i: nat)
    requires i < 10
    ensures DIGITS[i] as int == '0' as int + i
  {
  }

  lemma KeysParse(bytes: seq<Byte>, key: string)
    requires |key| == ENDPOINT_KEY_LENGTH && key <= Draw(ENDPOINT_KEY_ALPHABET, 252, bytes)
    ensures ParseKey(key) == Some(key)
  {
    DrawnFromAlphabet(ENDPOINT_KEY_ALPHABET, 252, bytes);
    forall i | 0 <= i < |key| ensures Alphanumeric(key[i]) && Upper(key[i]) == key[i] {
      assert key[i] == Draw(ENDPOINT_KEY_ALPHABET, 252, bytes)[i];
      AlphabetIsUppercase(key[i]);
    }
    assert ParseKey(key).value == key;
  }

  /** Reading is idempotent and blind to case. */
  lemma KeysIgnoreCase(a: string, b: string)
    requires ParseKey(a).Some?
    ensures ParseKey(ParseKey(a).value) == ParseKey(a)
    ensures ParseKey(a) == ParseKey(b) <==> |a| == |b| && forall i :: 0 <= i < |a| ==> Upper(a[i]) == Upper(b[i])
  {
    var key := ParseKey(a).value;
    forall i | 0 <= i < |key| ensures key[i] == Upper(a[i]) == Upper(key[i]) && Alphanumeric(key[i]) {
      assert Alphanumeric(a[i]);
    }
    assert ParseKey(key).value == key;
    if |a| == |b| && forall i :: 0 <= i < |a| ==> Upper(a[i]) == Upper(b[i]) {
      forall i | 0 <= i < |b| ensures Alphanumeric(b[i]) {
        assert Alphanumeric(a[i]) && Upper(a[i]) == Upper(b[i]);
      }
      assert ParseKey(b).value == key;
    }
    if ParseKey(a) == ParseKey(b) {
      assert forall i :: 0 <= i < |key| ==> key[i] == Upper(b[i]);
    }
  }
}
