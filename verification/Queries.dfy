/**
 * A writer and a reader of name-value pairs that undo each other: pairs are separated by '&', a name and its
 * value by '=', and these two signs and '%' are escaped inside them.
 */
module Queries {
  import opened Text

  type Pair = (string, string)

  function Escape(text: string): string {
    if text == "" then ""
    else
      (match text[0]
       case '%' => "%0"
       case '&' => "%1"
       case '=' => "%2"
       case c => [c]) + Escape(text[1..])
  }

  function Unescape(text: string): string
    decreases |text|
  {
    if text == "" then ""
    else if text[0] != '%' || |text| == 1 then [text[0]] + Unescape(text[1..])
    else [if text[1] == '0' then '%' else if text[1] == '1' then '&' else '='] + Unescape(text[2..])
  }

  function PrintPair(p: Pair): string {
    Escape(p.0) + "=" + Escape(p.1)
  }

  /** A pair without a sign of equality has an empty value. */
  function ParsePair(text: string): Pair {
    var parts := Split(text, '=');
    (Unescape(parts[0]), Unescape(Join(parts[1..], '=')))
  }

  function Print(pairs: seq<Pair>): string {
    Join(seq(|pairs|, i requires 0 <= i < |pairs| => PrintPair(pairs[i])), '&')
  }

  function Parse(text: string): seq<Pair> {
    if text == "" then []
    else
      var parts := Split(text, '&');
      seq(|parts|, i requires 0 <= i < |parts| => ParsePair(parts[i]))
  }

  lemma {:induction false} Unescaped(text: string)
    ensures Unescape(Escape(text)) == text
    ensures Lacks(Escape(text), '&') && Lacks(Escape(text), '=')
    decreases |text|
  {
    if text != "" {
      Unescaped(text[1..]);
      var rest := Escape(text[1..]);
      if text[0] == '%' || text[0] == '&' || text[0] == '=' {
        assert Escape(text)[2..] == rest;
      } else {
        assert Escape(text)[1..] == rest;
      }
      assert text == [text[0]] + text[1..];
    }
  }

  lemma PairReadsBack(p: Pair)
    ensures ParsePair(PrintPair(p)) == p && Lacks(PrintPair(p), '&') && PrintPair(p) != ""
  {
    Unescaped(p.0);
    Unescaped(p.1);
    SplitCuts(Escape(p.0), Escape(p.1), '=');
    SplitLeaves(Escape(p.1), '=');
  }

  /** Every list of pairs reads back as written. */
  lemma ReadsBack(pairs: seq<Pair>)
    ensures Parse(Print(pairs)) == pairs
  {
    var parts := seq(|pairs|, i requires 0 <= i < |pairs| => PrintPair(pairs[i]));
    forall i | 0 <= i < |pairs| ensures ParsePair(parts[i]) == pairs[i] && Lacks(parts[i], '&') && parts[i] != "" {
      PairReadsBack(pairs[i]);
    }
    if pairs != [] {
      SplitOfJoin(parts, '&');
    }
  }

  /** Nothing in the text is escaped or separates. */
  predicate Plain(text: string) {
    forall i :: 0 <= i < |text| ==> text[i] != '%' && text[i] != '&' && text[i] != '='
  }

  lemma {:induction false} PlainIsUnescaped(text: string)
    requires Plain(text)
    ensures Unescape(text) == text
    decreases |text|
  {
    if text != "" {
      PlainIsUnescaped(text[1..]);
      assert text == [text[0]] + text[1..];
    }
  }

  lemma PlainReadsAsOnePair(text: string)
    requires Plain(text) && text != ""
    ensures Parse(text) == [(text, "")]
  {
    SplitLeaves(text, '&');
    SplitLeaves(text, '=');
    PlainIsUnescaped(text);
    assert ParsePair(text) == (text, "");
  }
}
