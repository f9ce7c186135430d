/** Runs seen as histories: each step taken, beside the state it was taken in. */
module Histories {

  /** Some moment from the j-th on was of this kind. */
  ghost predicate Since<M, S>(past: seq<(M, S)>, j: nat, kind: (M, S) -> bool) {
    exists k :: j <= k < |past| && kind(past[k].0, past[k].1)
  }

  /** Something began at one moment, and nothing has ended it since. */
  ghost predicate Standing<M, S>(past: seq<(M, S)>, begin: (M, S) -> bool, end: (M, S) -> bool) {
    exists k :: 0 <= k < |past| && begin(past[k].0, past[k].1) && !Since(past, k + 1, end)
  }

  lemma SinceLast<M, S>(past: seq<(M, S)>, x: (M, S), j: nat, kind: (M, S) -> bool)
    requires j <= |past|
    ensures Since(past + [x], j, kind) <==> Since(past, j, kind) || kind(x.0, x.1)
  {
    var all := past + [x];
    assert all[|past|] == x;
    if Since(past, j, kind) {
      var k :| j <= k < |past| && kind(past[k].0, past[k].1);
      assert all[k] == past[k];
    }
  }

  lemma StandingLast<M, S>(past: seq<(M, S)>, x: (M, S), begin: (M, S) -> bool, end: (M, S) -> bool)
    ensures Standing(past + [x], begin, end) <==> begin(x.0, x.1) || (Standing(past, begin, end) && !end(x.0, x.1))
  {
    var all := past + [x];
    assert all[|past|] == x && !Since(all, |past| + 1, end);
    if Standing(past, begin, end) {
      var k :| 0 <= k < |past| && begin(past[k].0, past[k].1) && !Since(past, k + 1, end);
      SinceLast(past, x, k + 1, end);
      assert all[k] == past[k];
    }
    if Standing(all, begin, end) {
      var k :| 0 <= k < |all| && begin(all[k].0, all[k].1) && !Since(all, k + 1, end);
      if k < |past| {
        SinceLast(past, x, k + 1, end);
        assert all[k] == past[k];
      }
    }
  }
}
