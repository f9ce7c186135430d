/** Abuse control of one client address on one hook: twenty unverified requests, one day's block. */
module Strikes {
  import opened Common

  const UNVERIFIED_REQUESTS_PER_BLOCK: nat := 20
  const BLOCK_DURATION: Instant := DAY

  datatype BlockState = BlockState(strikes: nat, blockedUntil: Option<Instant>)

  datatype BlockCheck = Allowed | BlockedUntil(until: Instant)

  datatype StrikeOutcome = Counted(strikes: nat) | Blocked(until: Instant)

  const Clean := BlockState(0, None)

  function Check(s: BlockState, now: Instant): BlockCheck {
    if s.blockedUntil.Some? && now < s.blockedUntil.value then BlockedUntil(s.blockedUntil.value) else Allowed
  }

  function Record(s: BlockState, now: Instant): (BlockState, StrikeOutcome) {
    var cleared := if s.blockedUntil.Some? && now >= s.blockedUntil.value then None else s.blockedUntil;
    var strikes := Min(s.strikes + 1, U32_MAX);
    if strikes < UNVERIFIED_REQUESTS_PER_BLOCK then
      (BlockState(strikes, cleared), Counted(strikes))
    else
      var until := SaturatingAdd(now, BLOCK_DURATION, LAST_INSTANT);
      (BlockState(0, Some(until)), Blocked(until))
  }

  class IpBlockState {
    var strikes: nat
    var blockedUntil: Option<Instant>

    constructor ()
      ensures View() == Clean
    {
      strikes, blockedUntil := 0, None;
    }

    ghost function View(): BlockState
      reads this
    {
      BlockState(strikes, blockedUntil)
    }

    method CheckAt(now: Instant) returns (r: BlockCheck)
      ensures r == Check(View(), now)
    {
      match blockedUntil
      case Some(until) =>
        if now < until {
          return BlockedUntil(until);
        }
        return Allowed;
      case None =>
        return Allowed;
    }

    method RecordUnverified(now: Instant) returns (r: StrikeOutcome)
      modifies this
      ensures (View(), r) == Record(old(View()), now)
    {
      if blockedUntil.Some? && now >= blockedUntil.value {
        blockedUntil := None;
      }
      strikes := Min(strikes + 1, U32_MAX);
      if strikes < UNVERIFIED_REQUESTS_PER_BLOCK {
        return Counted(strikes);
      }
      strikes := 0;
      var until := SaturatingAdd(now, BLOCK_DURATION, LAST_INSTANT);
      blockedUntil := Some(until);
      return Blocked(until);
    }

    /**
     * One unverified request as ingress handles it: the check and the strike at the same receive
     * time, with no other record in between.
     */
    method Withhold(now: Instant) returns (check: BlockCheck, strike: Option<StrikeOutcome>)
      modifies this
      ensures check == Check(old(View()), now)
      ensures check.Allowed? ==> strike.Some? && (View(), strike.value) == Record(old(View()), now)
      ensures !check.Allowed? ==> strike.None? && View() == old(View())
    {
      check := CheckAt(now);
      strike := None;
      if check.Allowed? {
        var outcome := RecordUnverified(now);
        strike := Some(outcome);
      }
    }
  }

  // ---------------------------------------------------------------------------
  // Runs of recorded requests.
  // ---------------------------------------------------------------------------

  function After(s: BlockState, records: seq<Instant>): BlockState
    decreases |records|
  {
    if records == [] then s else After(Record(s, records[0]).0, records[1..])
  }

  /** The instants at which the recorded requests started a block. */
  function BlockStarts(s: BlockState, records: seq<Instant>): seq<Instant>
    decreases |records|
  {
    if records == [] then [] else
    (if Record(s, records[0]).1.Blocked? then [records[0]] else [])
      + BlockStarts(Record(s, records[0]).0, records[1..])
  }

  /** Every record followed an "allowed" check at the same instant. */
  ghost predicate EachAllowed(s: BlockState, records: seq<Instant>)
    decreases |records|
  {
    records == [] ||
    (Check(s, records[0]).Allowed? && EachAllowed(Record(s, records[0]).0, records[1..]))
  }

  function Within(records: seq<Instant>, from: Instant, until: Instant): nat
    decreases |records|
  {
    if records == [] then 0 else
    (if from <= records[0] < until then 1 else 0) + Within(records[1..], from, until)
  }

  ghost predicate Sane(records: seq<Instant>) {
    NonDecreasing(records) && forall i :: 0 <= i < |records| ==> records[i] <= LAST_INSTANT
  }

  lemma SaneTail(records: seq<Instant>)
    requires Sane(records) && records != []
    ensures Sane(records[1..])
    ensures forall i :: 0 <= i < |records[1..]| ==> records[0] <= records[1..][i]
  {
    assert forall i :: 0 <= i < |records[1..]| ==> records[1..][i] == records[i + 1];
  }

  /** In every run, with or without checks, no recorded request is lost or counted twice. */
  lemma {:induction false} StrikesAreConserved(s: BlockState, records: seq<Instant>)
    requires s.strikes < UNVERIFIED_REQUESTS_PER_BLOCK
    ensures After(s, records).strikes < UNVERIFIED_REQUESTS_PER_BLOCK
    ensures s.strikes + |records| ==
            UNVERIFIED_REQUESTS_PER_BLOCK * |BlockStarts(s, records)| + After(s, records).strikes
    decreases |records|
  {
    if records != [] {
      StrikesAreConserved(Record(s, records[0]).0, records[1..]);
    }
  }

  lemma {:induction false} NoneAllowedWhileBlocked(s: BlockState, records: seq<Instant>, from: Instant, until: Instant)
    requires EachAllowed(s, records) && Sane(records)
    requires s.blockedUntil.Some? && until <= s.blockedUntil.value
    ensures Within(records, from, until) == 0
  {
    if records != [] {
      SaneTail(records);
      NoneBefore(records, from, until);
    }
  }

  lemma {:induction false} NoneBefore(records: seq<Instant>, from: Instant, until: Instant)
    requires forall i :: 0 <= i < |records| ==> until <= records[i]
    ensures Within(records, from, until) == 0
    decreases |records|
  {
    if records != [] {
      assert forall i :: 0 <= i < |records[1..]| ==> records[1..][i] == records[i + 1];
      NoneBefore(records[1..], from, until);
    }
  }

  lemma {:induction false} WindowFrom(s: BlockState, records: seq<Instant>, from: Instant)
    requires s.strikes < UNVERIFIED_REQUESTS_PER_BLOCK
    requires EachAllowed(s, records) && Sane(records) && from + DAY <= LAST_INSTANT
    ensures Within(records, from, from + DAY) <= UNVERIFIED_REQUESTS_PER_BLOCK
    ensures records != [] && from <= records[0] ==>
              Within(records, from, from + DAY) <= UNVERIFIED_REQUESTS_PER_BLOCK - s.strikes
    decreases |records|
  {
    if records != [] {
      SaneTail(records);
      var next := Record(s, records[0]).0;
      if from <= records[0] && next.strikes == 0 {
        NoneAllowedWhileBlocked(next, records[1..], from, from + DAY);
      } else {
        WindowFrom(next, records[1..], from);
      }
    }
  }

  /** Under the check-then-record discipline any one-day window holds at most twenty records. */
  lemma AtMostTwentyADay(records: seq<Instant>, from: Instant)
    requires EachAllowed(Clean, records) && Sane(records) && from + DAY <= LAST_INSTANT
    ensures Within(records, from, from + DAY) <= 20
  {
    WindowFrom(Clean, records, from);
  }

  lemma {:induction false} StartsAfter(s: BlockState, records: seq<Instant>, bound: Instant)
    requires EachAllowed(s, records) && Sane(records)
    requires records != [] ==> bound <= records[0]
    ensures forall i :: 0 <= i < |BlockStarts(s, records)| ==> bound <= BlockStarts(s, records)[i] <= LAST_INSTANT
    decreases |records|
  {
    if records != [] {
      SaneTail(records);
      StartsAfter(Record(s, records[0]).0, records[1..], bound);
    }
  }

  ghost predicate DayApart(starts: seq<Instant>) {
    forall i, j :: 0 <= i < j < |starts| ==> SaturatingAdd(starts[i], DAY, LAST_INSTANT) <= starts[j]
  }

  /** Blocks never overlap: each one begins a full day, or the end of time, after the one before. */
  lemma {:induction false} BlocksAreADayApart(s: BlockState, records: seq<Instant>)
    requires EachAllowed(s, records) && Sane(records)
    ensures DayApart(BlockStarts(s, records))
    decreases |records|
  {
    if records != [] {
      SaneTail(records);
      var (next, outcome) := Record(s, records[0]);
      BlocksAreADayApart(next, records[1..]);
      if outcome.Blocked? {
        StartsAfter(next, records[1..], outcome.until);
      }
    }
  }

  /**
   * Without the check the daily bound fails for every bound: a strike is counted whether or not the address
   * is blocked, so any number of records fits in one instant, with a block for every twenty of them.
   */
  lemma UncheckedRecordsAreUnbounded(n: nat) returns (records: seq<Instant>)
    ensures NonDecreasing(records) && |records| == n && Within(records, 0, DAY) == n
    ensures |BlockStarts(Clean, records)| == n / 20
    ensures n > 20 ==> !EachAllowed(Clean, records)
  {
    records := seq(n, _ => 0);
    StrikesAreConserved(Clean, records);
    AllWithin(records, 0, DAY);
    if EachAllowed(Clean, records) {
      AtMostTwentyADay(records, 0);
    }
  }

  lemma {:induction false} AllWithin(records: seq<Instant>, from: Instant, until: Instant)
    requires forall i :: 0 <= i < |records| ==> from <= records[i] < until
    ensures Within(records, from, until) == |records|
    decreases |records|
  {
    if records != [] {
      assert forall i :: 0 <= i < |records[1..]| ==> records[1..][i] == records[i + 1];
      AllWithin(records[1..], from, until);
    }
  }

  // ---------------------------------------------------------------------------
  // What a run of records says about the next request.
  // ---------------------------------------------------------------------------

  lemma {:induction false} OneMoreRecord(s: BlockState, records: seq<Instant>, now: Instant)
    ensures After(s, records + [now]) == Record(After(s, records), now).0
    ensures BlockStarts(s, records + [now]) ==
              BlockStarts(s, records) + if Record(After(s, records), now).1.Blocked? then [now] else []
    decreases |records|
  {
    var all := records + [now];
    if records == [] {
      assert all[1..] == [];
    } else {
      assert all[1..] == records[1..] + [now];
      OneMoreRecord(Record(s, records[0]).0, records[1..], now);
    }
  }

  /** The end of the last block so far. */
  function LastEnd(starts: seq<Instant>): Option<Instant> {
    if starts == [] then None else Some(SaturatingAdd(starts[|starts| - 1], 86_400 * SECOND, LAST_INSTANT))
  }

  /** No later record has come than this. */
  ghost predicate Until(records: seq<Instant>, now: Instant) {
    NonDecreasing(records) && forall i :: 0 <= i < |records| ==> records[i] <= now
  }

  /** The state names the last block's end, or that block is over. */
  ghost predicate BlockShows(s: BlockState, end: Option<Instant>, now: Instant) {
    s.blockedUntil == end || (s.blockedUntil.None? && end.Some? && end.value <= now)
  }

  lemma {:induction false} StateShowsTheLastBlock(records: seq<Instant>, now: Instant)
    requires Until(records, now)
    ensures BlockShows(After(Clean, records), LastEnd(BlockStarts(Clean, records)), now)
    decreases |records|
  {
    if records != [] {
      var before, last := records[..|records| - 1], records[|records| - 1];
      assert records == before + [last];
      assert forall i :: 0 <= i < |before| ==> before[i] == records[i];
      StateShowsTheLastBlock(before, last);
      OneMoreRecord(Clean, before, last);
    }
  }

  /** A request is let in exactly when no block has begun, or the last one began a day ago or more. */
  lemma BlockedExactlyForADay(records: seq<Instant>, now: Instant)
    requires Until(records, now)
    ensures var end := LastEnd(BlockStarts(Clean, records));
            Check(After(Clean, records), now) ==
              if end.Some? && now < end.value then BlockedUntil(end.value) else Allowed
  {
    StateShowsTheLastBlock(records, now);
  }

  /** Every twentieth record begins a block, in any run and whatever the times; the others are counted up to it. */
  lemma EveryTwentiethBlocks(records: seq<Instant>, k: nat)
    requires k < |records|
    ensures Record(After(Clean, records[..k]), records[k]).1 ==
              if (k + 1) % 20 == 0 then Blocked(SaturatingAdd(records[k], 86_400 * SECOND, LAST_INSTANT))
              else Counted((k + 1) % 20)
  {
    StrikesAreConserved(Clean, records[..k]);
    var blocks, strikes := |BlockStarts(Clean, records[..k])|, After(Clean, records[..k]).strikes;
    assert k == 20 * blocks + strikes;
    assert (k + 1) % 20 == (strikes + 1) % 20;
  }
}
