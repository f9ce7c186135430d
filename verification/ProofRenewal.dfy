/**
 * The cache of one App verification proof for Ting: what a caller is served, how the proof is
 * renewed under the lock, and how long failed renewals pause.
 */
module ProofRenewal {
  import opened Common

  /** Opaque secrets issued by Silicon Accounts. */
  type Token = nat
  type Refresh = nat

  const RENEW_BEFORE_EXPIRY: Instant := 60 * SECOND
  const FIRST_PROOF_PAUSE: Instant := 30 * SECOND
  const MAX_PROOF_PAUSE: Instant := 300 * SECOND
  const UNIX_EPOCH: Instant := 0

  datatype CachedProof = CachedProof(token: Token, refresh: Option<Refresh>, expiresAt: Option<Instant>)

  datatype CacheState = CacheState(proof: Option<CachedProof>, failures: nat, pausedUntil: Option<Instant>)

  const Empty := CacheState(None, 0, None)

  /** What Silicon Accounts answers to a request for a proof. */
  datatype Answer = Issued(proof: CachedProof) | Rejected | Unavailable

  datatype TokenResult = Served(token: Token) | ProofFailed | ProofPaused(retryIn: Instant)

  function Pow2(n: nat): nat {
    if n == 0 then 1 else 2 * Pow2(n - 1)
  }

  /** The pause after a number of consecutive failures; the shift is capped at eight doublings. */
  function ProofPause(failures: nat): Instant {
    var doublings := Min(if failures == 0 then 0 else failures - 1, 8);
    Min(FIRST_PROOF_PAUSE * Pow2(doublings), MAX_PROOF_PAUSE)
  }

  /** Wall time is used for expiry, monotonic time for pauses. */
  predicate Fresh(p: CachedProof, wall: Instant) {
    p.expiresAt.None? || wall + RENEW_BEFORE_EXPIRY < p.expiresAt.value
  }

  function RefreshOf(s: CacheState): Option<Refresh> {
    if s.proof.None? then None else s.proof.value.refresh
  }

  /** What the lock holder does first. */
  datatype Decision = Serve(token: Token) | Pause(retryIn: Instant) | Renew

  function Decide(s: CacheState, now: Instant, wall: Instant): Decision {
    if s.proof.Some? && Fresh(s.proof.value, wall) then Serve(s.proof.value.token)
    else if s.pausedUntil.Some? && now < s.pausedUntil.value then Pause(s.pausedUntil.value - now)
    else Renew
  }

  function Renewed(proof: CachedProof): CacheState {
    CacheState(Some(proof), 0, None)
  }

  function Failed(s: CacheState, now: Instant): CacheState {
    var failures := Min(s.failures + 1, U32_MAX);
    CacheState(s.proof, failures, Some(now + ProofPause(failures)))
  }

  /** Forgetting keeps the refresh token and only expires the refused token. */
  function Forget(s: CacheState, refused: Token): CacheState {
    if s.proof.Some? && s.proof.value.token == refused
    then s.(proof := Some(s.proof.value.(expiresAt := Some(UNIX_EPOCH))))
    else s
  }

  /** The whole critical section: `renewal` and `issue` are the answers Accounts would give. */
  function TokenSection(s: CacheState, now: Instant, wall: Instant, renewal: Answer, issue: Answer, later: Instant)
    : (CacheState, TokenResult)
  {
    match Decide(s, now, wall)
    case Serve(token) => (s, Served(token))
    case Pause(retryIn) => (s, ProofPaused(retryIn))
    case Renew =>
      if RefreshOf(s).Some? && renewal.Issued? then (Renewed(renewal.proof), Served(renewal.proof.token))
      else if RefreshOf(s).Some? && renewal.Unavailable? then (Failed(s, later), ProofFailed)
      else if issue.Issued? then (Renewed(issue.proof), Served(issue.proof.token))
      else (Failed(s, later), ProofFailed)
  }

  class ProofCache {
    var proof: Option<CachedProof>
    var failures: nat
    var pausedUntil: Option<Instant>

    constructor ()
      ensures State() == Empty
    {
      proof, failures, pausedUntil := None, 0, None;
    }

    ghost function State(): CacheState
      reads this
    {
      CacheState(proof, failures, pausedUntil)
    }

    /** Asks Accounts for a proof: a renewal first, a new proof when there is none to renew or it is refused. */
    method Obtain(renewal: Answer, issue: Answer) returns (token: Option<Token>)
      modifies this`proof
      ensures var answer := if RefreshOf(old(State())).Some? && !renewal.Rejected? then renewal else issue;
              && (answer.Issued? ==> proof == Some(answer.proof) && token == Some(answer.proof.token))
              && (!answer.Issued? ==> proof == old(proof) && token == None)
    {
      if proof.Some? && proof.value.refresh.Some? {
        match renewal {
          case Issued(renewed) =>
            proof := Some(renewed);
            return Some(renewed.token);
          case Rejected =>
          case Unavailable =>
            return None;
        }
      }
      match issue {
        case Issued(issued) =>
          proof := Some(issued);
          return Some(issued.token);
        case _ =>
          return None;
      }
    }

    method GetToken(now: Instant, wall: Instant, renewal: Answer, issue: Answer, later: Instant)
      returns (r: TokenResult)
      modifies this
      ensures (State(), r) == TokenSection(old(State()), now, wall, renewal, issue, later)
    {
      if proof.Some? && Fresh(proof.value, wall) {
        return Served(proof.value.token);
      }
      if pausedUntil.Some? && now < pausedUntil.value {
        return ProofPaused(pausedUntil.value - now);
      }
      var token := Obtain(renewal, issue);
      if token.Some? {
        failures, pausedUntil := 0, None;
        return Served(token.value);
      }
      failures := Min(failures + 1, U32_MAX);
      pausedUntil := Some(later + ProofPause(failures));
      return ProofFailed;
    }

    method ForgetToken(refused: Token)
      modifies this`proof
      ensures State() == Forget(old(State()), refused)
    {
      if proof.Some? && proof.value.token == refused {
        proof := Some(proof.value.(expiresAt := Some(UNIX_EPOCH)));
      }
    }
  }

  // ---------------------------------------------------------------------------
  // The pause.
  // ---------------------------------------------------------------------------

  lemma {:induction false} Pow2Grows(m: nat, n: nat)
    requires m <= n
    ensures Pow2(m) <= Pow2(n)
    decreases n
  {
    if m < n {
      Pow2Grows(m, n - 1);
    }
  }

  /** The capped shift never shows: the pause is thirty seconds doubled per failure, up to five minutes. */
  lemma PauseDoublesUpToFiveMinutes(n: nat)
    requires n >= 1
    ensures ProofPause(n) == Min(MAX_PROOF_PAUSE, FIRST_PROOF_PAUSE * Pow2(n - 1))
  {
    if n > 9 {
      assert Pow2(8) == 256;
      Pow2Grows(8, n - 1);
      assert FIRST_PROOF_PAUSE * Pow2(n - 1) >= FIRST_PROOF_PAUSE * Pow2(8);
    }
  }

  lemma PauseGrows(m: nat, n: nat)
    requires 1 <= m <= n
    ensures ProofPause(m) <= ProofPause(n)
    ensures n >= 5 ==> ProofPause(n) == MAX_PROOF_PAUSE
    ensures n > U32_MAX ==> ProofPause(n) == ProofPause(U32_MAX)
  {
    Pow2Grows(Min(m - 1, 8), Min(n - 1, 8));
    assert FIRST_PROOF_PAUSE * Pow2(Min(m - 1, 8)) <= FIRST_PROOF_PAUSE * Pow2(Min(n - 1, 8));
    if n >= 5 {
      assert Pow2(4) == 16;
      Pow2Grows(4, Min(n - 1, 8));
      assert FIRST_PROOF_PAUSE * Pow2(4) <= FIRST_PROOF_PAUSE * Pow2(Min(n - 1, 8));
    }
  }

  /** The pauses after the first `n` consecutive failures, added up. */
  function PauseSum(n: nat): Instant {
    if n == 0 then 0 else PauseSum(n - 1) + ProofPause(n)
  }

  lemma {:induction false} PauseSumIsLinear(n: nat)
    requires n >= 4
    ensures PauseSum(n) == 450 * SECOND + (n - 4) * MAX_PROOF_PAUSE
  {
    if n == 4 {
      assert Pow2(1) == 2 && Pow2(2) == 4 && Pow2(3) == 8;
      assert PauseSum(3) == 210 * SECOND;
    } else {
      PauseSumIsLinear(n - 1);
      PauseGrows(n, n);
    }
  }

  /** One failed attempt at a proof, from its first request to its failure. */
  datatype Attempt = Attempt(start: Instant, end: Instant)

  ghost predicate Spaced(attempts: seq<Attempt>) {
    && (forall i :: 0 <= i < |attempts| ==> attempts[i].start <= attempts[i].end)
    && (forall i, j :: 0 <= i && j == i + 1 < |attempts| ==>
          attempts[i].end + ProofPause(j) <= attempts[j].start)
  }

  lemma {:induction false} SpacedStarts(attempts: seq<Attempt>, i: nat, j: nat)
    requires Spaced(attempts) && i <= j < |attempts|
    ensures attempts[i].start + PauseSum(j - i) <= attempts[j].start
    decreases j
  {
    if i < j {
      SpacedStarts(attempts, i, j - 1);
      PauseGrows(j - i, j);
    }
  }

  /** In any stretch of failures, `T >= 450` seconds see at most `5 + (T - 450) / 300` attempts begin. */
  lemma FewAttemptsInAnyWindow(attempts: seq<Attempt>, i: nat, j: nat, window: Instant)
    requires Spaced(attempts) && i <= j < |attempts|
    requires window >= 450 * SECOND
    requires attempts[j].start - attempts[i].start <= window
    ensures j - i + 1 <= 5 + (window - 450 * SECOND) / MAX_PROOF_PAUSE
  {
    SpacedStarts(attempts, i, j);
    if j - i >= 4 {
      PauseSumIsLinear(j - i);
      assert (j - i - 4) * MAX_PROOF_PAUSE <= window - 450 * SECOND;
    }
  }
}
