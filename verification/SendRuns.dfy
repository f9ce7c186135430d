/**
 * Every interleaving of sends that share one proof cache: callers wait for the lock, the holder
 * asks Silicon Accounts, answers arrive or are lost, Ting refuses proofs, calls are cancelled.
 */
module SendRuns {
  import opened Common
  import opened ProofRenewal

  type Caller = nat
  type Body = string

  /** Where one `send` call is; `refused` is the token Ting refused on its first attempt. */
  datatype Phase =
    | WantsToken(refused: Option<Token>)
    | Renewing(refused: Option<Token>, refresh: Refresh, startedAt: Instant)
    | Issuing(refused: Option<Token>, startedAt: Instant)
    | Posting(refused: Option<Token>, token: Token)
    | WantsForget(token: Token)
    | Finished

  datatype Post = Post(token: Token, body: Body)

  datatype Call = Call(body: Body, phase: Phase, posts: seq<Post>)

  /**
   * `issued` lists the proofs Hook received, oldest first; `refreshes` every refresh token that
   * came with them; `spent` those that a newer proof replaced, by renewal or by a new issue; `attempts`
   * the failed attempts since the last success.
   */
  datatype Machine = Machine(
    cache: CacheState,
    holder: Option<Caller>,
    calls: map<Caller, Call>,
    now: Instant,
    wall: Instant,
    issued: seq<Token>,
    refreshes: set<Refresh>,
    spent: set<Refresh>,
    attempts: seq<Attempt>)

  const Start := Machine(Empty, None, map[], 0, 0, [], {}, {}, [])

  datatype Step =
    | Begin(caller: Caller, body: Body)
    | Enter(caller: Caller)
    | RenewalAnswer(caller: Caller, answer: Answer)
    | IssueAnswer(caller: Caller, answer: Answer)
    | PostAnswer(caller: Caller, proofRefused: bool)
    | EnterForget(caller: Caller)
    | Cancel(caller: Caller)
    | Tick(now: Instant, wall: Instant)

  /** Silicon Accounts never issues the same token or refresh token twice. */
  predicate Distinct(m: Machine, answer: Answer) {
    answer.Issued? ==>
      && answer.proof.token !in m.issued
      && (answer.proof.refresh.Some? ==> answer.proof.refresh.value !in m.refreshes)
  }

  predicate Enabled(m: Machine, s: Step) {
    match s
    case Begin(c, _) => c !in m.calls
    case Enter(c) => c in m.calls && m.calls[c].phase.WantsToken? && m.holder.None?
    case RenewalAnswer(c, answer) => c in m.calls && m.calls[c].phase.Renewing? && Distinct(m, answer)
    case IssueAnswer(c, answer) => c in m.calls && m.calls[c].phase.Issuing? && Distinct(m, answer)
    case PostAnswer(c, _) => c in m.calls && m.calls[c].phase.Posting?
    case EnterForget(c) => c in m.calls && m.calls[c].phase.WantsForget? && m.holder.None?
    case Cancel(c) => c in m.calls && !m.calls[c].phase.Finished?
    case Tick(now, wall) => m.now <= now && 0 <= wall
  }

  function Go(m: Machine, c: Caller, phase: Phase): Machine
    requires c in m.calls
  {
    m.(calls := m.calls[c := m.calls[c].(phase := phase)])
  }

  /** The caller sends its prepared bytes with a token. */
  function SendWith(m: Machine, c: Caller, refused: Option<Token>, token: Token): Machine
    requires c in m.calls
  {
    var call := m.calls[c];
    m.(calls := m.calls[c := Call(call.body, Posting(refused, token), call.posts + [Post(token, call.body)])])
  }

  /** The lock holder received a proof. */
  function Succeed(m: Machine, c: Caller, refused: Option<Token>, proof: CachedProof): Machine
    requires c in m.calls
  {
    var received := m.(
      cache := Renewed(proof), holder := None, attempts := [], issued := m.issued + [proof.token],
      spent := m.spent + (if RefreshOf(m.cache).Some? then {RefreshOf(m.cache).value} else {}),
      refreshes := m.refreshes + (if proof.refresh.Some? then {proof.refresh.value} else {}));
    SendWith(received, c, refused, proof.token)
  }

  /** The lock holder's attempt failed. */
  function Fail(m: Machine, c: Caller, startedAt: Instant): Machine
    requires c in m.calls
  {
    Go(m.(cache := Failed(m.cache, m.now), holder := None, attempts := m.attempts + [Attempt(startedAt, m.now)]),
       c, Finished)
  }

  function Next(m: Machine, s: Step): Machine
    requires Enabled(m, s)
  {
    match s
    case Begin(c, body) => m.(calls := m.calls[c := Call(body, WantsToken(None), [])])
    case Enter(c) =>
      var refused := m.calls[c].phase.refused;
      (match Decide(m.cache, m.now, m.wall)
       case Serve(token) => SendWith(m, c, refused, token)
       case Pause(_) => Go(m, c, Finished)
       case Renew =>
         var locked := m.(holder := Some(c));
         if RefreshOf(m.cache).Some? then Go(locked, c, Renewing(refused, RefreshOf(m.cache).value, m.now))
         else Go(locked, c, Issuing(refused, m.now)))
    case RenewalAnswer(c, answer) =>
      var phase := m.calls[c].phase;
      (match answer
       case Issued(proof) => Succeed(m.(spent := m.spent + {phase.refresh}), c, phase.refused, proof)
       case Rejected => Go(m, c, Issuing(phase.refused, phase.startedAt))
       case Unavailable => Fail(m, c, phase.startedAt))
    case IssueAnswer(c, answer) =>
      var phase := m.calls[c].phase;
      (match answer
       case Issued(proof) => Succeed(m, c, phase.refused, proof)
       case _ => Fail(m, c, phase.startedAt))
    case PostAnswer(c, proofRefused) =>
      var phase := m.calls[c].phase;
      Go(m, c, if proofRefused && phase.refused.None? then WantsForget(phase.token) else Finished)
    case EnterForget(c) =>
      var token := m.calls[c].phase.token;
      Go(m.(cache := Forget(m.cache, token)), c, WantsToken(Some(token)))
    case Cancel(c) =>
      Go(m.(holder := if m.holder == Some(c) then None else m.holder), c, Finished)
    case Tick(now, wall) => m.(now := now, wall := wall)
  }

  /** The machine after a schedule, or nothing when a step of it was not possible. */
  function Exec(steps: seq<Step>): Option<Machine>
    decreases |steps|
  {
    if steps == [] then Some(Start) else
    var before := Exec(steps[..|steps| - 1]);
    var last := steps[|steps| - 1];
    if before.Some? && Enabled(before.value, last) then Some(Next(before.value, last)) else None
  }

  // ---------------------------------------------------------------------------
  // What every step keeps.
  // ---------------------------------------------------------------------------

  predicate Asking(phase: Phase) {
    phase.Renewing? || phase.Issuing?
  }

  /** Only the lock holder has a request at Silicon Accounts. */
  ghost predicate LockInv(m: Machine) {
    && (forall c :: c in m.calls && Asking(m.calls[c].phase) ==> m.holder == Some(c))
    && (m.holder.Some? ==> m.holder.value in m.calls && Asking(m.calls[m.holder.value].phase))
  }

  /** The cached proof is the newest one received and its refresh token was never spent. */
  ghost predicate TokenInv(m: Machine) {
    && (m.cache.proof.Some? ==> m.issued != [] && m.cache.proof.value.token == m.issued[|m.issued| - 1])
    && m.spent <= m.refreshes
    && (RefreshOf(m.cache).Some? ==>
          RefreshOf(m.cache).value in m.refreshes && RefreshOf(m.cache).value !in m.spent)
    && (forall c :: c in m.calls && m.calls[c].phase.Renewing? ==>
          RefreshOf(m.cache) == Some(m.calls[c].phase.refresh))
  }

  /** A refused token is known and, if it is still cached, can no longer be served. */
  ghost predicate Barred(m: Machine, refused: Token) {
    && refused in m.issued
    && (m.cache.proof.Some? && m.cache.proof.value.token == refused ==>
          m.cache.proof.value.expiresAt == Some(UNIX_EPOCH))
  }

  ghost predicate CallOk(m: Machine, call: Call) {
    && (forall i :: 0 <= i < |call.posts| ==> call.posts[i].body == call.body)
    && match call.phase
       case WantsToken(None) => call.posts == []
       case WantsToken(Some(refused)) => |call.posts| == 1 && call.posts[0].token == refused && Barred(m, refused)
       case Renewing(None, _, _) => call.posts == []
       case Renewing(Some(refused), _, _) => |call.posts| == 1 && call.posts[0].token == refused && Barred(m, refused)
       case Issuing(None, _) => call.posts == []
       case Issuing(Some(refused), _) => |call.posts| == 1 && call.posts[0].token == refused && Barred(m, refused)
       case Posting(None, token) => |call.posts| == 1 && call.posts[0].token == token && token in m.issued
       case Posting(Some(refused), token) =>
         && |call.posts| == 2 && call.posts[0].token == refused && call.posts[1].token == token
         && refused != token
       case WantsForget(token) => |call.posts| == 1 && call.posts[0].token == token && token in m.issued
       case Finished => |call.posts| <= 2 && (|call.posts| == 2 ==> call.posts[0].token != call.posts[1].token)
  }

  ghost predicate CallInv(m: Machine) {
    0 <= m.wall && forall c :: c in m.calls ==> CallOk(m, m.calls[c])
  }

  ghost predicate PauseInv(m: Machine) {
    var n := |m.attempts|;
    && Spaced(m.attempts)
    && m.cache.failures == Min(n, U32_MAX)
    && (n == 0 ==> m.cache.pausedUntil == None)
    && (n > 0 ==> m.cache.pausedUntil == Some(m.attempts[n - 1].end + ProofPause(n)))
    && (forall c :: c in m.calls && Asking(m.calls[c].phase) ==>
          && m.calls[c].phase.startedAt <= m.now
          && (n > 0 ==> m.attempts[n - 1].end + ProofPause(n) <= m.calls[c].phase.startedAt))
  }

  lemma StepKeepsLock(m: Machine, s: Step)
    requires Enabled(m, s) && LockInv(m)
    ensures LockInv(Next(m, s))
  {
  }

  lemma StepKeepsTokens(m: Machine, s: Step)
    requires Enabled(m, s) && LockInv(m) && TokenInv(m)
    ensures TokenInv(Next(m, s))
  {
  }

  /** The call a step advances. */
  function Actor(s: Step): Option<Caller> {
    match s
    case Begin(c, _) => Some(c)
    case Enter(c) => Some(c)
    case RenewalAnswer(c, _) => Some(c)
    case IssueAnswer(c, _) => Some(c)
    case PostAnswer(c, _) => Some(c)
    case EnterForget(c) => Some(c)
    case Cancel(c) => Some(c)
    case Tick(_, _) => None
  }

  lemma StepTouchesItsActorOnly(m: Machine, s: Step)
    requires Enabled(m, s)
    ensures m.issued <= Next(m, s).issued
    ensures forall c :: c in Next(m, s).calls && Actor(s) != Some(c) ==>
              c in m.calls && Next(m, s).calls[c] == m.calls[c]
    ensures Next(m, s).cache.proof == m.cache.proof
         || (s.EnterForget? && Next(m, s).cache == Forget(m.cache, m.calls[s.caller].phase.token))
         || (Next(m, s).cache.proof.Some? && Next(m, s).cache.proof.value.token !in m.issued)
  {
  }

  lemma StepKeepsBarred(m: Machine, s: Step, refused: Token)
    requires Enabled(m, s) && Barred(m, refused)
    ensures Barred(Next(m, s), refused)
  {
    StepTouchesItsActorOnly(m, s);
  }

  lemma StepKeepsOthers(m: Machine, s: Step, c: Caller)
    requires Enabled(m, s) && c in m.calls && CallOk(m, m.calls[c])
    ensures CallOk(Next(m, s), m.calls[c])
  {
    StepTouchesItsActorOnly(m, s);
    match m.calls[c].phase
    case WantsToken(Some(refused)) => StepKeepsBarred(m, s, refused);
    case Renewing(Some(refused), _, _) => StepKeepsBarred(m, s, refused);
    case Issuing(Some(refused), _) => StepKeepsBarred(m, s, refused);
    case _ =>
  }

  lemma SendIsOk(m: Machine, c: Caller, refused: Option<Token>, token: Token)
    requires c in m.calls && token in m.issued
    requires forall i :: 0 <= i < |m.calls[c].posts| ==> m.calls[c].posts[i].body == m.calls[c].body
    requires refused.None? ==> m.calls[c].posts == []
    requires refused.Some? ==> |m.calls[c].posts| == 1 && m.calls[c].posts[0].token == refused.value != token
    ensures CallOk(SendWith(m, c, refused, token), SendWith(m, c, refused, token).calls[c])
  {
  }

  lemma SuccessIsOk(m: Machine, c: Caller, refused: Option<Token>, proof: CachedProof)
    requires c in m.calls && CallOk(m, m.calls[c]) && proof.token !in m.issued
    requires m.calls[c].phase.Renewing? || m.calls[c].phase.Issuing?
    requires refused == m.calls[c].phase.refused
    ensures CallOk(Succeed(m, c, refused, proof), Succeed(m, c, refused, proof).calls[c])
  {
    var received := m.(
      cache := Renewed(proof), holder := None, attempts := [], issued := m.issued + [proof.token],
      spent := m.spent + (if RefreshOf(m.cache).Some? then {RefreshOf(m.cache).value} else {}),
      refreshes := m.refreshes + (if proof.refresh.Some? then {proof.refresh.value} else {}));
    SendIsOk(received, c, refused, proof.token);
  }

  lemma StepKeepsActor(m: Machine, s: Step)
    requires Enabled(m, s) && TokenInv(m) && 0 <= m.wall
    requires Actor(s).Some? && (Actor(s).value in m.calls ==> CallOk(m, m.calls[Actor(s).value]))
    ensures Actor(s).value in Next(m, s).calls && CallOk(Next(m, s), Next(m, s).calls[Actor(s).value])
  {
    match s
    case Enter(c) =>
      if Decide(m.cache, m.now, m.wall).Serve? {
        SendIsOk(m, c, m.calls[c].phase.refused, m.cache.proof.value.token);
      }
    case RenewalAnswer(c, answer) =>
      if answer.Issued? {
        SuccessIsOk(m.(spent := m.spent + {m.calls[c].phase.refresh}), c, m.calls[c].phase.refused, answer.proof);
      }
    case IssueAnswer(c, answer) =>
      if answer.Issued? {
        SuccessIsOk(m, c, m.calls[c].phase.refused, answer.proof);
      }
    case _ =>
  }

  lemma StepKeepsCalls(m: Machine, s: Step)
    requires Enabled(m, s) && TokenInv(m) && CallInv(m)
    ensures CallInv(Next(m, s))
  {
    var n := Next(m, s);
    if Actor(s).Some? {
      StepKeepsActor(m, s);
    }
    forall c | c in n.calls
      ensures CallOk(n, n.calls[c])
    {
      StepTouchesItsActorOnly(m, s);
      if Actor(s) != Some(c) {
        StepKeepsOthers(m, s, c);
      }
    }
  }

  lemma SpacedSnoc(attempts: seq<Attempt>, a: Attempt)
    requires Spaced(attempts) && a.start <= a.end
    requires attempts != [] ==> attempts[|attempts| - 1].end + ProofPause(|attempts|) <= a.start
    ensures Spaced(attempts + [a])
  {
  }

  lemma FailureKeepsPause(m: Machine, c: Caller)
    requires c in m.calls && Asking(m.calls[c].phase) && LockInv(m) && PauseInv(m)
    ensures PauseInv(Fail(m, c, m.calls[c].phase.startedAt))
  {
    var n := |m.attempts|;
    SpacedSnoc(m.attempts, Attempt(m.calls[c].phase.startedAt, m.now));
    PauseGrows(1, n + 1);
    assert ProofPause(Min(m.cache.failures + 1, U32_MAX)) == ProofPause(n + 1);
  }

  lemma SuccessKeepsPause(m: Machine, c: Caller, refused: Option<Token>, proof: CachedProof)
    requires c in m.calls && Asking(m.calls[c].phase) && LockInv(m)
    ensures PauseInv(Succeed(m, c, refused, proof))
  {
  }

  lemma EnterKeepsPause(m: Machine, c: Caller)
    requires Enabled(m, Enter(c)) && LockInv(m) && PauseInv(m)
    ensures PauseInv(Next(m, Enter(c)))
  {
    var n := Next(m, Enter(c));
    assert n.cache == m.cache && n.attempts == m.attempts && n.now == m.now;
    assert forall d :: d in n.calls && d != c ==> n.calls[d] == m.calls[d];
  }

  lemma QuietKeepsPause(m: Machine, n: Machine)
    requires PauseInv(m) && n.attempts == m.attempts && m.now <= n.now
    requires n.cache.failures == m.cache.failures && n.cache.pausedUntil == m.cache.pausedUntil
    requires forall c :: c in n.calls && Asking(n.calls[c].phase) ==>
               c in m.calls && Asking(m.calls[c].phase) && n.calls[c].phase.startedAt == m.calls[c].phase.startedAt
    ensures PauseInv(n)
  {
  }

  lemma StepKeepsPause(m: Machine, s: Step)
    requires Enabled(m, s) && LockInv(m) && PauseInv(m)
    ensures PauseInv(Next(m, s))
  {
    match s
    case Enter(c) => EnterKeepsPause(m, c);
    case RenewalAnswer(c, answer) =>
      if answer.Issued? {
        var spent := m.(spent := m.spent + {m.calls[c].phase.refresh});
        SuccessKeepsPause(spent, c, m.calls[c].phase.refused, answer.proof);
      } else if answer.Unavailable? {
        FailureKeepsPause(m, c);
      } else {
        QuietKeepsPause(m, Next(m, s));
      }
    case IssueAnswer(c, answer) =>
      if answer.Issued? {
        SuccessKeepsPause(m, c, m.calls[c].phase.refused, answer.proof);
      } else {
        FailureKeepsPause(m, c);
      }
    case Begin(_, _) => QuietKeepsPause(m, Next(m, s));
    case PostAnswer(_, _) => QuietKeepsPause(m, Next(m, s));
    case EnterForget(_) => QuietKeepsPause(m, Next(m, s));
    case Cancel(_) => QuietKeepsPause(m, Next(m, s));
    case Tick(_, _) => QuietKeepsPause(m, Next(m, s));
  }

  ghost predicate Inv(m: Machine) {
    LockInv(m) && TokenInv(m) && CallInv(m) && PauseInv(m)
  }

  lemma {:induction false} RunKeepsInv(steps: seq<Step>)
    requires Exec(steps).Some?
    ensures Inv(Exec(steps).value)
    decreases |steps|
  {
    if steps != [] {
      var before, last := steps[..|steps| - 1], steps[|steps| - 1];
      RunKeepsInv(before);
      StepKeepsLock(Exec(before).value, last);
      StepKeepsTokens(Exec(before).value, last);
      StepKeepsCalls(Exec(before).value, last);
      StepKeepsPause(Exec(before).value, last);
    }
  }

  // ---------------------------------------------------------------------------
  // Theorems about every schedule.
  // ---------------------------------------------------------------------------

  /** Renewal is single-flight. */
  lemma OneRenewalInFlight(steps: seq<Step>, c: Caller, d: Caller)
    requires Exec(steps).Some?
    requires c in Exec(steps).value.calls && d in Exec(steps).value.calls
    requires Asking(Exec(steps).value.calls[c].phase) && Asking(Exec(steps).value.calls[d].phase)
    ensures c == d
  {
    RunKeepsInv(steps);
  }

  /** A refresh token that was renewed, or refused and replaced, is never at Silicon Accounts again. */
  lemma SpentRefreshIsNeverPresented(steps: seq<Step>, c: Caller)
    requires Exec(steps).Some? && c in Exec(steps).value.calls
    requires Exec(steps).value.calls[c].phase.Renewing?
    ensures Exec(steps).value.calls[c].phase.refresh !in Exec(steps).value.spent
  {
    RunKeepsInv(steps);
  }

  /** One send posts at most twice, always the caller's bytes, and never twice with one token. */
  lemma AtMostTwoPostsOfTheSameBytes(steps: seq<Step>, c: Caller)
    requires Exec(steps).Some? && c in Exec(steps).value.calls
    ensures var call := Exec(steps).value.calls[c];
            && |call.posts| <= 2
            && (forall i :: 0 <= i < |call.posts| ==> call.posts[i].body == call.body)
            && (|call.posts| == 2 ==> call.posts[1].token != call.posts[0].token)
  {
    RunKeepsInv(steps);
    assert CallOk(Exec(steps).value, Exec(steps).value.calls[c]);
  }

  predicate Retried(call: Call) {
    |call.posts| == 2 || match call.phase
      case WantsForget(_) => true
      case WantsToken(refused) => refused.Some?
      case Renewing(refused, _, _) => refused.Some?
      case Issuing(refused, _) => refused.Some?
      case _ => false
  }

  /** Nothing but Ting refusing the proof makes a call send again. */
  lemma {:induction false} OnlyARefusedProofIsRetried(steps: seq<Step>, c: Caller)
    requires Exec(steps).Some? && c in Exec(steps).value.calls && Retried(Exec(steps).value.calls[c])
    ensures PostAnswer(c, true) in steps
    decreases |steps|
  {
    var before, last := steps[..|steps| - 1], steps[|steps| - 1];
    var m := Exec(before).value;
    RunKeepsInv(before);
    StepTouchesItsActorOnly(m, last);
    if last != PostAnswer(c, true) {
      if c in m.calls {
        assert CallOk(m, m.calls[c]);
      }
      OnlyARefusedProofIsRetried(before, c);
    }
  }

  /** A late refusal changes the cache only while the refused token is the newest proof received. */
  lemma LateRefusalKeepsNewerProof(steps: seq<Step>, c: Caller)
    requires Exec(steps).Some? && Enabled(Exec(steps).value, EnterForget(c))
    ensures var m := Exec(steps).value;
            var after := Next(m, EnterForget(c));
            && m.issued != []
            && (m.calls[c].phase.token != m.issued[|m.issued| - 1] ==> after.cache == m.cache)
            && RefreshOf(after.cache) == RefreshOf(m.cache)
  {
    RunKeepsInv(steps);
    assert CallOk(Exec(steps).value, Exec(steps).value.calls[c]);
  }

  /** In every run the failed attempts since the last success keep their pauses. */
  lemma FailedAttemptsAreFew(steps: seq<Step>, i: nat, j: nat, window: Instant)
    requires Exec(steps).Some? && i <= j < |Exec(steps).value.attempts| && window >= 450 * SECOND
    requires Exec(steps).value.attempts[j].start - Exec(steps).value.attempts[i].start <= window
    ensures j - i + 1 <= 5 + (window - 450 * SECOND) / MAX_PROOF_PAUSE
  {
    RunKeepsInv(steps);
    FewAttemptsInAnyWindow(Exec(steps).value.attempts, i, j, window);
  }

  /** The same bound with the attempt under way counted in. */
  lemma AttemptsWithTheOneInFlightAreFew(steps: seq<Step>, c: Caller, i: nat, window: Instant)
    requires Exec(steps).Some? && i < |Exec(steps).value.attempts| && window >= 450 * SECOND
    requires c in Exec(steps).value.calls && Asking(Exec(steps).value.calls[c].phase)
    requires Exec(steps).value.calls[c].phase.startedAt - Exec(steps).value.attempts[i].start <= window
    ensures |Exec(steps).value.attempts| - i + 1 <= 5 + (window - 450 * SECOND) / MAX_PROOF_PAUSE
  {
    RunKeepsInv(steps);
    var attempts, startedAt := Exec(steps).value.attempts, Exec(steps).value.calls[c].phase.startedAt;
    SpacedSnoc(attempts, Attempt(startedAt, startedAt));
    FewAttemptsInAnyWindow(attempts + [Attempt(startedAt, startedAt)], i, |attempts|, window);
  }

  /** How many attempts began, and how many of them were cancelled, since the last proof came in. */
  function Tally(steps: seq<Step>): (int, int)
    requires Exec(steps).Some?
    decreases |steps|
  {
    if steps == [] then (0, 0) else
    var m, s := Exec(steps[..|steps| - 1]).value, steps[|steps| - 1];
    var (begun, cancelled) := Tally(steps[..|steps| - 1]);
    if BringsProof(s) then (0, 0)
    else
      (begun + (if BeginsAttempt(m, s) then 1 else 0), cancelled + (if CancelsAttempt(m, s) then 1 else 0))
  }

  predicate BeginsAttempt(m: Machine, s: Step) {
    s.Enter? && Decide(m.cache, m.now, m.wall).Renew?
  }

  predicate CancelsAttempt(m: Machine, s: Step) {
    s.Cancel? && s.caller in m.calls && Asking(m.calls[s.caller].phase)
  }

  function Pending(m: Machine): int {
    |m.attempts| + if m.holder.Some? then 1 else 0
  }

  lemma StepCountsAttempts(m: Machine, s: Step)
    requires Enabled(m, s) && LockInv(m)
    ensures if BringsProof(s) then Pending(Next(m, s)) == 0
            else Pending(Next(m, s)) ==
                   Pending(m) + (if BeginsAttempt(m, s) then 1 else 0) - (if CancelsAttempt(m, s) then 1 else 0)
  {
  }

  /** Every attempt since the last proof failed, was cancelled, or is under way. */
  lemma {:induction false} AttemptsAreAccountedFor(steps: seq<Step>)
    requires Exec(steps).Some?
    ensures Tally(steps).0 == Pending(Exec(steps).value) + Tally(steps).1
    decreases |steps|
  {
    if steps != [] {
      var before := steps[..|steps| - 1];
      AttemptsAreAccountedFor(before);
      assert LockInv(Exec(before).value) by { RunKeepsInv(before); }
      StepCountsAttempts(Exec(before).value, steps[|steps| - 1]);
    }
  }

  /** An attempt holds the next one back exactly when it failed: a cancelled call leaves no pause. */
  lemma AttemptPausesExactlyWhenItFails(steps: seq<Step>, s: Step)
    requires Exec(steps).Some? && Enabled(Exec(steps).value, s) && EndsAttempt(Exec(steps).value, s)
    ensures var n := Next(Exec(steps).value, s);
            (n.cache.pausedUntil.Some? && n.now < n.cache.pausedUntil.value) <==> !BringsProof(s) && !s.Cancel?
  {
    RunKeepsInv(steps);
    var m := Exec(steps).value;
    assert forall f :: f >= 1 ==> ProofPause(1) <= ProofPause(f) by {
      forall f | f >= 1 ensures ProofPause(1) <= ProofPause(f) { PauseGrows(1, f); }
    }
    assert Pow2(0) == 1 && ProofPause(1) == FIRST_PROOF_PAUSE;
  }

  /** A new attempt waits out the pause of the failure before it, whoever makes it. */
  lemma NewAttemptWaitsOutThePause(steps: seq<Step>, c: Caller)
    requires Exec(steps).Some? && c in Exec(steps).value.calls && Asking(Exec(steps).value.calls[c].phase)
    ensures var m := Exec(steps).value;
            var n := |m.attempts|;
            n > 0 ==> m.attempts[n - 1].end + Min(MAX_PROOF_PAUSE, FIRST_PROOF_PAUSE * Pow2(n - 1))
                      <= m.calls[c].phase.startedAt
  {
    RunKeepsInv(steps);
    if Exec(steps).value.attempts != [] {
      PauseDoublesUpToFiveMinutes(|Exec(steps).value.attempts|);
    }
  }

  // ---------------------------------------------------------------------------
  // When a refresh token is presented twice.
  // ---------------------------------------------------------------------------

  /** The steps that end the lock holder's attempt. */
  predicate EndsAttempt(m: Machine, s: Step) {
    match s
    case RenewalAnswer(_, answer) => !answer.Rejected?
    case IssueAnswer(_, _) => true
    case Cancel(c) => c in m.calls && Asking(m.calls[c].phase)
    case _ => false
  }

  predicate BringsProof(s: Step) {
    (s.RenewalAnswer? || s.IssueAnswer?) && s.answer.Issued?
  }

  /** A step keeps the refresh token exactly when it brings no proof; a new proof never brings a known one. */
  lemma StepKeepsRefreshExactlyWithoutAProof(m: Machine, s: Step)
    requires Enabled(m, s) && TokenInv(m)
    ensures m.refreshes <= Next(m, s).refreshes
    ensures !BringsProof(s) ==> RefreshOf(Next(m, s).cache) == RefreshOf(m.cache)
    ensures BringsProof(s) ==> forall r :: r in m.refreshes ==> RefreshOf(Next(m, s).cache) != Some(r)
  {
  }

  /** Once gone from the cache, a refresh token stays gone for the rest of the run. */
  lemma {:induction false} ReplacedRefreshNeverReturns(steps: seq<Step>, k: nat, r: Refresh)
    requires k <= |steps| && Exec(steps).Some? && Exec(steps[..k]).Some?
    requires r in Exec(steps[..k]).value.refreshes && RefreshOf(Exec(steps[..k]).value.cache) != Some(r)
    ensures r in Exec(steps).value.refreshes && RefreshOf(Exec(steps).value.cache) != Some(r)
    decreases |steps|
  {
    if k == |steps| {
      assert steps[..k] == steps;
    } else {
      var before := steps[..|steps| - 1];
      assert before[..k] == steps[..k];
      ReplacedRefreshNeverReturns(before, k, r);
      RunKeepsInv(before);
      StepKeepsRefreshExactlyWithoutAProof(Exec(before).value, steps[|steps| - 1]);
    }
  }

  predicate NoProofSince(steps: seq<Step>, k: nat) {
    forall i :: k <= i < |steps| ==> !BringsProof(steps[i])
  }

  lemma NoProofSnoc(steps: seq<Step>, k: nat)
    requires k < |steps|
    ensures NoProofSince(steps, k) <==> NoProofSince(steps[..|steps| - 1], k) && !BringsProof(steps[|steps| - 1])
  {
    assert forall i :: k <= i < |steps| - 1 ==> steps[..|steps| - 1][i] == steps[i];
  }

  /** Over any stretch of a run, a refresh token stays in place exactly while no proof comes in. */
  lemma {:induction false} RefreshStaysExactlyUntilAProof(steps: seq<Step>, k: nat, r: Refresh)
    requires k <= |steps| && Exec(steps).Some? && Exec(steps[..k]).Some?
    requires RefreshOf(Exec(steps[..k]).value.cache) == Some(r)
    ensures RefreshOf(Exec(steps).value.cache) == Some(r) <==> NoProofSince(steps, k)
    ensures r in Exec(steps).value.refreshes
    decreases |steps|
  {
    if k == |steps| {
      assert steps[..k] == steps;
      RunKeepsInv(steps);
    } else {
      var before, last := steps[..|steps| - 1], steps[|steps| - 1];
      assert before[..k] == steps[..k];
      RefreshStaysExactlyUntilAProof(before, k, r);
      RunKeepsInv(before);
      StepKeepsRefreshExactlyWithoutAProof(Exec(before).value, last);
      NoProofSnoc(steps, k);
    }
  }

  /**
   * A refresh token that was presented is presented again, at the next renewal and at any later one,
   * exactly when no proof came in meanwhile: every attempt between failed, or its answer was lost.
   */
  lemma RefreshIsPresentedAgainExactlyWithoutAProof(steps: seq<Step>, k: nat, c: Caller, d: Caller)
    requires k <= |steps| && Exec(steps).Some? && Exec(steps[..k]).Some?
    requires c in Exec(steps[..k]).value.calls && Exec(steps[..k]).value.calls[c].phase.Renewing?
    requires d in Exec(steps).value.calls && Exec(steps).value.calls[d].phase.Renewing?
    ensures Exec(steps).value.calls[d].phase.refresh == Exec(steps[..k]).value.calls[c].phase.refresh <==>
              NoProofSince(steps, k)
  {
    RunKeepsInv(steps);
    RunKeepsInv(steps[..k]);
    RefreshStaysExactlyUntilAProof(steps, k, Exec(steps[..k]).value.calls[c].phase.refresh);
  }

  // ---------------------------------------------------------------------------
  // A call nobody interrupts is the critical section of the cache.
  // ---------------------------------------------------------------------------

  /** What the caller does with the answer of the critical section. */
  ghost predicate Answered(m: Machine, c: Caller, before: Call, result: TokenResult)
    requires before.phase.WantsToken?
  {
    && c in m.calls && m.holder.None?
    && if result.Served?
       then m.calls[c] == Call(before.body, Posting(before.phase.refused, result.token),
                               before.posts + [Post(result.token, before.body)])
       else m.calls[c] == before.(phase := Finished)
  }

  /** The steps of one call under the lock: Accounts' answers arrive at `later`, and nobody else moves. */
  function TokenSteps(m: Machine, c: Caller, renewal: Answer, issue: Answer, later: Instant): seq<Step> {
    if !Decide(m.cache, m.now, m.wall).Renew? then [Enter(c)]
    else
      [Enter(c), Tick(later, m.wall)] +
      if RefreshOf(m.cache).None? then [IssueAnswer(c, issue)]
      else [RenewalAnswer(c, renewal)] + if renewal.Rejected? then [IssueAnswer(c, issue)] else []
  }

  /** The machine after some steps from any state, or nothing. */
  function From(m: Machine, steps: seq<Step>): Option<Machine>
    decreases |steps|
  {
    if steps == [] then Some(m)
    else if !Enabled(m, steps[0]) then None
    else From(Next(m, steps[0]), steps[1..])
  }

  /** Run without interruption, the steps leave the cache and the call exactly as the locked method does. */
  lemma UninterruptedStepsAreTheCriticalSection(m: Machine, c: Caller, renewal: Answer, issue: Answer, later: Instant)
    requires Enabled(m, Enter(c)) && m.now <= later && 0 <= m.wall
    requires Distinct(m, renewal) && Distinct(m, issue)
    ensures var (cache, result) := TokenSection(m.cache, m.now, m.wall, renewal, issue, later);
            var end := From(m, TokenSteps(m, c, renewal, issue, later));
            end.Some? && end.value.cache == cache && Answered(end.value, c, m.calls[c], result)
  {
    var steps := TokenSteps(m, c, renewal, issue, later);
    var m1 := Next(m, Enter(c));
    if Decide(m.cache, m.now, m.wall).Renew? {
      var m2 := Next(m1, Tick(later, m.wall));
      assert steps[1..][1..] == steps[2..];
      assert From(m, steps) == From(m2, steps[2..]);
      if RefreshOf(m.cache).None? {
        assert steps[2..] == [IssueAnswer(c, issue)];
        OneStep(m2, IssueAnswer(c, issue));
      } else if renewal.Rejected? {
        assert steps[2..] == [RenewalAnswer(c, renewal), IssueAnswer(c, issue)];
        var m3 := Next(m2, RenewalAnswer(c, renewal));
        assert steps[2..][1..] == [IssueAnswer(c, issue)];
        OneStep(m3, IssueAnswer(c, issue));
      } else {
        assert steps[2..] == [RenewalAnswer(c, renewal)];
        OneStep(m2, RenewalAnswer(c, renewal));
      }
    } else {
      OneStep(m, Enter(c));
    }
  }

  lemma OneStep(m: Machine, s: Step)
    requires Enabled(m, s)
    ensures From(m, [s]) == Some(Next(m, s))
  {
    assert [s][1..] == [];
  }

  // ---------------------------------------------------------------------------
  // Schedules that show it.
  // ---------------------------------------------------------------------------

  lemma ExecSnoc(steps: seq<Step>, s: Step)
    requires Exec(steps).Some? && Enabled(Exec(steps).value, s)
    ensures Exec(steps + [s]) == Some(Next(Exec(steps).value, s))
  {
    assert (steps + [s])[..|steps + [s]| - 1] == steps;
  }

  /** A proof that expires after a hundred seconds is received at once, and has expired at the end. */
  lemma ProofExpires() returns (steps: seq<Step>)
    ensures Exec(steps).Some?
    ensures var m := Exec(steps).value;
            && m.cache == Renewed(CachedProof(1, Some(7), Some(100 * SECOND)))
            && m.holder == None && m.now == 0 && m.wall == 100 * SECOND && m.calls.Keys == {0}
            && m.issued == [1] && m.refreshes == {7} && m.spent == {}
  {
    var proof := CachedProof(1, Some(7), Some(100 * SECOND));
    var s1 := [Begin(0, "a")];
    ExecSnoc([], Begin(0, "a"));
    assert [] + s1 == s1;
    ExecSnoc(s1, Enter(0));
    var s2 := s1 + [Enter(0)];
    ExecSnoc(s2, IssueAnswer(0, Issued(proof)));
    var s3 := s2 + [IssueAnswer(0, Issued(proof))];
    ExecSnoc(s3, Tick(0, 100 * SECOND));
    steps := s3 + [Tick(0, 100 * SECOND)];
  }

  /** A renewal Accounts did not answer: the next caller presents the same refresh token. */
  lemma UnansweredRefreshIsPresentedTwice() returns (once: seq<Step>, twice: seq<Step>)
    ensures once < twice && Exec(once).Some? && Exec(twice).Some?
    ensures 1 in Exec(once).value.calls && Exec(once).value.calls[1].phase == Renewing(None, 7, 0)
    ensures 2 in Exec(twice).value.calls && Exec(twice).value.calls[2].phase == Renewing(None, 7, 30 * SECOND)
  {
    var s3 := ProofExpires();
    ExecSnoc(s3, Begin(1, "b"));
    var s4 := s3 + [Begin(1, "b")];
    ExecSnoc(s4, Enter(1));
    once := s4 + [Enter(1)];
    ExecSnoc(once, RenewalAnswer(1, Unavailable));
    var s6 := once + [RenewalAnswer(1, Unavailable)];
    ExecSnoc(s6, Tick(30 * SECOND, 130 * SECOND));
    var s7 := s6 + [Tick(30 * SECOND, 130 * SECOND)];
    ExecSnoc(s7, Begin(2, "c"));
    var s8 := s7 + [Begin(2, "c")];
    ExecSnoc(s8, Enter(2));
    twice := s8 + [Enter(2)];
  }

  /** A cancelled attempt leaves no pause: the next one begins at the same instant, with the same refresh token. */
  lemma CancelledAttemptLeavesNoPause() returns (once: seq<Step>, twice: seq<Step>)
    ensures once < twice && Exec(once).Some? && Exec(twice).Some?
    ensures 1 in Exec(once).value.calls && Exec(once).value.calls[1].phase == Renewing(None, 7, 0)
    ensures 2 in Exec(twice).value.calls && Exec(twice).value.calls[2].phase == Renewing(None, 7, 0)
  {
    var s3 := ProofExpires();
    ExecSnoc(s3, Begin(1, "b"));
    var s4 := s3 + [Begin(1, "b")];
    ExecSnoc(s4, Enter(1));
    once := s4 + [Enter(1)];
    ExecSnoc(once, Cancel(1));
    var s6 := once + [Cancel(1)];
    ExecSnoc(s6, Begin(2, "c"));
    var s7 := s6 + [Begin(2, "c")];
    ExecSnoc(s7, Enter(2));
    twice := s7 + [Enter(2)];
  }
}
