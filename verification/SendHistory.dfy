/** What the schedule of a run of sends says about its proof: which one is served, until when, and what replaces it. */
module SendHistory {
  import opened Common
  import opened ProofRenewal
  import opened SendRuns

  /** The newest proof that came in, as Accounts issued it. */
  function LastProof(steps: seq<Step>): Option<CachedProof>
    decreases |steps|
  {
    if steps == [] then None
    else if BringsProof(steps[|steps| - 1]) then Some(steps[|steps| - 1].answer.proof)
    else LastProof(steps[..|steps| - 1])
  }

  /** A call whose send Ting refused with this token has asked to forget it. */
  predicate Forgotten(steps: seq<Step>, token: Token)
    requires Exec(steps).Some?
    decreases |steps|
  {
    steps != [] && (
      var before, last := steps[..|steps| - 1], steps[|steps| - 1];
      Forgotten(before, token)
      || (last.EnterForget? && Exec(before).value.calls[last.caller].phase == WantsForget(token)))
  }

  lemma {:induction false} ForgottenWereIssued(steps: seq<Step>, token: Token)
    requires Exec(steps).Some? && Forgotten(steps, token)
    ensures token in Exec(steps).value.issued
    decreases |steps|
  {
    var before, last := steps[..|steps| - 1], steps[|steps| - 1];
    var m := Exec(before).value;
    RunKeepsInv(before);
    StepTouchesItsActorOnly(m, last);
    if Forgotten(before, token) {
      ForgottenWereIssued(before, token);
    } else {
      assert CallOk(m, m.calls[last.caller]);
    }
  }

  /** The cached proof, seen from the steps: the newest one, expired once Ting's refusal of it was reported. */
  function KnownProof(steps: seq<Step>): Option<CachedProof>
    requires Exec(steps).Some?
  {
    var last := LastProof(steps);
    if last.Some? && Forgotten(steps, last.value.token) then Some(last.value.(expiresAt := Some(0))) else last
  }

  lemma StepChangesProof(m: Machine, s: Step)
    requires Enabled(m, s)
    ensures Next(m, s).cache.proof ==
              if BringsProof(s) then Some(s.answer.proof)
              else if s.EnterForget? && m.cache.proof.Some?
                      && m.cache.proof.value.token == m.calls[s.caller].phase.token
              then Some(m.cache.proof.value.(expiresAt := Some(0)))
              else m.cache.proof
  {
  }

  /** The cache holds the newest proof received, whole, until a refusal of that very proof expires it. */
  lemma {:induction false} CacheHoldsTheNewestProof(steps: seq<Step>)
    requires Exec(steps).Some?
    ensures Exec(steps).value.cache.proof == KnownProof(steps)
    decreases |steps|
  {
    if steps != [] {
      var before, last := steps[..|steps| - 1], steps[|steps| - 1];
      var m := Exec(before).value;
      CacheHoldsTheNewestProof(before);
      StepChangesProof(m, last);
      if BringsProof(last) && Forgotten(before, last.answer.proof.token) {
        ForgottenWereIssued(before, last.answer.proof.token);
      }
    }
  }

  /** The newest proof was not refused and has more than a minute left. */
  predicate Usable(steps: seq<Step>)
    requires Exec(steps).Some?
  {
    var last := LastProof(steps);
    && last.Some? && !Forgotten(steps, last.value.token)
    && (last.value.expiresAt.Some? ==> Exec(steps).value.wall + 60 * SECOND < last.value.expiresAt.value)
  }

  /** The last attempt failed, and thirty seconds doubled per failure, five minutes at most, have not passed since. */
  predicate Paused(steps: seq<Step>)
    requires Exec(steps).Some?
  {
    var m := Exec(steps).value;
    var n := |m.attempts|;
    n > 0 && m.now < m.attempts[n - 1].end + Min(300 * SECOND, 30 * SECOND * Pow2(n - 1))
  }

  lemma PauseIsKnown(steps: seq<Step>)
    requires Exec(steps).Some?
    ensures var m := Exec(steps).value;
            Paused(steps) <==> m.cache.pausedUntil.Some? && m.now < m.cache.pausedUntil.value
  {
    RunKeepsInv(steps);
    if Exec(steps).value.attempts != [] {
      PauseDoublesUpToFiveMinutes(|Exec(steps).value.attempts|);
    }
  }

  lemma UsableIsServed(steps: seq<Step>)
    requires Exec(steps).Some?
    ensures var m := Exec(steps).value;
            var d := Decide(m.cache, m.now, m.wall);
            if Usable(steps) then d == Serve(LastProof(steps).value.token)
            else if Paused(steps) then d.Pause?
            else d.Renew?
  {
    RunKeepsInv(steps);
    CacheHoldsTheNewestProof(steps);
    PauseIsKnown(steps);
  }

  /**
   * A caller that gets the lock sends at once with the newest proof exactly when that proof was not
   * refused and has more than a minute left; else it gives up exactly during the pause; else it asks,
   * for a renewal where the newest proof came with a refresh token, for a new proof where not.
   */
  lemma LockHolderIsServedPausedOrAsks(steps: seq<Step>, c: Caller)
    requires Exec(steps).Some? && Enabled(Exec(steps).value, Enter(c))
    ensures var m, n := Exec(steps).value, Next(Exec(steps).value, Enter(c));
            var call, refused, last := m.calls[c], m.calls[c].phase.refused, LastProof(steps);
            && c in n.calls
            && n.calls[c] ==
               if Usable(steps) then Call(call.body, Posting(refused, last.value.token),
                                          call.posts + [Post(last.value.token, call.body)])
               else if Paused(steps) then call.(phase := Finished)
               else if last.Some? && last.value.refresh.Some?
               then call.(phase := Renewing(refused, last.value.refresh.value, m.now))
               else call.(phase := Issuing(refused, m.now))
  {
    UsableIsServed(steps);
    CacheHoldsTheNewestProof(steps);
  }

  /** The answer that decides an attempt: the renewal's, unless there is none to ask for or Accounts rejects it. */
  function Deciding(steps: seq<Step>, renewal: Answer, issue: Answer): Answer {
    var last := LastProof(steps);
    if last.Some? && last.value.refresh.Some? && !renewal.Rejected? then renewal else issue
  }

  lemma SectionEndsAsAnswered(steps: seq<Step>, renewal: Answer, issue: Answer, wall: Instant, later: Instant)
    requires Exec(steps).Some? && !Usable(steps) && !Paused(steps) && wall == Exec(steps).value.wall
    ensures var m, answer := Exec(steps).value, Deciding(steps, renewal, issue);
            TokenSection(m.cache, m.now, wall, renewal, issue, later) ==
              if answer.Issued? then (Renewed(answer.proof), Served(answer.proof.token))
              else (Failed(m.cache, later), ProofFailed)
  {
    UsableIsServed(steps);
    CacheHoldsTheNewestProof(steps);
  }

  lemma FailurePausesDoubled(steps: seq<Step>, later: Instant)
    requires Exec(steps).Some?
    ensures var m := Exec(steps).value;
            Failed(m.cache, later).pausedUntil == Some(later + Min(300 * SECOND, 30 * SECOND * Pow2(|m.attempts|)))
  {
    var m := Exec(steps).value;
    RunKeepsInv(steps);
    var n := |m.attempts| + 1;
    PauseDoublesUpToFiveMinutes(n);
    PauseGrows(1, n);
    assert ProofPause(Min(m.cache.failures + 1, U32_MAX)) == ProofPause(n);
  }

  /**
   * An undisturbed attempt ends as the deciding answer says: its proof is cached whole and sent with
   * the caller's bytes, or the call fails, the cached proof stays, and the next attempt waits.
   */
  lemma AttemptEndsAsAnswered(steps: seq<Step>, c: Caller, renewal: Answer, issue: Answer, later: Instant)
    requires Exec(steps).Some? && Enabled(Exec(steps).value, Enter(c)) && Exec(steps).value.now <= later
    requires Distinct(Exec(steps).value, renewal) && Distinct(Exec(steps).value, issue)
    requires !Usable(steps) && !Paused(steps)
    ensures var m := Exec(steps).value;
            var end := From(m, TokenSteps(m, c, renewal, issue, later));
            var answer := Deciding(steps, renewal, issue);
            && end.Some? && c in end.value.calls && end.value.holder.None?
            && if answer.Issued?
               then
                 var token := answer.proof.token;
                 && end.value.cache == CacheState(Some(answer.proof), 0, None)
                 && end.value.calls[c] == Call(m.calls[c].body, Posting(m.calls[c].phase.refused, token),
                                               m.calls[c].posts + [Post(token, m.calls[c].body)])
               else
                 && end.value.cache.proof == m.cache.proof && end.value.calls[c] == m.calls[c].(phase := Finished)
                 && end.value.cache.pausedUntil
                    == Some(later + Min(300 * SECOND, 30 * SECOND * Pow2(|m.attempts|)))
  {
    var m := Exec(steps).value;
    assert 0 <= m.wall by { RunKeepsInv(steps); }
    SectionEndsAsAnswered(steps, renewal, issue, m.wall, later);
    FailurePausesDoubled(steps, later);
    UninterruptedStepsAreTheCriticalSection(m, c, renewal, issue, later);
  }

  /** Ting's answer ends a call, except that its first refusal of a proof makes the call forget it. */
  lemma FirstRefusalOnlyIsRetried(steps: seq<Step>, c: Caller, proofRefused: bool)
    requires Exec(steps).Some? && Enabled(Exec(steps).value, PostAnswer(c, proofRefused))
    ensures var m, n := Exec(steps).value, Next(Exec(steps).value, PostAnswer(c, proofRefused));
            var posts := m.calls[c].posts;
            && 1 <= |posts| <= 2 && c in n.calls && n.calls[c].posts == posts
            && n.calls[c].phase == if proofRefused && |posts| == 1 then WantsForget(posts[0].token) else Finished
  {
    RunKeepsInv(steps);
    assert CallOk(Exec(steps).value, Exec(steps).value.calls[c]);
  }

  /** A call that forgets its refused proof asks for a token again, and never gets that one. */
  lemma ForgettingAsksForAnother(steps: seq<Step>, c: Caller)
    requires Exec(steps).Some? && Enabled(Exec(steps).value, EnterForget(c))
    ensures var m, after := Exec(steps).value, steps + [EnterForget(c)];
            && Exec(after).Some? && c in Exec(after).value.calls && |m.calls[c].posts| == 1
            && Exec(after).value.calls[c] == m.calls[c].(phase := WantsToken(Some(m.calls[c].posts[0].token)))
            && Forgotten(after, m.calls[c].posts[0].token)
            && LastProof(after) == LastProof(steps)
  {
    var m, after := Exec(steps).value, steps + [EnterForget(c)];
    RunKeepsInv(steps);
    assert CallOk(m, m.calls[c]);
    ExecSnoc(steps, EnterForget(c));
    assert after[..|after| - 1] == steps;
  }
}
