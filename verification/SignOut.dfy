/**
 * Whether a token survived a sign-out: the memory of inactive tokens, the memory of tokens confirmed
 * to be newer than a sign-out, and the decision for tokens whose issue time is stated in whole seconds.
 */
module SignOut {
  import opened Common

  type Account = nat
  type CallId = nat

  const INACTIVE_TOKEN_MEMORY: Instant := 30 * MINUTE
  const MAX_REMEMBERED: nat := 10_000

  /** An access token: its true issue time, its expiry and whether it was issued to Hook. */
  datatype Token = Token(name: string, account: Account, issued: Instant, expires: Instant, forHook: bool)

  /** The issue time a token states (`iat`): whole seconds. */
  function Stated(t: Token): Instant {
    t.issued / SECOND * SECOND
  }

  /** A sign-out recorded at an instant, without its fraction of a second. */
  function Second(at: Instant): Instant {
    at / SECOND * SECOND
  }

  // ---------------------------------------------------------------------------
  // The two memories.
  // ---------------------------------------------------------------------------

  predicate Remembered(inactive: map<Token, Instant>, t: Token, now: Instant) {
    t in inactive && now - inactive[t] < INACTIVE_TOKEN_MEMORY
  }

  function Retained(inactive: map<Token, Instant>, now: Instant): map<Token, Instant> {
    map t | t in inactive && now - inactive[t] < INACTIVE_TOKEN_MEMORY :: inactive[t]
  }

  function WithInactive(inactive: map<Token, Instant>, t: Token, now: Instant): (after: map<Token, Instant>)
    ensures |inactive| <= MAX_REMEMBERED ==> |after| <= MAX_REMEMBERED
    ensures t in after && after[t] == now
    ensures forall u :: u in after && u != t ==> u in inactive && after[u] == inactive[u]
  {
    var kept :=
      if |inactive| < MAX_REMEMBERED then inactive
      else if |Retained(inactive, now)| < MAX_REMEMBERED then Retained(inactive, now)
      else map[];
    kept[t := now]
  }

  function WithConfirmed(confirmed: map<Token, Instant>, t: Token, signOut: Instant): (after: map<Token, Instant>)
    ensures |confirmed| <= MAX_REMEMBERED ==> |after| <= MAX_REMEMBERED
    ensures t in after && after[t] == signOut
    ensures forall u :: u in after && u != t ==> u in confirmed && after[u] == confirmed[u]
  {
    (if |confirmed| < MAX_REMEMBERED then confirmed else map[])[t := signOut]
  }

  /** Only old entries make room, and everything goes only when nothing is old enough. */
  lemma FreshEntriesAreKept(inactive: map<Token, Instant>, t: Token, u: Token, now: Instant)
    requires Remembered(inactive, u, now)
    ensures Remembered(WithInactive(inactive, t, now), u, now) || |Retained(inactive, now)| >= MAX_REMEMBERED
  {
    assert u in Retained(inactive, now);
  }

  /** A remembered token is known for exactly thirty minutes. */
  lemma RememberedForThirtyMinutes(inactive: map<Token, Instant>, t: Token, now: Instant, later: Instant)
    ensures Remembered(WithInactive(inactive, t, now), t, later) <==> later < now + 1800 * SECOND
  {
  }

  class Memories {
    var inactive: map<Token, Instant>
    var confirmed: map<Token, Instant>

    ghost predicate Valid()
      reads this
    {
      |inactive| <= MAX_REMEMBERED && |confirmed| <= MAX_REMEMBERED
    }

    constructor ()
      ensures Valid() && inactive == map[] && confirmed == map[]
    {
      inactive, confirmed := map[], map[];
    }

    method RecallInactive(t: Token, now: Instant) returns (known: bool)
      ensures known == Remembered(inactive, t, now)
    {
      known := t in inactive && now - inactive[t] < INACTIVE_TOKEN_MEMORY;
    }

    method RememberInactive(t: Token, now: Instant)
      requires Valid()
      modifies this`inactive
      ensures Valid() && inactive == WithInactive(old(inactive), t, now)
    {
      if |inactive| >= MAX_REMEMBERED {
        inactive := map u | u in inactive && now - inactive[u] < INACTIVE_TOKEN_MEMORY :: inactive[u];
        if |inactive| >= MAX_REMEMBERED {
          inactive := map[];
        }
      }
      inactive := inactive[t := now];
    }

    method RecallConfirmed(t: Token, signOut: Instant) returns (known: bool)
      ensures known <==> t in confirmed && confirmed[t] == signOut
    {
      known := t in confirmed && confirmed[t] == signOut;
    }

    method RememberConfirmed(t: Token, signOut: Instant)
      requires Valid()
      modifies this`confirmed
      ensures Valid() && confirmed == WithConfirmed(old(confirmed), t, signOut)
    {
      if |confirmed| >= MAX_REMEMBERED {
        confirmed := map[];
      }
      confirmed := confirmed[t := signOut];
    }
  }

  // ---------------------------------------------------------------------------
  // Calls, interleaved with sign-outs at Accounts and the news of them at Hook.
  // ---------------------------------------------------------------------------

  datatype Question =
    | Ended(signOut: Instant)  // did the sign-out Hook recorded end this token's sign-in?
    | StillActive              // is the token active right now?

  datatype Phase =
    | Confirming               // about to look for a remembered confirmation
    | Recalling                // about to look for a remembered inactive answer
    | Asking                   // a request to Accounts is under way
    | Heard(active: bool)      // about to remember an inactive answer
    | Settling                 // about to remember a confirmation
    | Done(answer: Option<bool>)

  /** `Done(Some(b))` answers the question; `Done(None)` reports that Accounts did not answer. */
  datatype Call = Call(token: Token, question: Question, phase: Phase)

  /** `endings` are the sign-outs that happened, `recorded` the latest one Hook was told of per account. */
  datatype World = World(
    now: Instant,
    endings: set<(Account, Instant)>,
    recorded: map<Account, Instant>,
    inactive: map<Token, Instant>,
    confirmed: map<Token, Instant>,
    calls: map<CallId, Call>)

  const Start := World(0, {}, map[], map[], map[], map[])

  /** `usable` is false when a lock is poisoned and its memory is passed by. */
  datatype Step =
    | Tick(now: Instant)
    | SignOut(account: Account, at: Instant)
    | Learn(account: Account, at: Instant)
    | Authenticate(call: CallId, token: Token)
    | RequireActive(call: CallId, token: Token)
    | RecallConfirmation(call: CallId, usable: bool)
    | RecallInactive(call: CallId, usable: bool)
    | Answer(call: CallId)
    | NoAnswer(call: CallId)
    | RememberAnswer(call: CallId, usable: bool)
    | RememberConfirmation(call: CallId, usable: bool)

  /** What Accounts says of a token: a sign-out ends what was issued before it. */
  ghost predicate Active(w: World, t: Token) {
    t.forHook && w.now < t.expires && forall e :: e in w.endings && e.0 == t.account ==> e.1 <= t.issued
  }

  predicate Calls(w: World, call: CallId, phase: Phase) {
    call in w.calls && w.calls[call].phase == phase
  }

  ghost predicate Enabled(w: World, s: Step) {
    match s
    case Tick(now) => w.now <= now
    case SignOut(_, _) => true
    case Learn(account, at) => (account, at) in w.endings
    case Authenticate(c, t) => c !in w.calls && t.account in w.recorded
    case RequireActive(c, t) => c !in w.calls
    case RecallConfirmation(c, _) => Calls(w, c, Confirming) && w.calls[c].question.Ended?
    case RecallInactive(c, _) => Calls(w, c, Recalling)
    case Answer(c) => Calls(w, c, Asking)
    case NoAnswer(c) => Calls(w, c, Asking)
    case RememberAnswer(c, _) => c in w.calls && w.calls[c].phase.Heard?
    case RememberConfirmation(c, _) => Calls(w, c, Settling) && w.calls[c].question.Ended?
  }

  function Move(w: World, c: CallId, phase: Phase): World
    requires c in w.calls
  {
    w.(calls := w.calls[c := w.calls[c].(phase := phase)])
  }

  /** The answer to a call's question, once the token is known to be active or inactive. */
  function Outcome(q: Question, active: bool): Phase {
    Done(Some(match q case Ended(_) => !active case StillActive => active))
  }

  /** An earlier second is older than the sign-out, a later second newer; its own second needs Accounts. */
  function FirstLook(t: Token, signOut: Instant): Phase {
    if Stated(t) < Second(signOut) then Done(Some(true))
    else if Stated(t) >= signOut then Done(Some(false))
    else Confirming
  }

  ghost function Next(w: World, s: Step): World
    requires Enabled(w, s)
  {
    match s
    case Tick(now) => w.(now := now)
    case SignOut(account, at) => w.(endings := w.endings + {(account, at)})
    case Learn(account, at) =>
      w.(recorded := w.recorded[account := if account in w.recorded then Max(w.recorded[account], at) else at])
    case Authenticate(c, t) =>
      w.(calls := w.calls[c := Call(t, Ended(w.recorded[t.account]), FirstLook(t, w.recorded[t.account]))])
    case RequireActive(c, t) => w.(calls := w.calls[c := Call(t, StillActive, Recalling)])
    case RecallConfirmation(c, usable) =>
      var t := w.calls[c].token;
      if usable && t in w.confirmed && w.confirmed[t] == w.calls[c].question.signOut
      then Move(w, c, Done(Some(false))) else Move(w, c, Recalling)
    case RecallInactive(c, usable) =>
      if usable && Remembered(w.inactive, w.calls[c].token, w.now)
      then Move(w, c, Outcome(w.calls[c].question, false)) else Move(w, c, Asking)
    case Answer(c) => Move(w, c, Heard(Active(w, w.calls[c].token)))
    case NoAnswer(c) => Move(w, c, Done(None))
    case RememberAnswer(c, usable) =>
      var call := w.calls[c];
      if call.phase.active then
        Move(w, c, if call.question.Ended? then Settling else Outcome(call.question, true))
      else
        var moved := Move(w, c, Outcome(call.question, false));
        if usable then moved.(inactive := WithInactive(w.inactive, call.token, w.now)) else moved
    case RememberConfirmation(c, usable) =>
      var call := w.calls[c];
      var moved := Move(w, c, Outcome(call.question, true));
      if usable then moved.(confirmed := WithConfirmed(w.confirmed, call.token, call.question.signOut)) else moved
  }

  ghost function Exec(steps: seq<Step>): Option<World>
    decreases |steps|
  {
    if steps == [] then Some(Start) else
    var before := Exec(steps[..|steps| - 1]);
    var last := steps[|steps| - 1];
    if before.Some? && Enabled(before.value, last) then Some(Next(before.value, last)) else None
  }

  // ---------------------------------------------------------------------------
  // What every step keeps.
  // ---------------------------------------------------------------------------

  ghost predicate CallOk(w: World, c: Call) {
    && (c.question.Ended? ==> (c.token.account, c.question.signOut) in w.endings)
    && (c.phase == Heard(false) ==> !Active(w, c.token))
    && (c.question.Ended? && (c.phase == Heard(true) || c.phase == Settling || c.phase == Done(Some(false))) ==>
          c.question.signOut <= c.token.issued)
    && (c.question.Ended? && c.phase == Done(Some(true)) ==> !Active(w, c.token))
    && (c.question.StillActive? && c.phase == Done(Some(false)) ==> !Active(w, c.token))
  }

  ghost predicate Inv(w: World) {
    && |w.inactive| <= MAX_REMEMBERED && |w.confirmed| <= MAX_REMEMBERED
    && (forall a :: a in w.recorded ==> (a, w.recorded[a]) in w.endings)
    && (forall t :: t in w.inactive ==> !Active(w, t))
    && (forall t :: t in w.confirmed ==> w.confirmed[t] <= t.issued)
    && (forall c :: c in w.calls ==> CallOk(w, w.calls[c]))
  }

  /** Once inactive, always inactive: time passes and sign-outs are never taken back. */
  lemma InactiveStaysInactive(w: World, s: Step, t: Token)
    requires Enabled(w, s) && !Active(w, t)
    ensures !Active(Next(w, s), t)
  {
    assert w.endings <= Next(w, s).endings;
  }

  /** Whole seconds never make an older token look newer, nor a newer one older. */
  lemma FirstLookIsSound(t: Token, signOut: Instant)
    ensures FirstLook(t, signOut) == Done(Some(true)) ==> t.issued < signOut
    ensures FirstLook(t, signOut) == Done(Some(false)) ==> signOut <= t.issued
    ensures FirstLook(t, signOut) == Confirming <==> Stated(t) == Second(signOut) && signOut != Second(signOut)
  {
  }

  /** One step of one call, seen from that call. */
  ghost predicate Moved(w: World, s: Step, before: Call, after: Call) {
    && after == before.(phase := after.phase)
    && match before.phase
       case Confirming =>
         || after.phase == Recalling
         || (after.phase == Done(Some(false)) && before.token in w.confirmed && before.question.Ended?
             && w.confirmed[before.token] == before.question.signOut)
       case Recalling =>
         || after.phase == Asking
         || (after.phase == Outcome(before.question, false) && before.token in w.inactive)
       case Asking => after.phase == Done(None) || (s.Answer? && after.phase == Heard(Active(w, before.token)))
       case Heard(active) =>
         if active && before.question.Ended? then after.phase == Settling
         else after.phase == Outcome(before.question, active)
       case Settling => before.question.Ended? && after.phase == Done(Some(false))
       case Done(_) => false
  }

  predicate Acts(s: Step, c: CallId) {
    !s.Tick? && !s.SignOut? && !s.Learn? && s.call == c
  }

  lemma OtherCallsStay(w: World, s: Step, c: CallId)
    requires Enabled(w, s) && c in w.calls && !Acts(s, c)
    ensures c in Next(w, s).calls && Next(w, s).calls[c] == w.calls[c]
  {
  }

  lemma ActingCallMoves(w: World, s: Step, c: CallId)
    requires Enabled(w, s) && c in w.calls && Acts(s, c)
    ensures c in Next(w, s).calls && Moved(w, s, w.calls[c], Next(w, s).calls[c])
  {
  }

  lemma StepMovesCall(w: World, s: Step, c: CallId)
    requires Enabled(w, s) && c in w.calls
    ensures c in Next(w, s).calls
    ensures Next(w, s).calls[c] == w.calls[c] || (Acts(s, c) && Moved(w, s, w.calls[c], Next(w, s).calls[c]))
  {
    if Acts(s, c) { ActingCallMoves(w, s, c); } else { OtherCallsStay(w, s, c); }
  }

  lemma StepStartsCall(w: World, s: Step, c: CallId)
    requires Enabled(w, s) && c in Next(w, s).calls && c !in w.calls
    ensures var b := Next(w, s).calls[c];
            if s.Authenticate? then
              && b.token.account in w.recorded && b.question == Ended(w.recorded[b.token.account])
              && b.phase == FirstLook(b.token, b.question.signOut)
            else b.question == StillActive && b.phase == Recalling
  {
  }

  lemma StepKeepsEndings(w: World, s: Step)
    requires Enabled(w, s)
    ensures w.endings <= Next(w, s).endings
    ensures forall a :: a in Next(w, s).recorded ==>
              (a in w.recorded && Next(w, s).recorded[a] == w.recorded[a]) || (a, Next(w, s).recorded[a]) in w.endings
  {
  }

  lemma StepKeepsMemories(w: World, s: Step)
    requires Enabled(w, s)
    ensures |w.inactive| <= MAX_REMEMBERED ==> |Next(w, s).inactive| <= MAX_REMEMBERED
    ensures |w.confirmed| <= MAX_REMEMBERED ==> |Next(w, s).confirmed| <= MAX_REMEMBERED
    ensures forall t :: t in Next(w, s).inactive && t !in w.inactive ==>
              s.RememberAnswer? && w.calls[s.call].phase == Heard(false) && w.calls[s.call].token == t
    ensures forall t :: t in Next(w, s).confirmed ==>
              || (t in w.confirmed && Next(w, s).confirmed[t] == w.confirmed[t])
              || (s.RememberConfirmation? && w.calls[s.call].token == t
                  && w.calls[s.call].question == Ended(Next(w, s).confirmed[t]))
  {
  }

  lemma CallOkStays(w: World, s: Step, c: Call)
    requires Enabled(w, s) && CallOk(w, c)
    ensures CallOk(Next(w, s), c)
  {
    StepKeepsEndings(w, s);
    if !Active(w, c.token) { InactiveStaysInactive(w, s, c.token); }
  }

  lemma MovedCallIsOk(w: World, s: Step, before: Call, after: Call)
    requires CallOk(w, before) && Moved(w, s, before, after)
    requires forall t :: t in w.inactive ==> !Active(w, t)
    requires forall t :: t in w.confirmed ==> w.confirmed[t] <= t.issued
    ensures CallOk(w, after)
  {
  }

  lemma StepKeepsCall(w: World, s: Step, c: CallId)
    requires Enabled(w, s) && Inv(w) && c in Next(w, s).calls
    ensures CallOk(Next(w, s), Next(w, s).calls[c])
  {
    var after := Next(w, s).calls[c];
    if c in w.calls {
      assert CallOk(w, w.calls[c]);
      StepMovesCall(w, s, c);
      if after != w.calls[c] { MovedCallIsOk(w, s, w.calls[c], after); }
    } else {
      StepStartsCall(w, s, c);
      if s.Authenticate? { FirstLookIsSound(after.token, after.question.signOut); }
    }
    CallOkStays(w, s, after);
  }

  lemma StepKeepsInv(w: World, s: Step)
    requires Enabled(w, s) && Inv(w)
    ensures Inv(Next(w, s))
  {
    var n := Next(w, s);
    StepKeepsEndings(w, s);
    StepKeepsMemories(w, s);
    forall t | t in n.inactive ensures !Active(n, t) {
      assert !Active(w, t) by { assert t !in w.inactive ==> CallOk(w, w.calls[s.call]); }
      InactiveStaysInactive(w, s, t);
    }
    forall t | t in n.confirmed ensures n.confirmed[t] <= t.issued {
      if s.RememberConfirmation? { assert CallOk(w, w.calls[s.call]); }
    }
    forall c | c in n.calls ensures CallOk(n, n.calls[c]) { StepKeepsCall(w, s, c); }
  }

  lemma {:induction false} RunKeepsInv(steps: seq<Step>)
    requires Exec(steps).Some?
    ensures Inv(Exec(steps).value)
    decreases |steps|
  {
    if steps != [] {
      RunKeepsInv(steps[..|steps| - 1]);
      StepKeepsInv(Exec(steps[..|steps| - 1]).value, steps[|steps| - 1]);
    }
  }

  // ---------------------------------------------------------------------------
  // What every run guarantees.
  // ---------------------------------------------------------------------------

  /** The memories are bounded, and every remembered answer is what Accounts would say now. */
  lemma MemoriesAgreeWithAccounts(steps: seq<Step>)
    requires Exec(steps).Some?
    ensures var w := Exec(steps).value;
            && |w.inactive| <= MAX_REMEMBERED && |w.confirmed| <= MAX_REMEMBERED
            && (forall t :: t in w.inactive ==> !Active(w, t))
            && (forall t :: t in w.confirmed ==> w.confirmed[t] <= t.issued)
  {
    RunKeepsInv(steps);
  }

  /**
   * "Not ended" is said only of a token issued at or after the sign-out asked about, and "ended" only
   * of a token Accounts no longer honours.
   */
  lemma EndedBySignOutIsSound(steps: seq<Step>, c: CallId)
    requires Exec(steps).Some? && c in Exec(steps).value.calls && Exec(steps).value.calls[c].question.Ended?
    ensures var w := Exec(steps).value; var call := w.calls[c];
            && (call.token.account, call.question.signOut) in w.endings
            && (call.phase == Done(Some(false)) ==> call.question.signOut <= call.token.issued)
            && (call.phase == Done(Some(true)) ==> !Active(w, call.token))
  {
    RunKeepsInv(steps);
    assert CallOk(Exec(steps).value, Exec(steps).value.calls[c]);
  }

  /** For a live token of Hook's and the account's latest sign-out, the decision is exact. */
  lemma EndedBySignOutIsExact(steps: seq<Step>, c: CallId, answer: bool)
    requires Exec(steps).Some? && c in Exec(steps).value.calls
    requires var w := Exec(steps).value; var call := w.calls[c];
             && call.question.Ended? && call.phase == Done(Some(answer))
             && call.token.forHook && w.now < call.token.expires
             && forall e :: e in w.endings && e.0 == call.token.account ==> e.1 <= call.question.signOut
    ensures var call := Exec(steps).value.calls[c];
            answer <==> call.token.issued < call.question.signOut
  {
    EndedBySignOutIsSound(steps, c);
  }

  /** Accounts was asked in this very call, and said then that the token is active. */
  ghost predicate ActiveWhenAsked(steps: seq<Step>, c: CallId, k: nat) {
    && k < |steps| && steps[k] == Answer(c) && Exec(steps[..k]).Some?
    && c in Exec(steps[..k]).value.calls && Active(Exec(steps[..k]).value, Exec(steps[..k]).value.calls[c].token)
  }

  lemma {:induction false} ActiveAnswersAreAskedFor(steps: seq<Step>, c: CallId) returns (k: nat)
    requires Exec(steps).Some? && c in Exec(steps).value.calls
    requires var call := Exec(steps).value.calls[c];
             || call.phase == Heard(true) || call.phase == Settling
             || (call.question.StillActive? && call.phase == Done(Some(true)))
    ensures ActiveWhenAsked(steps, c, k)
    ensures Exec(steps[..k]).value.calls[c].token == Exec(steps).value.calls[c].token
    decreases |steps|
  {
    var before, last := steps[..|steps| - 1], steps[|steps| - 1];
    if last == Answer(c) {
      k := |before|;
      StepMovesCall(Exec(before).value, last, c);
    } else {
      var w := Exec(before).value;
      if c in w.calls { StepMovesCall(w, last, c); } else { StepStartsCall(w, last, c); }
      k := ActiveAnswersAreAskedFor(before, c);
      assert before[..k] == steps[..k];
    }
  }

  lemma {:induction false} InactiveForever(steps: seq<Step>, j: nat, t: Token)
    requires j <= |steps| && Exec(steps).Some? && Exec(steps[..j]).Some? && !Active(Exec(steps[..j]).value, t)
    ensures !Active(Exec(steps).value, t)
    decreases |steps|
  {
    if j == |steps| {
      assert steps[..j] == steps;
    } else {
      var before := steps[..|steps| - 1];
      assert before[..j] == steps[..j];
      InactiveForever(before, j, t);
      InactiveStaysInactive(Exec(before).value, steps[|steps| - 1], t);
    }
  }

  lemma {:induction false} CallsAreNeverForgotten(steps: seq<Step>, j: nat, c: CallId)
    requires j <= |steps| && Exec(steps).Some? && Exec(steps[..j]).Some? && c in Exec(steps[..j]).value.calls
    ensures c in Exec(steps).value.calls
    decreases |steps|
  {
    if j == |steps| {
      assert steps[..j] == steps;
    } else {
      assert steps[..|steps| - 1][..j] == steps[..j];
      CallsAreNeverForgotten(steps[..|steps| - 1], j, c);
      StepMovesCall(Exec(steps[..|steps| - 1]).value, steps[|steps| - 1], c);
    }
  }

  /** A sign-out is seen at once: no check that starts after it calls the token active, remembered or not. */
  lemma SignOutIsSeenAtOnce(steps: seq<Step>, j: nat, c: CallId)
    requires j <= |steps| && Exec(steps[..j]).Some? && c !in Exec(steps[..j]).value.calls
    requires Exec(steps).Some? && c in Exec(steps).value.calls && Exec(steps).value.calls[c].question.StillActive?
    requires !Active(Exec(steps[..j]).value, Exec(steps).value.calls[c].token)
    ensures Exec(steps).value.calls[c].phase != Done(Some(true))
  {
    if Exec(steps).value.calls[c].phase == Done(Some(true)) {
      var k := ActiveAnswersAreAskedFor(steps, c);
      if k < j {
        assert steps[..j][..k] == steps[..k];
        CallsAreNeverForgotten(steps[..j], k, c);
      } else {
        assert steps[..k][..j] == steps[..j];
        InactiveForever(steps[..k], j, Exec(steps).value.calls[c].token);
      }
      assert false;
    }
  }

  /** A check that ends "no longer active" agrees with Accounts, however the answer was come by. */
  lemma RefusedTokensAreInactive(steps: seq<Step>, c: CallId)
    requires Exec(steps).Some? && c in Exec(steps).value.calls
    requires Exec(steps).value.calls[c].question.StillActive? && Exec(steps).value.calls[c].phase == Done(Some(false))
    ensures !Active(Exec(steps).value, Exec(steps).value.calls[c].token)
  {
    RunKeepsInv(steps);
    assert CallOk(Exec(steps).value, Exec(steps).value.calls[c]);
  }

  // ---------------------------------------------------------------------------
  // What the history says of the state.
  // ---------------------------------------------------------------------------

  /** Accounts ended exactly what was signed out. */
  lemma {:induction false} EndingsAreTheSignOuts(steps: seq<Step>, account: Account, at: Instant)
    requires Exec(steps).Some?
    ensures (account, at) in Exec(steps).value.endings <==> SignOut(account, at) in steps
    decreases |steps|
  {
    if steps != [] {
      var before, last := steps[..|steps| - 1], steps[|steps| - 1];
      EndingsAreTheSignOuts(before, account, at);
      assert steps == before + [last];
    }
  }

  /** Hook's recorded sign-out is the latest one it was told of, in whatever order the news came. */
  lemma {:induction false} RecordedIsTheLatestLearned(steps: seq<Step>, account: Account)
    requires Exec(steps).Some?
    ensures var w := Exec(steps).value;
            if account in w.recorded
            then Learn(account, w.recorded[account]) in steps
                 && forall at :: Learn(account, at) in steps ==> at <= w.recorded[account]
            else forall at :: Learn(account, at) !in steps
    decreases |steps|
  {
    if steps != [] {
      var before, last := steps[..|steps| - 1], steps[|steps| - 1];
      RecordedIsTheLatestLearned(before, account);
      assert steps == before + [last];
      StepRecords(Exec(before).value, last, account);
    }
  }

  lemma StepRecords(w: World, s: Step, account: Account)
    requires Enabled(w, s)
    ensures var n := Next(w, s);
            if s.Learn? && s.account == account then
              && account in n.recorded && s.at <= n.recorded[account]
              && (account in w.recorded ==> w.recorded[account] <= n.recorded[account])
              && (n.recorded[account] == s.at || (account in w.recorded && n.recorded[account] == w.recorded[account]))
            else account in n.recorded <==> account in w.recorded
    ensures !(s.Learn? && s.account == account) && account in w.recorded ==>
              Next(w, s).recorded[account] == w.recorded[account]
  {
  }

  /** The sign-out a call asks about is one Hook had been told of. */
  lemma {:induction false} CallsAskAboutLearnedSignOuts(steps: seq<Step>, c: CallId)
    requires Exec(steps).Some? && c in Exec(steps).value.calls && Exec(steps).value.calls[c].question.Ended?
    ensures var call := Exec(steps).value.calls[c]; Learn(call.token.account, call.question.signOut) in steps
    decreases |steps|
  {
    if steps != [] {
      var before, last := steps[..|steps| - 1], steps[|steps| - 1];
      var w := Exec(before).value;
      assert steps == before + [last];
      if c in w.calls {
        StepMovesCall(w, last, c);
        CallsAskAboutLearnedSignOuts(before, c);
      } else {
        StepStartsCall(w, last, c);
        RecordedIsTheLatestLearned(before, Exec(steps).value.calls[c].token.account);
      }
    }
  }

  /** A call asks about no sign-out older than one Hook had been told of when the call began. */
  lemma {:induction false} CallsAskAboutTheLatestLearned(steps: seq<Step>, j: nat, c: CallId, at: Instant)
    requires Exec(steps).Some? && j < |steps| && c in Exec(steps).value.calls
    requires var call := Exec(steps).value.calls[c];
             call.question.Ended? && steps[j] == Learn(call.token.account, at)
    requires Exec(steps[..j + 1]).Some? && c !in Exec(steps[..j + 1]).value.calls
    ensures at <= Exec(steps).value.calls[c].question.signOut
    decreases |steps|
  {
    assert steps[..|steps|] == steps;
    if j + 1 < |steps| {
      var before, last := steps[..|steps| - 1], steps[|steps| - 1];
      var w := Exec(before).value;
      assert before[..j + 1] == steps[..j + 1] && before[j] == steps[j];
      if c in w.calls {
        StepMovesCall(w, last, c);
        CallsAskAboutTheLatestLearned(before, j, c, at);
      } else {
        StepStartsCall(w, last, c);
        RecordedIsTheLatestLearned(before, Exec(steps).value.calls[c].token.account);
        assert before[j] in before;
      }
    }
  }

  /** "Not ended" holds against every sign-out Hook had been told of when the call began, not only one of them. */
  lemma NotEndedCoversEverySignOutLearned(steps: seq<Step>, j: nat, c: CallId, at: Instant)
    requires Exec(steps).Some? && j < |steps| && c in Exec(steps).value.calls
    requires var call := Exec(steps).value.calls[c];
             && call.question.Ended? && steps[j] == Learn(call.token.account, at) && call.phase == Done(Some(false))
    requires Exec(steps[..j + 1]).Some? && c !in Exec(steps[..j + 1]).value.calls
    ensures at <= Exec(steps).value.calls[c].token.issued
  {
    CallsAskAboutTheLatestLearned(steps, j, c, at);
    EndedBySignOutIsSound(steps, c);
  }

  // ---------------------------------------------------------------------------
  // A call nobody disturbs is decided.
  // ---------------------------------------------------------------------------

  /** How many statements a call has left, at most. */
  function Left(phase: Phase): nat {
    match phase
    case Confirming => 5
    case Recalling => 4
    case Asking => 3
    case Heard(_) => 2
    case Settling => 1
    case Done(_) => 0
  }

  /** The next statement of a call whose memories are at hand and whose question Accounts answers. */
  function Statement(phase: Phase, c: CallId): Step
    requires !phase.Done?
  {
    match phase
    case Confirming => RecallConfirmation(c, true)
    case Recalling => RecallInactive(c, true)
    case Asking => Answer(c)
    case Heard(_) => RememberAnswer(c, true)
    case Settling => RememberConfirmation(c, true)
  }

  predicate Underway(call: Call) {
    call.phase != Done(None) && (call.phase == Confirming || call.phase == Settling ==> call.question.Ended?)
  }

  lemma StatementAdvances(w: World, c: CallId)
    requires c in w.calls && Underway(w.calls[c]) && !w.calls[c].phase.Done?
    ensures var s := Statement(w.calls[c].phase, c);
            && Enabled(w, s)
            && var n := Next(w, s);
            && c in n.calls && Underway(n.calls[c]) && Left(n.calls[c].phase) < Left(w.calls[c].phase)
  {
  }

  lemma StatementsTakeNoTime(w: World, s: Step)
    requires Enabled(w, s) && !s.Tick? && !s.SignOut?
    ensures Next(w, s).now == w.now && Next(w, s).endings == w.endings
  {
  }

  /** Undisturbed, a call that has begun comes to an answer, of the same token and question and at once. */
  lemma {:induction false} UndisturbedCallsAreDecided(steps: seq<Step>, c: CallId) returns (more: seq<Step>)
    requires Exec(steps).Some? && c in Exec(steps).value.calls && Underway(Exec(steps).value.calls[c])
    ensures var w, end := Exec(steps).value, Exec(steps + more);
            && end.Some? && c in end.value.calls && end.value.calls[c].phase.Done?
            && end.value.calls[c].phase != Done(None)
            && end.value.calls[c].token == w.calls[c].token && end.value.calls[c].question == w.calls[c].question
            && end.value.now == w.now && end.value.endings == w.endings
    decreases Left(Exec(steps).value.calls[c].phase)
  {
    var w := Exec(steps).value;
    more := [];
    assert steps + [] == steps;
    if !w.calls[c].phase.Done? {
      var s := Statement(w.calls[c].phase, c);
      StatementAdvances(w, c);
      StatementsTakeNoTime(w, s);
      StepMovesCall(w, s, c);
      assert (steps + [s])[..|steps|] == steps;
      var rest := UndisturbedCallsAreDecided(steps + [s], c);
      assert steps + [s] + rest == steps + ([s] + rest);
      more := [s] + rest;
    }
  }

  /** Both checks begin underway, so neither can end without an answer unless Accounts gives none. */
  lemma ChecksBeginUnderway(w: World, c: CallId, t: Token)
    ensures Enabled(w, Authenticate(c, t)) ==> Underway(Next(w, Authenticate(c, t)).calls[c])
    ensures Enabled(w, RequireActive(c, t)) ==> Underway(Next(w, RequireActive(c, t)).calls[c])
  {
  }

  /** An inactive answer is remembered: asked again within thirty minutes, the token is refused at once. */
  lemma InactiveAnswersSpareAsking(w: World, c: CallId, later: World, d: CallId)
    requires c in w.calls && w.calls[c].phase == Heard(false)
    requires later.inactive == Next(w, RememberAnswer(c, true)).inactive && w.now <= later.now
    requires Calls(later, d, Recalling) && later.calls[d].token == w.calls[c].token
    ensures Next(later, RecallInactive(d, true)).calls[d].phase ==
              if later.now < w.now + 1800 * SECOND then Outcome(later.calls[d].question, false) else Asking
  {
  }

  /** A confirmation is remembered: the next question about the same sign-out is answered at once, no other is. */
  lemma ConfirmationsSpareAsking(w: World, c: CallId, later: World, d: CallId)
    requires Enabled(w, RememberConfirmation(c, true))
    requires later.confirmed == Next(w, RememberConfirmation(c, true)).confirmed
    requires Enabled(later, RecallConfirmation(d, true)) && later.calls[d].token == w.calls[c].token
    ensures Next(later, RecallConfirmation(d, true)).calls[d].phase ==
              if later.calls[d].question == w.calls[c].question then Done(Some(false)) else Recalling
  {
  }
}
