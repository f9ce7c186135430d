/** The hook aggregate: its lifecycle transitions, its recovery window and what every run of it keeps. */
module HookLifecycle {
  import opened Common

  const HOOK_RECOVERY: Instant := 45 * DAY

  datatype Status = Active | Disabled | Deleted

  /** A signing policy and its encrypted secret, if it holds one. */
  datatype Signing = Signing(policy: string, secret: Option<string>)

  datatype Snapshot = Snapshot(
    id: string, name: string, description: Option<string>, endpointKey: string, signing: Signing, timeZone: string,
    status: Status, createdBy: string, createdAt: Instant, disabledAt: Option<Instant>, deletedAt: Option<Instant>,
    lastReceivedAt: Option<Instant>, lastBlockedAt: Option<Instant>, endpointRotatedAt: Option<Instant>)

  datatype NewHook = NewHook(
    id: string, name: string, description: Option<string>, endpointKey: string, signing: Signing, timeZone: string,
    createdBy: string, createdAt: Instant)

  datatype Update = Update(
    name: Option<string>, description: Option<Option<string>>, timeZone: Option<string>, signing: Option<Signing>)

  datatype TransitionError =
    | HookAlreadyDeleted
    | HookNotDisabled
    | HookNotDeleted
    | HookRecoveryExpired
    | TimestampOutOfOrder(field: string, predecessor: string)

  datatype DomainError = InvalidFormat(field: string)

  datatype Transition =
    | Disable(at: Instant)
    | Enable(at: Instant)
    | Delete(at: Instant)
    | Restore(at: Instant)
    | RotateSecret(secret: string)
    | RotateEndpoint(key: string, at: Instant)
    | Change(update: Update)
    | RecordReceived(at: Instant)
    | RecordBlocked(at: Instant)

  /** Adding to a timestamp fails past the last one. */
  function CheckedAdd(at: Instant, duration: Instant): Option<Instant> {
    if FIRST_INSTANT <= at + duration <= LAST_INSTANT then Some(at + duration) else None
  }

  function Created(n: NewHook): Snapshot {
    Snapshot(n.id, n.name, n.description, n.endpointKey, n.signing, n.timeZone, Active, n.createdBy, n.createdAt,
             None, None, None, None, None)
  }

  predicate NotBefore(at: Option<Instant>, createdAt: Instant) {
    at.Some? ==> createdAt <= at.value
  }

  /** The checks on a persisted hook, in order. */
  function Rehydrate(s: Snapshot): Result<Snapshot, DomainError> {
    if !(match s.status
         case Active => s.disabledAt.None? && s.deletedAt.None?
         case Disabled => s.disabledAt.Some? && s.deletedAt.None?
         case Deleted => s.disabledAt.None? && s.deletedAt.Some?)
    then Err(InvalidFormat("hook_status"))
    else if !NotBefore(s.disabledAt, s.createdAt) then Err(InvalidFormat("disabled_at"))
    else if !NotBefore(s.deletedAt, s.createdAt) then Err(InvalidFormat("deleted_at"))
    else if !NotBefore(s.endpointRotatedAt, s.createdAt) then Err(InvalidFormat("endpoint_rotated_at"))
    else Ok(s)
  }

  predicate IsRetainedAt(s: Snapshot, now: Instant) {
    s.deletedAt.Some? ==>
      var deadline := CheckedAdd(s.deletedAt.value, HOOK_RECOVERY);
      deadline.Some? && now <= deadline.value
  }

  function Latest(existing: Option<Instant>, at: Instant): Instant {
    if existing.Some? then Max(existing.value, at) else at
  }

  function Pick<T>(change: Option<T>, current: T): T {
    if change.Some? then change.value else current
  }

  /** Why a transition is refused, if it is. */
  function Refusal(s: Snapshot, t: Transition): Option<TransitionError> {
    match t
    case Disable(at) =>
      if s.status == Deleted then Some(HookAlreadyDeleted)
      else if s.status == Active && at < s.createdAt then Some(TimestampOutOfOrder("disabled_at", "created_at"))
      else None
    case Enable(at) =>
      if s.status == Deleted then Some(HookAlreadyDeleted)
      else if s.status == Active then None
      else if s.disabledAt.None? then Some(HookNotDisabled)
      else if at < s.disabledAt.value then Some(TimestampOutOfOrder("enabled_at", "disabled_at"))
      else None
    case Delete(at) =>
      if s.status == Deleted then Some(HookAlreadyDeleted)
      else if at < s.createdAt then Some(TimestampOutOfOrder("deleted_at", "created_at"))
      else if s.disabledAt.Some? && at < s.disabledAt.value then Some(TimestampOutOfOrder("deleted_at", "disabled_at"))
      else None
    case Restore(at) =>
      if s.status != Deleted || s.deletedAt.None? then Some(HookNotDeleted)
      else
        var deadline := CheckedAdd(s.deletedAt.value, HOOK_RECOVERY);
        if deadline.None? || at > deadline.value then Some(HookRecoveryExpired)
        else if at < s.deletedAt.value then Some(TimestampOutOfOrder("restored_at", "deleted_at"))
        else None
    case RotateEndpoint(_, at) =>
      if s.status == Deleted then Some(HookAlreadyDeleted)
      else if at < s.createdAt then Some(TimestampOutOfOrder("endpoint_rotated_at", "created_at"))
      else None
    case RotateSecret(_) => if s.status == Deleted then Some(HookAlreadyDeleted) else None
    case Change(_) => if s.status == Deleted then Some(HookAlreadyDeleted) else None
    case RecordReceived(_) => None
    case RecordBlocked(_) => None
  }

  /** The hook after a transition; a refused one changes nothing. */
  function After(s: Snapshot, t: Transition): Snapshot {
    if Refusal(s, t).Some? then s else
    match t
    case Disable(at) => if s.status == Disabled then s else s.(status := Disabled, disabledAt := Some(at))
    case Enable(at) => if s.status == Active then s else s.(status := Active, disabledAt := None)
    case Delete(at) => s.(status := Deleted, disabledAt := None, deletedAt := Some(at))
    case Restore(at) => s.(status := Active, disabledAt := None, deletedAt := None)
    case RotateSecret(secret) => s.(signing := s.signing.(secret := Some(secret)))
    case RotateEndpoint(key, at) => s.(endpointKey := key, endpointRotatedAt := Some(at))
    case Change(u) =>
      s.(name := Pick(u.name, s.name), description := Pick(u.description, s.description),
         timeZone := Pick(u.timeZone, s.timeZone), signing := Pick(u.signing, s.signing))
    case RecordReceived(at) => s.(lastReceivedAt := Some(Latest(s.lastReceivedAt, at)))
    case RecordBlocked(at) => s.(lastBlockedAt := Some(Latest(s.lastBlockedAt, at)))
  }

  class Hook {
    var snapshot: Snapshot

    constructor (n: NewHook)
      ensures snapshot == Created(n)
    {
      snapshot := Snapshot(n.id, n.name, n.description, n.endpointKey, n.signing, n.timeZone, Active, n.createdBy,
                           n.createdAt, None, None, None, None, None);
    }

    method Disable(at: Instant) returns (error: Option<TransitionError>)
      modifies this
      ensures error == Refusal(old(snapshot), Transition.Disable(at))
      ensures snapshot == After(old(snapshot), Transition.Disable(at))
    {
      match snapshot.status
      case Deleted => return Some(HookAlreadyDeleted);
      case Disabled => return None;
      case Active =>
        if at < snapshot.createdAt {
          return Some(TimestampOutOfOrder("disabled_at", "created_at"));
        }
        snapshot := snapshot.(status := Disabled, disabledAt := Some(at));
        return None;
    }

    method Enable(at: Instant) returns (error: Option<TransitionError>)
      modifies this
      ensures error == Refusal(old(snapshot), Transition.Enable(at))
      ensures snapshot == After(old(snapshot), Transition.Enable(at))
    {
      match snapshot.status
      case Deleted => return Some(HookAlreadyDeleted);
      case Active => return None;
      case Disabled =>
        if snapshot.disabledAt.None? {
          return Some(HookNotDisabled);
        }
        if at < snapshot.disabledAt.value {
          return Some(TimestampOutOfOrder("enabled_at", "disabled_at"));
        }
        snapshot := snapshot.(status := Active, disabledAt := None);
        return None;
    }

    method Delete(at: Instant) returns (error: Option<TransitionError>)
      modifies this
      ensures error == Refusal(old(snapshot), Transition.Delete(at))
      ensures snapshot == After(old(snapshot), Transition.Delete(at))
    {
      if snapshot.status == Deleted {
        return Some(HookAlreadyDeleted);
      }
      if at < snapshot.createdAt {
        return Some(TimestampOutOfOrder("deleted_at", "created_at"));
      }
      if snapshot.disabledAt.Some? && at < snapshot.disabledAt.value {
        return Some(TimestampOutOfOrder("deleted_at", "disabled_at"));
      }
      snapshot := snapshot.(status := Deleted, disabledAt := None, deletedAt := Some(at));
      return None;
    }

    method Restore(now: Instant) returns (error: Option<TransitionError>)
      modifies this
      ensures error == Refusal(old(snapshot), Transition.Restore(now))
      ensures snapshot == After(old(snapshot), Transition.Restore(now))
    {
      if snapshot.status != Deleted || snapshot.deletedAt.None? {
        return Some(HookNotDeleted);
      }
      var deadline := CheckedAdd(snapshot.deletedAt.value, HOOK_RECOVERY);
      if deadline.None? || now > deadline.value {
        return Some(HookRecoveryExpired);
      }
      if now < snapshot.deletedAt.value {
        return Some(TimestampOutOfOrder("restored_at", "deleted_at"));
      }
      snapshot := snapshot.(status := Active, disabledAt := None, deletedAt := None);
      return None;
    }

    method RotateEndpoint(replacement: string, at: Instant) returns (retired: Result<string, TransitionError>)
      modifies this
      ensures snapshot == After(old(snapshot), Transition.RotateEndpoint(replacement, at))
      ensures var refusal := Refusal(old(snapshot), Transition.RotateEndpoint(replacement, at));
              retired == if refusal.Some? then Err(refusal.value) else Ok(old(snapshot.endpointKey))
    {
      if snapshot.status == Deleted {
        return Err(HookAlreadyDeleted);
      }
      if at < snapshot.createdAt {
        return Err(TimestampOutOfOrder("endpoint_rotated_at", "created_at"));
      }
      retired := Ok(snapshot.endpointKey);
      snapshot := snapshot.(endpointKey := replacement, endpointRotatedAt := Some(at));
    }

    method RotateSecret(secret: string) returns (error: Option<TransitionError>)
      modifies this
      ensures error == Refusal(old(snapshot), Transition.RotateSecret(secret))
      ensures snapshot == After(old(snapshot), Transition.RotateSecret(secret))
    {
      if snapshot.status == Deleted {
        return Some(HookAlreadyDeleted);
      }
      snapshot := snapshot.(signing := snapshot.signing.(secret := Some(secret)));
      return None;
    }

    method Update(update: Update) returns (error: Option<TransitionError>)
      modifies this
      ensures error == Refusal(old(snapshot), Change(update))
      ensures snapshot == After(old(snapshot), Change(update))
    {
      if snapshot.status == Deleted {
        return Some(HookAlreadyDeleted);
      }
      if update.name.Some? {
        snapshot := snapshot.(name := update.name.value);
      }
      if update.description.Some? {
        snapshot := snapshot.(description := update.description.value);
      }
      if update.timeZone.Some? {
        snapshot := snapshot.(timeZone := update.timeZone.value);
      }
      if update.signing.Some? {
        snapshot := snapshot.(signing := update.signing.value);
      }
      return None;
    }

    method RecordReceived(at: Instant)
      modifies this
      ensures snapshot == After(old(snapshot), Transition.RecordReceived(at))
    {
      snapshot := snapshot.(lastReceivedAt := Some(
        if snapshot.lastReceivedAt.Some? then Max(snapshot.lastReceivedAt.value, at) else at));
    }

    method RecordBlocked(at: Instant)
      modifies this
      ensures snapshot == After(old(snapshot), Transition.RecordBlocked(at))
    {
      snapshot := snapshot.(lastBlockedAt := Some(
        if snapshot.lastBlockedAt.Some? then Max(snapshot.lastBlockedAt.value, at) else at));
    }
  }

  // ---------------------------------------------------------------------------
  // Every run of transitions, refused ones included.
  // ---------------------------------------------------------------------------

  function Run(n: NewHook, ts: seq<Transition>): Snapshot
    decreases |ts|
  {
    if ts == [] then Created(n) else After(Run(n, ts[..|ts| - 1]), ts[|ts| - 1])
  }

  /** `at` is the latest of the instants recorded, and `None` stands for no record. */
  ghost predicate IsLatest(at: Option<Instant>, recorded: set<Instant>) {
    if at.None? then recorded == {} else at.value in recorded && forall r :: r in recorded ==> r <= at.value
  }

  ghost function ReceivedAt(ts: seq<Transition>): set<Instant> {
    set t | t in ts && t.RecordReceived? :: t.at
  }

  ghost function BlockedAt(ts: seq<Transition>): set<Instant> {
    set t | t in ts && t.RecordBlocked? :: t.at
  }

  lemma StepKeepsConsistency(s: Snapshot, t: Transition)
    requires Rehydrate(s) == Ok(s)
    ensures Rehydrate(After(s, t)) == Ok(After(s, t))
    ensures After(s, t).id == s.id && After(s, t).createdAt == s.createdAt && After(s, t).createdBy == s.createdBy
  {
  }

  /** Whatever happens to a hook, it can be read back, and it stays the hook that was created. */
  lemma {:induction false} EveryRunIsConsistent(n: NewHook, ts: seq<Transition>)
    ensures Rehydrate(Run(n, ts)) == Ok(Run(n, ts))
    ensures Run(n, ts).id == n.id && Run(n, ts).createdAt == n.createdAt && Run(n, ts).createdBy == n.createdBy
    decreases |ts|
  {
    if ts != [] {
      EveryRunIsConsistent(n, ts[..|ts| - 1]);
      StepKeepsConsistency(Run(n, ts[..|ts| - 1]), ts[|ts| - 1]);
    }
  }

  lemma LatestOf(existing: Option<Instant>, recorded: set<Instant>, at: Instant)
    requires IsLatest(existing, recorded)
    ensures IsLatest(Some(Latest(existing, at)), recorded + {at})
  {
  }

  lemma OneMoreRecord(ts: seq<Transition>)
    requires ts != []
    ensures var before, t := ts[..|ts| - 1], ts[|ts| - 1];
            && ReceivedAt(ts) == ReceivedAt(before) + (if t.RecordReceived? then {t.at} else {})
            && BlockedAt(ts) == BlockedAt(before) + (if t.RecordBlocked? then {t.at} else {})
  {
    var before, t := ts[..|ts| - 1], ts[|ts| - 1];
    assert forall u :: u in ts <==> u in before || u == t;
  }

  /** The last-received and last-blocked times are the latest recorded, in any order of arrival. */
  lemma {:induction false} LastTimesAreTheLatest(n: NewHook, ts: seq<Transition>)
    ensures IsLatest(Run(n, ts).lastReceivedAt, ReceivedAt(ts))
    ensures IsLatest(Run(n, ts).lastBlockedAt, BlockedAt(ts))
    decreases |ts|
  {
    if ts != [] {
      var before, t := ts[..|ts| - 1], ts[|ts| - 1];
      LastTimesAreTheLatest(n, before);
      OneMoreRecord(ts);
      if t.RecordReceived? { LatestOf(Run(n, before).lastReceivedAt, ReceivedAt(before), t.at); }
      if t.RecordBlocked? { LatestOf(Run(n, before).lastBlockedAt, BlockedAt(before), t.at); }
    }
  }

  // ---------------------------------------------------------------------------
  // Transitions that undo each other, and transitions that do nothing.
  // ---------------------------------------------------------------------------

  /** Disabling a hook that receives, and enabling it no earlier, leaves no trace. */
  lemma {:induction false} EnableUndoesDisable(n: NewHook, ts: seq<Transition>, disabledAt: Instant, enabledAt: Instant)
    requires var s := Run(n, ts); s.status == Active && n.createdAt <= disabledAt <= enabledAt
    ensures var s := Run(n, ts); After(After(s, Disable(disabledAt)), Enable(enabledAt)) == s
    ensures var s := Run(n, ts);
            Refusal(s, Disable(disabledAt)).None? && Refusal(After(s, Disable(disabledAt)), Enable(enabledAt)).None?
  {
    EveryRunIsConsistent(n, ts);
  }

  /** The transition is accepted at its place in the run. */
  predicate AcceptedAt(n: NewHook, ts: seq<Transition>, i: nat)
    requires i < |ts|
  {
    Refusal(Run(n, ts[..i]), ts[i]).None?
  }

  lemma AcceptedInPrefix(n: NewHook, ts: seq<Transition>, i: nat)
    requires i < |ts| - 1
    ensures ts[..|ts| - 1][i] == ts[i] && AcceptedAt(n, ts[..|ts| - 1], i) == AcceptedAt(n, ts, i)
  {
    assert ts[..|ts| - 1][..i] == ts[..i];
  }

  /** No enabling, deletion or restore was accepted from step `k` on. */
  ghost predicate OnlyDisabledSince(n: NewHook, ts: seq<Transition>, k: nat) {
    forall i :: k <= i < |ts| && (ts[i].Enable? || ts[i].Delete? || ts[i].Restore?) ==> !AcceptedAt(n, ts, i)
  }

  /** However often it is disabled again, a disabled hook keeps the instant at which it first was. */
  lemma {:induction false} DisabledSinceTheFirstTime(n: NewHook, ts: seq<Transition>, k: nat)
    requires k <= |ts| && Run(n, ts[..k]).status == Disabled && OnlyDisabledSince(n, ts, k)
    ensures Run(n, ts).status == Disabled && Run(n, ts).disabledAt == Run(n, ts[..k]).disabledAt
    decreases |ts|
  {
    if k == |ts| {
      assert ts[..k] == ts;
    } else {
      var before := ts[..|ts| - 1];
      assert before[..k] == ts[..k];
      forall i | k <= i < |before| && (before[i].Enable? || before[i].Delete? || before[i].Restore?)
        ensures !AcceptedAt(n, before, i)
      {
        AcceptedInPrefix(n, ts, i);
      }
      DisabledSinceTheFirstTime(n, before, k);
      assert AcceptedAt(n, ts, |ts| - 1) <==> Refusal(Run(n, before), ts[|ts| - 1]).None?;
    }
  }

  // ---------------------------------------------------------------------------
  // Each field is the work of the last accepted transition that sets it.
  // ---------------------------------------------------------------------------

  type Kind = Transition -> bool

  /** The place of the last accepted transition of the kind, if one was accepted. */
  function LastAccepted(n: NewHook, ts: seq<Transition>, kind: Kind): (last: Option<nat>)
    ensures last.Some? ==> last.value < |ts| && kind(ts[last.value])
    decreases |ts|
  {
    if ts == [] then None
    else if kind(ts[|ts| - 1]) && AcceptedAt(n, ts, |ts| - 1) then Some(|ts| - 1)
    else LastAccepted(n, ts[..|ts| - 1], kind)
  }

  /** Of this kind it was accepted, and no later one was. */
  ghost predicate IsLastAccepted(n: NewHook, ts: seq<Transition>, kind: Kind, last: Option<nat>) {
    && (last.Some? ==> last.value < |ts| && kind(ts[last.value]) && AcceptedAt(n, ts, last.value))
    && forall i :: (if last.Some? then last.value + 1 else 0) <= i < |ts| && kind(ts[i]) ==> !AcceptedAt(n, ts, i)
  }

  lemma {:induction false} LastAcceptedIsTheLast(n: NewHook, ts: seq<Transition>, kind: Kind)
    ensures IsLastAccepted(n, ts, kind, LastAccepted(n, ts, kind))
    decreases |ts|
  {
    if ts != [] {
      var before, last := ts[..|ts| - 1], LastAccepted(n, ts, kind);
      LastAcceptedIsTheLast(n, before, kind);
      forall i | (if last.Some? then last.value + 1 else 0) <= i < |ts| && kind(ts[i]) ensures !AcceptedAt(n, ts, i) {
        if i < |before| { AcceptedInPrefix(n, ts, i); }
      }
      if last.Some? && last.value < |before| { AcceptedInPrefix(n, ts, last.value); }
    }
  }

  lemma LastAcceptedStep(n: NewHook, ts: seq<Transition>, kind: Kind)
    requires ts != []
    ensures var before, t := ts[..|ts| - 1], ts[|ts| - 1];
            && LastAccepted(n, ts, kind) ==
               (if kind(t) && Refusal(Run(n, before), t).None? then Some(|before|) else LastAccepted(n, before, kind))
            && Run(n, ts) == After(Run(n, before), t)
            && forall i :: 0 <= i < |before| ==> ts[i] == before[i]
  {
  }

  function Rotations(): Kind { (t: Transition) => t.RotateEndpoint? }

  /** A hook's key, and when it was rotated, are those of the last accepted rotation; else it was never rotated. */
  lemma {:induction false} KeysChangeByRotation(n: NewHook, ts: seq<Transition>)
    ensures var s, last := Run(n, ts), LastAccepted(n, ts, Rotations());
            && IsLastAccepted(n, ts, Rotations(), last)
            && s.endpointKey == (if last.Some? then ts[last.value].key else n.endpointKey)
            && s.endpointRotatedAt == if last.Some? then Some(ts[last.value].at) else None
    decreases |ts|
  {
    LastAcceptedIsTheLast(n, ts, Rotations());
    if ts != [] {
      KeysChangeByRotation(n, ts[..|ts| - 1]);
      LastAcceptedStep(n, ts, Rotations());
    }
  }

  function LifeChanges(): Kind { (t: Transition) => t.Disable? || t.Enable? || t.Delete? || t.Restore? }

  lemma LifeChangeStep(s: Snapshot, t: Transition)
    requires Rehydrate(s) == Ok(s)
    ensures LifeChanges()(t) && Refusal(s, t).None? ==>
              && (After(s, t).status == Disabled <==> t.Disable?) && (After(s, t).status == Deleted <==> t.Delete?)
              && After(s, t).deletedAt == if t.Delete? then Some(t.at) else None
    ensures !(LifeChanges()(t) && Refusal(s, t).None?) ==>
              After(s, t).status == s.status && After(s, t).deletedAt == s.deletedAt
  {
  }

  ghost predicate LastChangeShows(s: Snapshot, last: Option<Transition>) {
    && (s.status == Disabled <==> last.Some? && last.value.Disable?)
    && (s.status == Deleted <==> last.Some? && last.value.Delete?)
    && s.deletedAt == if last.Some? && last.value.Delete? then Some(last.value.at) else None
  }

  function Picked(ts: seq<Transition>, i: Option<nat>): Option<Transition>
    requires i.Some? ==> i.value < |ts|
  {
    if i.Some? then Some(ts[i.value]) else None
  }

  /** The last accepted disabling, enabling, deletion or restore decides a hook's status, and when it was deleted. */
  lemma {:induction false} StatusIsTheLastChange(n: NewHook, ts: seq<Transition>)
    ensures var s, last := Run(n, ts), LastAccepted(n, ts, LifeChanges());
            && IsLastAccepted(n, ts, LifeChanges(), last)
            && LastChangeShows(s, Picked(ts, last))
    decreases |ts|
  {
    LastAcceptedIsTheLast(n, ts, LifeChanges());
    if ts != [] {
      var before := ts[..|ts| - 1];
      EveryRunIsConsistent(n, before);
      StatusIsTheLastChange(n, before);
      LifeChangeStep(Run(n, before), ts[|ts| - 1]);
      LastAcceptedStep(n, ts, LifeChanges());
    }
  }

  /** A hook is disabled since the first disabling accepted while it was active, whatever disabling followed. */
  lemma DisabledSinceTheFirstDisabling(n: NewHook, ts: seq<Transition>, i: nat)
    requires i < |ts| && ts[i].Disable? && AcceptedAt(n, ts, i) && OnlyDisabledSince(n, ts, i + 1)
    requires Run(n, ts[..i]).status == Active
    ensures Run(n, ts).status == Disabled && Run(n, ts).disabledAt == Some(ts[i].at)
  {
    assert ts[..i + 1][..i] == ts[..i];
    assert Run(n, ts[..i + 1]) == After(Run(n, ts[..i]), ts[i]);
    DisabledSinceTheFirstTime(n, ts, i + 1);
  }

  function Renamings(): Kind { (t: Transition) => t.Change? && t.update.name.Some? }

  function Redescriptions(): Kind { (t: Transition) => t.Change? && t.update.description.Some? }

  function Relocations(): Kind { (t: Transition) => t.Change? && t.update.timeZone.Some? }

  function Resignings(): Kind { (t: Transition) => t.Change? && t.update.signing.Some? }

  function NewSecrets(): Kind { (t: Transition) => t.RotateSecret? || (t.Change? && t.update.signing.Some?) }

  function SecretOf(t: Transition): Option<string>
    requires NewSecrets()(t)
  {
    if t.RotateSecret? then Some(t.secret) else t.update.signing.value.secret
  }

  lemma {:induction false} NamesAreTheLast(n: NewHook, ts: seq<Transition>)
    ensures var last := LastAccepted(n, ts, Renamings());
            && IsLastAccepted(n, ts, Renamings(), last)
            && Run(n, ts).name == if last.Some? then ts[last.value].update.name.value else n.name
    decreases |ts|
  {
    LastAcceptedIsTheLast(n, ts, Renamings());
    if ts != [] {
      NamesAreTheLast(n, ts[..|ts| - 1]);
      LastAcceptedStep(n, ts, Renamings());
    }
  }

  lemma {:induction false} DescriptionsAreTheLast(n: NewHook, ts: seq<Transition>)
    ensures var last := LastAccepted(n, ts, Redescriptions());
            && IsLastAccepted(n, ts, Redescriptions(), last)
            && Run(n, ts).description == if last.Some? then ts[last.value].update.description.value else n.description
    decreases |ts|
  {
    LastAcceptedIsTheLast(n, ts, Redescriptions());
    if ts != [] {
      DescriptionsAreTheLast(n, ts[..|ts| - 1]);
      LastAcceptedStep(n, ts, Redescriptions());
    }
  }

  lemma {:induction false} TimeZonesAreTheLast(n: NewHook, ts: seq<Transition>)
    ensures var last := LastAccepted(n, ts, Relocations());
            && IsLastAccepted(n, ts, Relocations(), last)
            && Run(n, ts).timeZone == if last.Some? then ts[last.value].update.timeZone.value else n.timeZone
    decreases |ts|
  {
    LastAcceptedIsTheLast(n, ts, Relocations());
    if ts != [] {
      TimeZonesAreTheLast(n, ts[..|ts| - 1]);
      LastAcceptedStep(n, ts, Relocations());
    }
  }

  /** The policy is that of the last accepted change of signing; the secret that of such a change or a rotation. */
  lemma {:induction false} SigningIsTheLast(n: NewHook, ts: seq<Transition>)
    ensures var s, policy, secret :=
              Run(n, ts).signing, LastAccepted(n, ts, Resignings()), LastAccepted(n, ts, NewSecrets());
            && IsLastAccepted(n, ts, Resignings(), policy) && IsLastAccepted(n, ts, NewSecrets(), secret)
            && s.policy == (if policy.Some? then ts[policy.value].update.signing.value.policy else n.signing.policy)
            && s.secret == if secret.Some? then SecretOf(ts[secret.value]) else n.signing.secret
    decreases |ts|
  {
    LastAcceptedIsTheLast(n, ts, Resignings());
    LastAcceptedIsTheLast(n, ts, NewSecrets());
    if ts != [] {
      SigningIsTheLast(n, ts[..|ts| - 1]);
      LastAcceptedStep(n, ts, Resignings());
      LastAcceptedStep(n, ts, NewSecrets());
    }
  }

  /** Some deletion was accepted, and nothing changed the hook's life since. */
  predicate DeletedBy(n: NewHook, ts: seq<Transition>) {
    LastAccepted(n, ts, LifeChanges()).Some? && ts[LastAccepted(n, ts, LifeChanges()).value].Delete?
  }

  /** The instant before which the transition may not happen: the hook's creation, or the disabling it ends. */
  function Earliest(n: NewHook, ts: seq<Transition>, t: Transition): Option<Instant> {
    var since := Run(n, ts).disabledAt;
    match t
    case Disable(_) => if since.Some? then None else Some(n.createdAt)
    case Enable(_) => since
    case Delete(_) => if since.Some? then since else Some(n.createdAt)
    case RotateEndpoint(_, _) => Some(n.createdAt)
    case _ => None
  }

  function InstantOf(t: Transition): Instant {
    if t.RotateSecret? || t.Change? then 0 else t.at
  }

  /**
   * Apart from restores, a transition is accepted exactly when it records a request, or no deletion is
   * in force and it comes no earlier than the hook's creation and the disabling it ends.
   */
  lemma AcceptedExactly(n: NewHook, ts: seq<Transition>, t: Transition)
    requires !t.Restore?
    ensures var refusal, earliest := Refusal(Run(n, ts), t), Earliest(n, ts, t);
            && (refusal.None? <==> t.RecordReceived? || t.RecordBlocked?
                                   || (!DeletedBy(n, ts) && (earliest.Some? ==> earliest.value <= InstantOf(t))))
            && (refusal == Some(HookAlreadyDeleted) <==> DeletedBy(n, ts) && !t.RecordReceived? && !t.RecordBlocked?)
            && (refusal.Some? && refusal.value != HookAlreadyDeleted ==>
                  refusal.value.TimestampOutOfOrder?
                  && refusal.value.predecessor ==
                     if t.Enable? || (Run(n, ts).disabledAt.Some? && n.createdAt <= InstantOf(t))
                     then "disabled_at" else "created_at")
  {
    EveryRunIsConsistent(n, ts);
    StatusIsTheLastChange(n, ts);
  }

  // ---------------------------------------------------------------------------
  // The checks on a persisted hook accept exactly what some run leaves.
  // ---------------------------------------------------------------------------

  lemma RunSnoc(n: NewHook, ts: seq<Transition>, t: Transition)
    ensures Run(n, ts + [t]) == After(Run(n, ts), t)
  {
    assert (ts + [t])[..|ts|] == ts;
  }

  /** One transition more where there is something to record. */
  lemma RunThen(n: NewHook, ts: seq<Transition>, more: Option<Transition>) returns (all: seq<Transition>)
    ensures Run(n, all) == if more.Some? then After(Run(n, ts), more.value) else Run(n, ts)
  {
    all := ts;
    if more.Some? {
      RunSnoc(n, ts, more.value);
      all := ts + [more.value];
    }
  }

  lemma ActiveHooksAreReachable(s: Snapshot) returns (n: NewHook, ts: seq<Transition>)
    requires Rehydrate(s).Ok? && s.status == Active
    ensures Run(n, ts) == s
  {
    n := NewHook(s.id, s.name, s.description, s.endpointKey, s.signing, s.timeZone, s.createdBy, s.createdAt);
    ts := RunThen(n, [], if s.lastReceivedAt.Some? then Some(RecordReceived(s.lastReceivedAt.value)) else None);
    ts := RunThen(n, ts, if s.lastBlockedAt.Some? then Some(RecordBlocked(s.lastBlockedAt.value)) else None);
    ts := RunThen(n, ts, if s.endpointRotatedAt.None? then None
                         else Some(RotateEndpoint(s.endpointKey, s.endpointRotatedAt.value)));
  }

  /** Every hook that can be read back is what some creation and some transitions leave; see EveryRunIsConsistent. */
  lemma ReadableHooksAreReachable(s: Snapshot) returns (n: NewHook, ts: seq<Transition>)
    requires Rehydrate(s).Ok?
    ensures Run(n, ts) == s
  {
    n, ts := ActiveHooksAreReachable(s.(status := Active, disabledAt := None, deletedAt := None));
    ts := RunThen(n, ts, if s.disabledAt.Some? then Some(Disable(s.disabledAt.value)) else None);
    ts := RunThen(n, ts, if s.deletedAt.Some? then Some(Delete(s.deletedAt.value)) else None);
  }

  // ---------------------------------------------------------------------------
  // Recovery.
  // ---------------------------------------------------------------------------

  /** The application's own deadline check before it asks the store to restore. */
  predicate RecoveryExpired(s: Snapshot, now: Instant) {
    s.deletedAt.Some? &&
      var deadline := CheckedAdd(s.deletedAt.value, HOOK_RECOVERY);
      deadline.None? || now > deadline.value
  }

  /** The maintenance purge of hooks deleted long ago. */
  predicate Purged(s: Snapshot, now: Instant) {
    s.deletedAt.Some? && s.deletedAt.value < now - HOOK_RECOVERY
  }

  /** A hook can be restored exactly when it is deleted, since not after now, and still retained. */
  lemma {:induction false} RestorableExactlyWhileRetained(n: NewHook, ts: seq<Transition>, now: Instant)
    ensures var s := Run(n, ts);
            Refusal(s, Restore(now)).None? <==>
              s.deletedAt.Some? && s.deletedAt.value <= now && IsRetainedAt(s, now)
  {
    EveryRunIsConsistent(n, ts);
  }

  /** The three deadlines agree: the application, the aggregate and (short of the last instant) the purge. */
  lemma DeadlinesAgree(s: Snapshot, now: Instant)
    ensures RecoveryExpired(s, now) <==> !IsRetainedAt(s, now)
    ensures s.status == Deleted && s.deletedAt.Some? ==>
              (RecoveryExpired(s, now) <==> Refusal(s, Restore(now)) == Some(HookRecoveryExpired))
    ensures (Purged(s, now) <==> !IsRetainedAt(s, now)) <==>
              s.deletedAt.None? || FIRST_INSTANT <= s.deletedAt.value + HOOK_RECOVERY <= LAST_INSTANT
              || s.deletedAt.value + HOOK_RECOVERY < now
  {
  }

  /** A restore in time undoes a deletion, except that a disabled hook comes back enabled. */
  lemma RestoreUndoesDelete(s: Snapshot, deletedAt: Instant, now: Instant)
    requires Rehydrate(s) == Ok(s) && Refusal(s, Delete(deletedAt)).None?
    requires deletedAt <= now <= deletedAt + HOOK_RECOVERY <= LAST_INSTANT && FIRST_INSTANT <= deletedAt
    ensures After(After(s, Delete(deletedAt)), Restore(now)) == s.(status := Active, disabledAt := None)
  {
  }

  ghost predicate NotRestoredSince(n: NewHook, ts: seq<Transition>, k: nat) {
    forall i :: k <= i < |ts| && ts[i].Restore? ==> !AcceptedAt(n, ts, i)
  }

  lemma DeletedHooksChangeOnlyTimes(s: Snapshot, t: Transition)
    requires s.status == Deleted && (t.Restore? ==> Refusal(s, t).Some?)
    ensures After(s, t).(lastReceivedAt := s.lastReceivedAt, lastBlockedAt := s.lastBlockedAt) == s
  {
  }

  /** From its deletion until a restore is accepted, nothing changes a hook but the times of its requests. */
  lemma {:induction false} DeletedHooksAreFrozen(n: NewHook, ts: seq<Transition>, k: nat)
    requires k <= |ts| && Run(n, ts[..k]).status == Deleted && NotRestoredSince(n, ts, k)
    ensures var was, now := Run(n, ts[..k]), Run(n, ts);
            now.(lastReceivedAt := was.lastReceivedAt, lastBlockedAt := was.lastBlockedAt) == was
    decreases |ts|
  {
    if k == |ts| {
      assert ts[..k] == ts;
    } else {
      var before := ts[..|ts| - 1];
      assert before[..k] == ts[..k];
      forall i | k <= i < |before| && before[i].Restore? ensures !AcceptedAt(n, before, i) {
        AcceptedInPrefix(n, ts, i);
      }
      DeletedHooksAreFrozen(n, before, k);
      assert AcceptedAt(n, ts, |ts| - 1) <==> Refusal(Run(n, before), ts[|ts| - 1]).None?;
      DeletedHooksChangeOnlyTimes(Run(n, before), ts[|ts| - 1]);
    }
  }

  /** A deleted hook stays deleted exactly while no restore is accepted. */
  lemma {:induction false} DeletedExactlyUntilRestored(n: NewHook, ts: seq<Transition>, k: nat)
    requires k <= |ts| && Run(n, ts[..k]).status == Deleted
    ensures NotRestoredSince(n, ts, k) <==> forall j :: k <= j <= |ts| ==> Run(n, ts[..j]).status == Deleted
  {
    if NotRestoredSince(n, ts, k) {
      forall j | k <= j <= |ts| ensures Run(n, ts[..j]).status == Deleted {
        forall i | k <= i < j && ts[..j][i].Restore? ensures !AcceptedAt(n, ts[..j], i) {
          assert ts[..j][..i] == ts[..i] && ts[..j][i] == ts[i];
          assert !AcceptedAt(n, ts, i);
        }
        assert ts[..j][..k] == ts[..k];
        DeletedHooksAreFrozen(n, ts[..j], k);
      }
    } else {
      var i :| k <= i < |ts| && ts[i].Restore? && AcceptedAt(n, ts, i);
      assert ts[..i + 1][..i] == ts[..i];
      assert Run(n, ts[..i + 1]) == After(Run(n, ts[..i]), ts[i]);
      assert Run(n, ts[..i + 1]).status == Active;
    }
  }
}
