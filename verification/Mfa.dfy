/** Multi-factor authentication: enrolment, verification, and the rotation of a session to a higher
assurance, over every run and every clock. */
module Mfa {
  import opened Prelude
  import opened Governance
  import opened Totp

  type SessionId = nat

  datatype Method = Password | ApiKey | Certificate | Passkey | Oidc | Saml | External

  datatype SessionStatus = SessionActive | SessionRevoked | SessionExpired

  datatype Context = Context(
    how: Method,
    level: AssuranceLevel,
    mfa: bool,
    authenticatedAt: Time,
    provider: Option<string>,
    device: Option<string>,
    zone: Option<string>,
    mfaVerifiedAt: Option<Time>,
    mfaFactor: Option<FactorId>)
  {
    predicate WellFormed() {
      && (mfaVerifiedAt.Some? ==> mfaVerifiedAt.value >= authenticatedAt)
      && (mfaFactor.Some? ==> mfa && mfaVerifiedAt.Some?)
    }
  }

  datatype Session = Session(
    identity: IdentityId,
    status: SessionStatus,
    context: Context,
    version: nat,
    createdAt: Time,
    updatedAt: Time,
    expiresAt: Time,
    lastActivityAt: Time,
    revokedAt: Option<Time>)
  {
    /** What the constructor demands, of a new session and of every stored copy. */
    predicate WellFormed() {
      && context.WellFormed() && expiresAt > createdAt && context.authenticatedAt <= createdAt
      && (context.mfaVerifiedAt.Some? ==> context.mfaVerifiedAt.value <= updatedAt)
      && createdAt <= lastActivityAt <= updatedAt
    }

    predicate IsActive(at: Time) { status.SessionActive? && at < expiresAt }
  }

  function Opened(identity: IdentityId, context: Context, now: Time, expiresAt: Time): Session {
    Session(identity, SessionActive, context, 0, now, now, expiresAt, now, None)
  }

  function Touched(s: Session, at: Time): Session {
    s.(version := s.version + 1, updatedAt := at)
  }

  datatype MfaError =
    | FactorNotFound | SessionNotFound | IdentityInactive | OwnershipMismatch | VerificationFailed | SecretUnavailable
    | InvalidSession | InvalidFactor | InvalidSessionTransition | InvalidContext | FactorRefused(error: FactorError)

  function Activity(s: Session, at: Time): Result<Session, MfaError> {
    if !s.IsActive(at) then Err(InvalidSessionTransition)
    else if at < s.lastActivityAt then Err(InvalidSession)
    else Ok(Touched(s.(lastActivityAt := at), at))
  }

  function RevokedSession(s: Session, at: Time): Result<Session, MfaError> {
    if !s.status.SessionActive? then Err(InvalidSessionTransition)
    else Ok(Touched(s.(status := SessionRevoked, revokedAt := Some(at)), at))
  }

  function ExpiredSession(s: Session, at: Time): Result<Session, MfaError> {
    if !s.status.SessionActive? then Err(InvalidSessionTransition)
    else if at < s.expiresAt then Err(InvalidSession)
    else Ok(Touched(s.(status := SessionExpired), at))
  }

  function Elevated(c: Context, level: AssuranceLevel, factor: FactorId, at: Time): Context {
    c.(level := if Rank(c.level) >= Rank(level) then c.level
       else level, mfa := true, mfaVerifiedAt := Some(at), mfaFactor := Some(factor))
  }

  /** Stepping a session up in place. */
  function SteppedUp(s: Session, level: AssuranceLevel, factor: FactorId, at: Time): Result<Session, MfaError> {
    if !s.IsActive(at) then Err(InvalidSessionTransition)
    else if at < s.lastActivityAt then Err(InvalidSession)
    else if !Elevated(s.context, level, factor, at).WellFormed() then Err(InvalidContext)
    else Ok(Touched(s.(context := Elevated(s.context, level, factor, at), lastActivityAt := at), at))
  }

  /** A loaded copy of a session. */
  class SessionAggregate {
    const created: Session
    var status: SessionStatus
    var context: Context
    var version: nat
    var updatedAt: Time
    var lastActivityAt: Time
    var revokedAt: Option<Time>

    constructor Load(s: Session)
      ensures State() == s
    {
      created, status, context, version := s, s.status, s.context, s.version;
      updatedAt, lastActivityAt, revokedAt := s.updatedAt, s.lastActivityAt, s.revokedAt;
    }

    function State(): Session
      reads this
    {
      Session(created.identity, status, context, version, created.createdAt, updatedAt, created.expiresAt,
              lastActivityAt, revokedAt)
    }

    ghost predicate Did(r: Result<Session, MfaError>, before: Session, error: Option<MfaError>)
      reads this
    {
      match r
      case Err(e) => error == Some(e) && State() == before
      case Ok(s) => error == None && State() == s
    }

    method Touch(at: Time) returns (error: Option<MfaError>)
      modifies this
      ensures Did(Activity(old(State()), at), old(State()), error)
    {
      if !(status.SessionActive? && at < created.expiresAt) { return Some(InvalidSessionTransition); }
      if at < lastActivityAt { return Some(InvalidSession); }
      lastActivityAt := at;
      Bump(at);
      error := None;
    }

    method StepUp(level: AssuranceLevel, factor: FactorId, at: Time) returns (error: Option<MfaError>)
      modifies this
      ensures Did(SteppedUp(old(State()), level, factor, at), old(State()), error)
    {
      if !(status.SessionActive? && at < created.expiresAt) { return Some(InvalidSessionTransition); }
      if at < lastActivityAt { return Some(InvalidSession); }
      var elevated := Elevated(context, level, factor, at);
      if !elevated.WellFormed() { return Some(InvalidContext); }
      context := elevated;
      lastActivityAt := at;
      Bump(at);
      error := None;
    }

    method Revoke(at: Time) returns (error: Option<MfaError>)
      modifies this
      ensures Did(RevokedSession(old(State()), at), old(State()), error)
    {
      if !status.SessionActive? { return Some(InvalidSessionTransition); }
      status := SessionRevoked;
      revokedAt := Some(at);
      Bump(at);
      error := None;
    }

    method Expire(at: Time) returns (error: Option<MfaError>)
      modifies this
      ensures Did(ExpiredSession(old(State()), at), old(State()), error)
    {
      if !status.SessionActive? { return Some(InvalidSessionTransition); }
      if at < created.expiresAt { return Some(InvalidSession); }
      status := SessionExpired;
      Bump(at);
      error := None;
    }

    method Bump(at: Time)
      modifies this`version, this`updatedAt
      ensures version == old(version) + 1 && updatedAt == at
    {
      version := version + 1;
      updatedAt := at;
    }
  }

  /** Under a clock that does not go back, whatever a session does leaves one that can be stored. */
  lemma TransitionsKeepForm(s: Session, at: Time, level: AssuranceLevel, factor: FactorId)
    requires s.WellFormed() && s.updatedAt <= at
    ensures Activity(s, at).Ok? ==> Activity(s, at).value.WellFormed()
    ensures RevokedSession(s, at).Ok? ==> RevokedSession(s, at).value.WellFormed()
    ensures ExpiredSession(s, at).Ok? ==> ExpiredSession(s, at).value.WellFormed()
    ensures SteppedUp(s, level, factor, at).Ok? ==> SteppedUp(s, level, factor, at).value.WellFormed()
    ensures SteppedUp(s, level, factor, at).Ok? <==> s.IsActive(at)
  {
  }

  // ---------------------------------------------------------------- the service

  /** A counter recorded on a factor, and the base counter of the instant. */
  datatype Acceptance = Acceptance(factor: FactorId, base: int, counter: nat)

  /** The stores, and the history of recorded counters. */
  datatype State = State(factors: map<FactorId, Factor>, sessions: map<SessionId, Session>, secrets: Secrets,
                         accepted: seq<Acceptance>)

  datatype Env = Env(setting: Setting, codes: Codes)

  type Outcome = (Option<MfaError>, State)

  function CheckCode(env: Env, st: State, id: FactorId, code: string, now: Time): Result<nat, MfaError>
    requires env.setting.interval > 0 && id in st.factors
  {
    match Verification(env.setting, env.codes, st.secrets, id, code, now, st.factors[id].lastCounter)
    case Err(_) => Err(SecretUnavailable)
    case Ok(None) => Err(VerificationFailed)
    case Ok(Some(counter)) => Ok(counter)
  }

  /** Saving a factor that recorded a counter; a copy the constructor refuses is not stored. */
  function SaveCounter(env: Env, st: State, id: FactorId, f: Factor, counter: nat, now: Time): Outcome
    requires env.setting.interval > 0
  {
    if !f.WellFormed() then (Some(InvalidFactor), st)
    else (None,
          st.(factors := st.factors[id := f],
              accepted := st.accepted + [Acceptance(id, BaseCounter(env.setting, now), counter)]))
  }

  function Enroll(st: State, id: FactorId, identity: IdentityId, active: bool, secret: string, now: Time): Outcome {
    if !active then (Some(IdentityInactive), st)
    else (None, st.(factors := st.factors[id := NewFactor(identity, now)], secrets := st.secrets[id := secret]))
  }

  function Confirm(env: Env, st: State, id: FactorId, code: string, now: Time): Outcome
    requires env.setting.interval > 0
  {
    if id !in st.factors then (Some(FactorNotFound), st)
    else if !st.factors[id].status.FactorPending? then (Some(VerificationFailed), st)
    else
      match CheckCode(env, st, id, code, now)
      case Err(e) => (Some(e), st)
      case Ok(counter) =>
        match Activated(st.factors[id], counter, now)
        case Err(e) => (Some(FactorRefused(e)), st)
        case Ok(f) => SaveCounter(env, st, id, f, counter, now)
  }

  function Verify(env: Env, st: State, id: FactorId, code: string, now: Time): Outcome
    requires env.setting.interval > 0
  {
    if id !in st.factors then (Some(FactorNotFound), st)
    else if !st.factors[id].status.FactorActive? then (Some(VerificationFailed), st)
    else
      match CheckCode(env, st, id, code, now)
      case Err(e) => (Some(e), st)
      case Ok(counter) =>
        match Verified(st.factors[id], counter, now)
        case Err(e) => (Some(FactorRefused(e)), st)
        case Ok(f) => SaveCounter(env, st, id, f, counter, now)
  }

  function RevokeFactor(st: State, id: FactorId, now: Time): Outcome {
    if id !in st.factors then (Some(FactorNotFound), st)
    else
      match RevokedFactor(st.factors[id], now)
      case Err(e) => (Some(FactorRefused(e)), st)
      case Ok(f) =>
        if !f.WellFormed() then (Some(InvalidFactor), st)
        else (None, st.(factors := st.factors[id := f], secrets := map k | k in st.secrets && k != id :: st.secrets[k]))
  }

  /** The assurance after a second factor. */
  function LevelAfter(level: AssuranceLevel): AssuranceLevel {
    if level == AAL3 then AAL3 else AAL2
  }

  function ElevatedContext(c: Context, factor: FactorId, now: Time): Context {
    Context(c.how, LevelAfter(c.level), true, c.authenticatedAt, c.provider, c.device, c.zone, Some(now), Some(factor))
  }

  /** The old session is revoked and stored; a new one is opened with its expiry. */
  function Rotate(st: State, old': SessionId, new': SessionId, factor: FactorId, now: Time): Outcome
    requires old' in st.sessions
  {
    match RevokedSession(st.sessions[old'], now)
    case Err(e) => (Some(e), st)
    case Ok(revoked) =>
      if !revoked.WellFormed() then (Some(InvalidSession), st)
      else
        var st1 := st.(sessions := st.sessions[old' := revoked]);
        var context := ElevatedContext(st.sessions[old'].context, factor, now);
        if !context.WellFormed() then (Some(InvalidContext), st1)
        else
          var elevated := Opened(st.sessions[old'].identity, context, now, st.sessions[old'].expiresAt);
          if !elevated.WellFormed() then (Some(InvalidSession), st1)
          else (None, st1.(sessions := st1.sessions[new' := elevated]))
  }

  function StepUpProblem(st: State, session: SessionId, id: FactorId, now: Time): Option<MfaError> {
    if session !in st.sessions then Some(SessionNotFound)
    else if id !in st.factors then Some(FactorNotFound)
    else if st.sessions[session].identity != st.factors[id].identity then Some(OwnershipMismatch)
    else if !st.factors[id].status.FactorActive? then Some(VerificationFailed)
    else if !st.sessions[session].IsActive(now) then Some(VerificationFailed)
    else None
  }

  function StepUp(env: Env, st: State, session: SessionId, new': SessionId, id: FactorId, code: string,
                  now: Time): Outcome
    requires env.setting.interval > 0
  {
    var problem := StepUpProblem(st, session, id, now);
    if problem.Some? then (problem, st)
    else
      var (error, st1) := Verify(env, st, id, code, now);
      if error.Some? then (error, st1) else Rotate(st1, session, new', id, now)
  }

  // ---------------------------------------------------------------- step-up

  ghost predicate AllWellFormed(st: State) {
    && (forall id :: id in st.factors ==> st.factors[id].WellFormed())
    && (forall id :: id in st.sessions ==> st.sessions[id].WellFormed())
  }

  /** The new session continues the old one: same owner, same expiry, same login, no less assurance. */
  ghost predicate Continues(old': Session, elevated: Session, factor: FactorId, now: Time) {
    && elevated.status.SessionActive? && elevated.WellFormed() && elevated.IsActive(now)
    && elevated.identity == old'.identity && elevated.expiresAt == old'.expiresAt
    && elevated.context.authenticatedAt == old'.context.authenticatedAt && elevated.context.how == old'.context.how
    && Rank(elevated.context.level) >= Rank(old'.context.level) && Rank(elevated.context.level) >= Rank(AAL2)
    && elevated.context.mfa && elevated.context.mfaFactor == Some(factor) && elevated.context.mfaVerifiedAt == Some(now)
  }

  /** The clock shows at least the last recorded activity of the session. */
  predicate NotBefore(s: Session, now: Time) {
    s.lastActivityAt <= now && (s.context.mfaVerifiedAt.Some? ==> s.context.mfaVerifiedAt.value <= now)
  }

  /** Rotation succeeds exactly when the clock is not behind the session, and otherwise does nothing. */
  lemma RotateExact(st: State, old': SessionId, new': SessionId, id: FactorId, now: Time)
    requires AllWellFormed(st) && old' in st.sessions && st.sessions[old'].IsActive(now) && new' !in st.sessions
    ensures var (error, st') := Rotate(st, old', new', id, now);
      && (error.None? <==> NotBefore(st.sessions[old'], now))
      && (error.Some? ==> st' == st)
      && st' == st.(sessions := st'.sessions)
      && (error.None? ==>
            && Continues(st.sessions[old'], st'.sessions[new'], id, now)
            && RevokedSession(st.sessions[old'], now).value.WellFormed()
            && st'.sessions
              == st.sessions[old' := RevokedSession(st.sessions[old'], now).value][new' := st'.sessions[new']])
  {
  }

  lemma VerifyKeepsForm(env: Env, st: State, id: FactorId, code: string, now: Time)
    requires env.setting.interval > 0 && AllWellFormed(st)
    ensures var (error, st') := Verify(env, st, id, code, now);
      && AllWellFormed(st') && st'.sessions == st.sessions && (error.Some? <==> st'.accepted == st.accepted)
      && (error.Some? ==> st' == st)
  {
  }

  /** Step-up, whatever the clock: a session is revoked only together with the one that replaces it; and
  once the code is recorded, step-up succeeds exactly when the clock is not behind the session. */
  lemma StepUpExact(env: Env, st: State, session: SessionId, new': SessionId, id: FactorId, code: string, now: Time)
    requires env.setting.interval > 0 && AllWellFormed(st) && new' !in st.sessions
    ensures var (error, st') := StepUp(env, st, session, new', id, code, now);
      && AllWellFormed(st')
      && (error.Some? ==> st'.sessions == st.sessions)
      && (error.None? ==>
            && session in st.sessions && st'.sessions.Keys == st.sessions.Keys + {new'}
            && st'.sessions[session] == RevokedSession(st.sessions[session], now).value
            && Continues(st.sessions[session], st'.sessions[new'], id, now)
            && forall k :: k in st.sessions && k != session ==> st'.sessions[k] == st.sessions[k])
      && (st'.accepted != st.accepted ==> (error.None? <==> NotBefore(st.sessions[session], now)))
      && (st'.accepted == st.accepted ==> st' == st)
  {
    VerifyKeepsForm(env, st, id, code, now);
    if StepUpProblem(st, session, id, now).None? && Verify(env, st, id, code, now).0.None? {
      RotateExact(Verify(env, st, id, code, now).1, session, new', id, now);
    }
  }

  /** Under a clock that does not go back, a step-up that fails changes nothing at all. */
  lemma StepUpAllOrNothing(env: Env, st: State, session: SessionId, new': SessionId, id: FactorId, code: string,
                           now: Time)
    requires env.setting.interval > 0 && AllWellFormed(st) && new' !in st.sessions
    requires session in st.sessions ==> st.sessions[session].updatedAt <= now
    ensures var (error, st') := StepUp(env, st, session, new', id, code, now); error.Some? ==> st' == st
  {
    StepUpExact(env, st, session, new', id, code, now);
  }

  // ---------------------------------------------------------------- whole runs

  datatype MfaStep =
    | EnrollStep(id: FactorId, identity: IdentityId, active: bool, secret: string, now: Time)
    | ConfirmStep(id: FactorId, code: string, now: Time)
    | VerifyStep(id: FactorId, code: string, now: Time)
    | StepUpStep(session: SessionId, next: SessionId, id: FactorId, code: string, now: Time)
    | RevokeStep(id: FactorId, now: Time)
    | SessionStep(session: SessionId, to: Session)

  /** Other services change sessions as they like. */
  function Perform(env: Env, st: State, step: MfaStep): State
    requires env.setting.interval > 0
  {
    match step
    case EnrollStep(id, identity, active, secret, now) => Enroll(st, id, identity, active, secret, now).1
    case ConfirmStep(id, code, now) => Confirm(env, st, id, code, now).1
    case VerifyStep(id, code, now) => Verify(env, st, id, code, now).1
    case StepUpStep(session, next, id, code, now) => StepUp(env, st, session, next, id, code, now).1
    case RevokeStep(id, now) => RevokeFactor(st, id, now).1
    case SessionStep(session, to) => st.(sessions := st.sessions[session := to])
  }

  function PerformAll(env: Env, st: State, steps: seq<MfaStep>): State
    requires env.setting.interval > 0
    decreases |steps|
  {
    if steps == [] then st else PerformAll(env, Perform(env, st, steps[0]), steps[1..])
  }

  /** An enrolment draws an identifier no factor has had. */
  ghost predicate NewFactorIds(env: Env, st: State, steps: seq<MfaStep>)
    requires env.setting.interval > 0
    decreases |steps|
  {
    steps == [] ||
    ((steps[0].EnrollStep? ==> steps[0].id !in st.factors) && NewFactorIds(env, Perform(env, st, steps[0]), steps[1..]))
  }

  /** The history climbs on every factor up to its last counter, inside the window of each instant. */
  ghost predicate SingleUse(env: Env, st: State) {
    && (forall i, j :: 0 <= i < j < |st.accepted| && st.accepted[i].factor == st.accepted[j].factor ==>
          st.accepted[i].counter < st.accepted[j].counter)
    && (forall a :: a in st.accepted ==>
          && a.factor in st.factors && st.factors[a.factor].lastCounter.Some?
          && a.counter <= st.factors[a.factor].lastCounter.value
          && a.base - env.setting.window <= a.counter <= a.base + env.setting.window)
  }

  lemma RecordKeepsSingleUse(env: Env, st: State, id: FactorId, f: Factor, counter: nat, now: Time)
    requires env.setting.interval > 0 && SingleUse(env, st) && id in st.factors
    requires st.factors[id].lastCounter.Some? ==> counter > st.factors[id].lastCounter.value
    requires f.lastCounter == Some(counter)
    requires BaseCounter(env.setting, now) - env.setting.window <= counter
      <= BaseCounter(env.setting, now) + env.setting.window
    ensures SingleUse(env, SaveCounter(env, st, id, f, counter, now).1)
  {
    var st' := SaveCounter(env, st, id, f, counter, now).1;
    forall i, j | 0 <= i < j < |st'.accepted| && st'.accepted[i].factor == st'.accepted[j].factor
      ensures st'.accepted[i].counter < st'.accepted[j].counter
    {
      if j == |st.accepted| { assert st.accepted[i] in st.accepted; }
    }
  }

  lemma VerifyKeepsSingleUse(env: Env, st: State, id: FactorId, code: string, now: Time)
    requires env.setting.interval > 0 && SingleUse(env, st)
    ensures SingleUse(env, Verify(env, st, id, code, now).1) && SingleUse(env, Confirm(env, st, id, code, now).1)
  {
    if id in st.factors && CheckCode(env, st, id, code, now).Ok? {
      var counter := CheckCode(env, st, id, code, now).value;
      if Verified(st.factors[id], counter, now).Ok? {
        RecordKeepsSingleUse(env, st, id, Verified(st.factors[id], counter, now).value, counter, now);
      }
      if Activated(st.factors[id], counter, now).Ok? {
        RecordKeepsSingleUse(env, st, id, Activated(st.factors[id], counter, now).value, counter, now);
      }
    }
  }

  lemma StepUpRecordsAsVerify(env: Env, st: State, session: SessionId, new': SessionId, id: FactorId, code: string,
                              now: Time)
    requires env.setting.interval > 0
    ensures var st' := StepUp(env, st, session, new', id, code, now).1;
      var verified := Verify(env, st, id, code, now).1;
      (st'.accepted == st.accepted && st'.factors == st.factors)
        || (st'.accepted == verified.accepted && st'.factors == verified.factors)
  {
  }

  lemma SingleUseFrame(env: Env, st: State, st': State)
    requires SingleUse(env, st) && st'.accepted == st.accepted
    requires forall id :: id in st.factors && st.factors[id].lastCounter.Some? ==>
      id in st'.factors && st'.factors[id].lastCounter == st.factors[id].lastCounter
    ensures SingleUse(env, st')
  {
  }

  lemma StepKeepsSingleUse(env: Env, st: State, step: MfaStep)
    requires env.setting.interval > 0 && SingleUse(env, st) && (step.EnrollStep? ==> step.id !in st.factors)
    ensures SingleUse(env, Perform(env, st, step))
  {
    match step
    case ConfirmStep(id, code, now) => VerifyKeepsSingleUse(env, st, id, code, now);
    case VerifyStep(id, code, now) => VerifyKeepsSingleUse(env, st, id, code, now);
    case StepUpStep(session, next, id, code, now) =>
      VerifyKeepsSingleUse(env, st, id, code, now);
      StepUpRecordsAsVerify(env, st, session, next, id, code, now);
    case EnrollStep(id, identity, active, secret, now) =>
      SingleUseFrame(env, st, Enroll(st, id, identity, active, secret, now).1);
    case RevokeStep(id, now) => SingleUseFrame(env, st, RevokeFactor(st, id, now).1);
    case SessionStep(_, _) =>
  }

  /** Over every run, whatever the clock does, no factor accepts a counter twice, or one below another
  it has accepted (section 5.2 of RFC 6238). */
  lemma {:induction false} CountersClimb(env: Env, st: State, steps: seq<MfaStep>)
    requires env.setting.interval > 0 && SingleUse(env, st) && NewFactorIds(env, st, steps)
    ensures SingleUse(env, PerformAll(env, st, steps))
    decreases |steps|
  {
    if steps != [] {
      StepKeepsSingleUse(env, st, steps[0]);
      CountersClimb(env, Perform(env, st, steps[0]), steps[1..]);
    }
  }

  /** The counters a factor accepted while the base counter was in the range. */
  function CountersWhile(accepted: seq<Acceptance>, id: FactorId, low: int, high: int): seq<nat> {
    if accepted == [] then []
    else
      (if accepted[0].factor == id && low <= accepted[0].base <= high then [accepted[0].counter] else [])
      + CountersWhile(accepted[1..], id, low, high)
  }

  lemma {:induction false} CountersWhileFrom(accepted: seq<Acceptance>, id: FactorId, low: int, high: int)
    ensures forall c :: c in CountersWhile(accepted, id, low, high) ==>
      exists a :: a in accepted && a.factor == id && low <= a.base <= high && a.counter == c
  {
    if accepted != [] {
      CountersWhileFrom(accepted[1..], id, low, high);
      forall c | c in CountersWhile(accepted, id, low, high)
        ensures exists a :: a in accepted && a.factor == id && low <= a.base <= high && a.counter == c
      {
        if c in CountersWhile(accepted[1..], id, low, high) {
          var a :| a in accepted[1..] && a.factor == id && low <= a.base <= high && a.counter == c;
          assert a in accepted;
        } else {
          assert accepted[0] in accepted;
        }
      }
    }
  }

  predicate Climbing(s: seq<nat>) {
    forall i, j :: 0 <= i < j < |s| ==> s[i] < s[j]
  }

  lemma ClimbingCons(c: nat, rest: seq<nat>)
    requires Climbing(rest) && forall j :: 0 <= j < |rest| ==> c < rest[j]
    ensures Climbing([c] + rest)
  {
  }

  /** Strictly increasing numbers within bounds are no more than the bounds allow. */
  lemma {:induction false} IncreasingFew(s: seq<nat>, low: int, high: int)
    requires Climbing(s) && forall x :: x in s ==> low <= x <= high
    ensures s != [] ==> |s| <= high - low + 1
  {
    if |s| > 1 {
      var rest := s[1..];
      forall x | x in rest
        ensures s[0] + 1 <= x <= high
      {
        var j :| 0 <= j < |rest| && rest[j] == x;
        assert s[j + 1] == x && x in s;
      }
      IncreasingFew(rest, s[0] + 1, high);
      assert s[0] in s;
    } else if |s| == 1 {
      assert s[0] in s;
    }
  }

  lemma {:induction false} CountersIncrease(accepted: seq<Acceptance>, id: FactorId, low: int, high: int)
    requires forall i, j :: 0 <= i < j < |accepted| && accepted[i].factor == accepted[j].factor ==>
      accepted[i].counter < accepted[j].counter
    ensures Climbing(CountersWhile(accepted, id, low, high))
  {
    if accepted != [] {
      CountersIncrease(accepted[1..], id, low, high);
      CountersWhileFrom(accepted[1..], id, low, high);
      var rest := CountersWhile(accepted[1..], id, low, high);
      if accepted[0].factor == id && low <= accepted[0].base <= high {
        forall j | 0 <= j < |rest|
          ensures accepted[0].counter < rest[j]
        {
          assert rest[j] in rest;
          var a :| a in accepted[1..] && a.factor == id && a.counter == rest[j];
          var k :| 0 <= k < |accepted[1..]| && accepted[1..][k] == a;
          assert accepted[k + 1] == a;
        }
        ClimbingCons(accepted[0].counter, rest);
      } else {
        assert CountersWhile(accepted, id, low, high) == rest;
      }
    }
  }

  /** Guesses are few: in any run, while the base counter stays between `low` and `high`, a factor accepts
  at most as many codes as there are counters in the windows. */
  lemma {:induction false} AcceptancesBounded(env: Env, st: State, steps: seq<MfaStep>, id: FactorId, low: int,
                                              high: int)
    requires env.setting.interval > 0 && SingleUse(env, st) && NewFactorIds(env, st, steps) && low <= high
    ensures |CountersWhile(PerformAll(env, st, steps).accepted, id, low, high)|
      <= high - low + 2 * env.setting.window + 1
  {
    CountersClimb(env, st, steps);
    var accepted := PerformAll(env, st, steps).accepted;
    var s := CountersWhile(accepted, id, low, high);
    CountersIncrease(accepted, id, low, high);
    CountersWhileFrom(accepted, id, low, high);
    forall x | x in s
      ensures low - env.setting.window <= x <= high + env.setting.window
    {
      var a :| a in accepted && a.factor == id && low <= a.base <= high && a.counter == x;
    }
    IncreasingFew(s, low - env.setting.window, high + env.setting.window);
  }
}
