/** What the multi-factor service promises, in terms of what is stored: exactly which codes are accepted, exactly when
a call succeeds and why it fails, and everything it leaves. */
module MfaTheorems {
  import opened Prelude
  import opened Governance
  import opened FilterSplitter
  import opened Totp
  import opened Mfa

  // ---------------------------------------------------------------- codes

  /** The number of the interval an instant falls in: whole seconds by the interval, towards zero. */
  ghost predicate InInterval(s: Setting, at: Time, base: int) {
    exists seconds: int :: seconds * 1_000_000 <= at < (seconds + 1) * 1_000_000
      && if seconds >= 0 then base * s.interval <= seconds < (base + 1) * s.interval
         else (base - 1) * s.interval < seconds <= base * s.interval
  }

  lemma BaseCounterExact(s: Setting, at: Time)
    requires s.interval > 0
    ensures InInterval(s, at, BaseCounter(s, at))
  {
    var seconds := at / 1_000_000;
    var base := BaseCounter(s, at);
    assert seconds * 1_000_000 <= at < (seconds + 1) * 1_000_000;
    if seconds >= 0 {
      QuotientBounds(seconds, s.interval);
    } else {
      QuotientBounds(-seconds, s.interval);
      NegatedBounds(-seconds, s.interval, -base);
    }
  }

  lemma QuotientBounds(n: nat, k: nat)
    requires k > 0
    ensures (n / k) * k <= n < (n / k + 1) * k
  {
    assert n == (n / k) * k + n % k;
  }

  lemma NegatedBounds(n: int, k: int, quotient: int)
    requires quotient * k <= n < (quotient + 1) * k
    ensures (-quotient - 1) * k < -n <= (-quotient) * k
  {
    assert (-quotient - 1) * k == -((quotient + 1) * k);
    assert (-quotient) * k == -(quotient * k);
  }

  /** The text is a code of the configured length, once white space around it is dropped. */
  predicate WellTyped(s: Setting, code: string) {
    |Strip(code)| == s.digits && forall i :: 0 <= i < |Strip(code)| ==> s.isDigit(Strip(code)[i])
  }

  /** The code is the secret's at this counter, which is within the window and above the last one accepted. */
  ghost predicate GoodAt(env: Env, secret: string, code: string, now: Time, last: Option<nat>, c: nat) {
    && env.setting.normal(env.codes(secret, c)) == env.setting.normal(Strip(code))
    && (last.Some? ==> last.value < c)
    && exists base :: InInterval(env.setting, now, base) && base - env.setting.window <= c <= base + env.setting.window
  }

  /** The least such counter. */
  ghost predicate FirstGood(env: Env, secret: string, code: string, now: Time, last: Option<nat>, c: nat) {
    GoodAt(env, secret, code, now, last, c) && forall x :: GoodAt(env, secret, code, now, last, x) ==> c <= x
  }

  lemma IntervalUnique(s: Setting, at: Time, a: int, b: int)
    requires s.interval > 0 && InInterval(s, at, a) && InInterval(s, at, b)
    ensures a == b
  {
    var x: int :| x * 1_000_000 <= at < (x + 1) * 1_000_000
      && if x >= 0 then a * s.interval <= x < (a + 1) * s.interval
         else (a - 1) * s.interval < x <= a * s.interval;
    var y: int :| y * 1_000_000 <= at < (y + 1) * 1_000_000
      && if y >= 0 then b * s.interval <= y < (b + 1) * s.interval
         else (b - 1) * s.interval < y <= b * s.interval;
    assert x == y;
    if a < b { Apart(a, b, s.interval); } else if b < a { Apart(b, a, s.interval); }
  }

  lemma Apart(a: int, b: int, k: int)
    requires a < b && k > 0
    ensures (a + 1) * k <= b * k && a * k <= (b - 1) * k
  {
    assert (b - a - 1) * k >= 0;
    assert b * k == (a + 1) * k + (b - a - 1) * k;
  }

  lemma FitsExact(env: Env, secret: string, code: string, now: Time, last: Option<nat>, c: nat)
    requires env.setting.interval > 0
    ensures Fits(env.setting, env.codes, secret, code, now, last, c) <==> GoodAt(env, secret, code, now, last, c)
  {
    BaseCounterExact(env.setting, now);
    if GoodAt(env, secret, code, now, last, c) {
      var base :| InInterval(env.setting, now, base)
        && base - env.setting.window <= c <= base + env.setting.window;
      IntervalUnique(env.setting, now, base, BaseCounter(env.setting, now));
    }
  }

  /** The code passes: its secret is stored, it is typed like a code, and some counter is good for it. */
  ghost predicate Passes(env: Env, st: State, id: FactorId, code: string, now: Time)
    requires id in st.factors
  {
    && id in st.secrets && WellTyped(env.setting, code)
    && exists c :: GoodAt(env, st.secrets[id], code, now, st.factors[id].lastCounter, c)
  }

  lemma CheckExact(env: Env, st: State, id: FactorId, code: string, now: Time)
    requires env.setting.interval > 0 && id in st.factors
    ensures CheckCode(env, st, id, code, now).Ok? <==> Passes(env, st, id, code, now)
    ensures CheckCode(env, st, id, code, now).Ok? ==>
      FirstGood(env, st.secrets[id], code, now, st.factors[id].lastCounter, CheckCode(env, st, id, code, now).value)
    ensures CheckCode(env, st, id, code, now).Err? ==>
      CheckCode(env, st, id, code, now).error
      == if WellTyped(env.setting, code) && id !in st.secrets then SecretUnavailable else VerificationFailed
  {
    if WellTyped(env.setting, code) && id in st.secrets {
      var last := st.factors[id].lastCounter;
      forall c: nat
        ensures Fits(env.setting, env.codes, st.secrets[id], code, now, last, c)
           <==> GoodAt(env, st.secrets[id], code, now, last, c)
      {
        FitsExact(env, st.secrets[id], code, now, last, c);
      }
      var found := FirstFit(env.setting, env.codes, st.secrets[id], code, now, last,
                            BaseCounter(env.setting, now) - env.setting.window);
    }
  }

  // ---------------------------------------------------------------- factors

  /** The factor has recorded a counter good for the code, at `now`, and nothing else of it has changed but what is
  given. */
  ghost predicate Recorded(env: Env, st: State, id: FactorId, code: string, now: Time, activated: bool, st': State)
    requires id in st.factors && id in st.secrets
  {
    && st'.factors.Keys == st.factors.Keys
    && (forall k :: k in st.factors && k != id ==> st'.factors[k] == st.factors[k])
    && st'.sessions == st.sessions && st'.secrets == st.secrets
    && (var f, g := st.factors[id], st'.factors[id];
        && g.lastCounter.Some? && FirstGood(env, st.secrets[id], code, now, f.lastCounter, g.lastCounter.value)
        && g.status == FactorActive && g.lastVerifiedAt == Some(now) && g.updatedAt == now && g.version == f.version + 1
        && g.identity == f.identity && g.createdAt == f.createdAt && g.revokedAt == f.revokedAt
        && g.activatedAt == (if activated then Some(now) else f.activatedAt)
        && |st'.accepted| == |st.accepted| + 1 && st'.accepted[..|st.accepted|] == st.accepted
        && st'.accepted[|st.accepted|].factor == id && st'.accepted[|st.accepted|].counter == g.lastCounter.value)
  }

  /** Why a code is not accepted of a factor in the given status; the first of these that holds. */
  ghost predicate CodeRefused(env: Env, st: State, id: FactorId, wanted: FactorStatus, code: string, now: Time,
                              error: MfaError)
  {
    if id !in st.factors then error == FactorNotFound
    else if st.factors[id].status != wanted then error == VerificationFailed
    else if !Passes(env, st, id, code, now) then
      error == if WellTyped(env.setting, code) && id !in st.secrets then SecretUnavailable else VerificationFailed
    else now < st.factors[id].createdAt && error == InvalidFactor
  }

  lemma VerifyExact(env: Env, st: State, id: FactorId, code: string, now: Time)
    requires env.setting.interval > 0 && AllWellFormed(st)
    ensures var (error, st') := Verify(env, st, id, code, now);
      && (error.None? <==>
            id in st.factors && st.factors[id].status == FactorActive && Passes(env, st, id, code, now)
            && st.factors[id].createdAt <= now)
      && (error.None? ==> Recorded(env, st, id, code, now, false, st'))
      && (error.Some? ==> st' == st && CodeRefused(env, st, id, FactorActive, code, now, error.value))
  {
    if id in st.factors { CheckExact(env, st, id, code, now); }
  }

  lemma ConfirmExact(env: Env, st: State, id: FactorId, code: string, now: Time)
    requires env.setting.interval > 0 && AllWellFormed(st)
    ensures var (error, st') := Confirm(env, st, id, code, now);
      && (error.None? <==>
            id in st.factors && st.factors[id].status == FactorPending && Passes(env, st, id, code, now)
            && st.factors[id].createdAt <= now)
      && (error.None? ==> Recorded(env, st, id, code, now, true, st'))
      && (error.Some? ==> st' == st && CodeRefused(env, st, id, FactorPending, code, now, error.value))
  {
    if id in st.factors { CheckExact(env, st, id, code, now); }
  }

  /** Revoking deletes the secret with the factor; only a missing or a revoked factor, or a clock behind its creation,
  is refused. */
  lemma RevokeFactorExact(st: State, id: FactorId, now: Time)
    requires AllWellFormed(st)
    ensures var (error, st') := RevokeFactor(st, id, now);
      && (error.None? <==>
            id in st.factors && st.factors[id].status != FactorRevoked && st.factors[id].createdAt <= now)
      && (error.Some? ==> st' == st)
      && (error.None? ==>
            && st'.sessions == st.sessions && st'.accepted == st.accepted
            && st'.secrets.Keys == st.secrets.Keys - {id}
            && (forall k :: k in st'.secrets ==> st'.secrets[k] == st.secrets[k])
            && st'.factors.Keys == st.factors.Keys
            && (forall k :: k in st.factors && k != id ==> st'.factors[k] == st.factors[k])
            && var f, g := st.factors[id], st'.factors[id];
               && g.status == FactorRevoked && g.revokedAt == Some(now) && g.updatedAt == now
               && g.version == f.version + 1
               && g.identity == f.identity && g.createdAt == f.createdAt && g.activatedAt == f.activatedAt
               && g.lastVerifiedAt == f.lastVerifiedAt && g.lastCounter == f.lastCounter)
  {
  }

  /** Enrolment: a pending factor of the identity with its secret, if the identity is active. */
  lemma EnrollExact(st: State, id: FactorId, identity: IdentityId, active: bool, secret: string, now: Time)
    ensures var (error, st') := Enroll(st, id, identity, active, secret, now);
      && (error.None? <==> active) && (error.Some? ==> error == Some(IdentityInactive) && st' == st)
      && (error.None? ==>
            && st'.sessions == st.sessions && st'.accepted == st.accepted
            && st'.secrets == st.secrets[id := secret] && st'.factors.Keys == st.factors.Keys + {id}
            && (forall k :: k in st.factors && k != id ==> st'.factors[k] == st.factors[k])
            && var f := st'.factors[id];
               && f.identity == identity && f.status == FactorPending && f.version == 0
               && f.createdAt == f.updatedAt == now
               && f.activatedAt.None? && f.revokedAt.None? && f.lastVerifiedAt.None? && f.lastCounter.None?)
  {
  }

  // ---------------------------------------------------------------- step-up

  /** The old session is revoked at `now`, and otherwise as it was. */
  predicate Ended(s: Session, s': Session, now: Time) {
    && s'.status == SessionRevoked && s'.revokedAt == Some(now) && s'.updatedAt == now && s'.version == s.version + 1
    && s'.identity == s.identity && s'.context == s.context && s'.createdAt == s.createdAt
    && s'.expiresAt == s.expiresAt && s'.lastActivityAt == s.lastActivityAt
  }

  /** The new session: opened at `now` for the same owner until the same expiry, with the old login, and raised to the
  second level of assurance unless it was at the third. */
  predicate Replaces(s: Session, s': Session, factor: FactorId, now: Time) {
    && s'.status == SessionActive && s'.identity == s.identity && s'.expiresAt == s.expiresAt && s'.version == 0
    && s'.createdAt == s'.updatedAt == s'.lastActivityAt == now && s'.revokedAt.None?
    && s'.context.how == s.context.how && s'.context.authenticatedAt == s.context.authenticatedAt
    && s'.context.provider == s.context.provider && s'.context.device == s.context.device
    && s'.context.zone == s.context.zone && s'.context.mfa
    && s'.context.mfaVerifiedAt == Some(now) && s'.context.mfaFactor == Some(factor)
    && s'.context.level == if s.context.level == AAL3 then AAL3 else AAL2
  }

  predicate Live(s: Session, now: Time) {
    s.status == SessionActive && now < s.expiresAt
  }

  /** Step-up: it succeeds exactly when session and factor are stored, belong to the same identity and are active, the
  code passes, and the clock is behind neither the factor's creation nor the session's last activity; and then it
  leaves exactly this. */
  lemma StepUpSucceedsExactly(env: Env, st: State, session: SessionId, new': SessionId, id: FactorId, code: string,
                              now: Time)
    requires env.setting.interval > 0 && AllWellFormed(st) && new' !in st.sessions
    ensures var (error, st') := StepUp(env, st, session, new', id, code, now);
      && (error.None? <==>
            && session in st.sessions && id in st.factors && st.sessions[session].identity == st.factors[id].identity
            && st.factors[id].status == FactorActive && Live(st.sessions[session], now)
            && Passes(env, st, id, code, now) && st.factors[id].createdAt <= now
            && NotBefore(st.sessions[session], now))
      && (error.None? ==>
            && Recorded(env, st, id, code, now, false, st'.(sessions := st.sessions))
            && st'.sessions.Keys == st.sessions.Keys + {new'}
            && Ended(st.sessions[session], st'.sessions[session], now)
            && Replaces(st.sessions[session], st'.sessions[new'], id, now)
            && forall k :: k in st.sessions && k != session ==> st'.sessions[k] == st.sessions[k])
  {
    VerifyExact(env, st, id, code, now);
    StepUpExact(env, st, session, new', id, code, now);
    if StepUpProblem(st, session, id, now).None? && Verify(env, st, id, code, now).0.None? {
      RotateExact(Verify(env, st, id, code, now).1, session, new', id, now);
    }
  }

  /** Why a step-up is refused: the first of these that holds. */
  lemma StepUpRefusals(env: Env, st: State, session: SessionId, new': SessionId, id: FactorId, code: string, now: Time)
    requires env.setting.interval > 0 && AllWellFormed(st) && new' !in st.sessions
    ensures var (error, st') := StepUp(env, st, session, new', id, code, now);
      if session !in st.sessions then error == Some(SessionNotFound)
      else if id !in st.factors then error == Some(FactorNotFound)
      else if st.sessions[session].identity != st.factors[id].identity then error == Some(OwnershipMismatch)
      else if st.factors[id].status != FactorActive || !Live(st.sessions[session], now) then
        error == Some(VerificationFailed)
      else if !Passes(env, st, id, code, now) || now < st.factors[id].createdAt then
        error.Some? && CodeRefused(env, st, id, FactorActive, code, now, error.value)
      else !NotBefore(st.sessions[session], now) ==> error == Some(InvalidSession) || error == Some(InvalidContext)
  {
    VerifyExact(env, st, id, code, now);
  }

  // ---------------------------------------------------------------- one session

  /** The other changes a session can make in place: when they are allowed and what they leave. */
  lemma SessionChangesExact(s: Session, at: Time, level: AssuranceLevel, factor: FactorId)
    requires s.WellFormed()
    ensures var r := Activity(s, at);
      && (r.Ok? <==> Live(s, at) && s.lastActivityAt <= at)
      && (r.Err? ==> r.error == if Live(s, at) then InvalidSession else InvalidSessionTransition)
      && (r.Ok? ==> r.value == s.(lastActivityAt := at, updatedAt := at, version := s.version + 1))
    ensures var r := ExpiredSession(s, at);
      && (r.Ok? <==> s.status == SessionActive && s.expiresAt <= at)
      && (r.Err? ==> r.error == if s.status == SessionActive then InvalidSession else InvalidSessionTransition)
      && (r.Ok? ==> r.value == s.(status := SessionExpired, updatedAt := at, version := s.version + 1))
    ensures var r := RevokedSession(s, at);
      && (r.Ok? <==> s.status == SessionActive)
      && (r.Err? ==> r.error == InvalidSessionTransition) && (r.Ok? ==> Ended(s, r.value, at))
    ensures var r := SteppedUp(s, level, factor, at);
      && (r.Ok? <==> Live(s, at) && s.lastActivityAt <= at)
      && (r.Err? ==> r.error == if Live(s, at) then InvalidSession else InvalidSessionTransition)
      && (r.Ok? ==>
            && r.value.context.mfa && r.value.context.mfaVerifiedAt == Some(at)
            && r.value.context.mfaFactor == Some(factor)
            && Highest(s.context.level, level, r.value.context.level)
            && r.value
              == s.(context := r.value.context, lastActivityAt := at, updatedAt := at, version := s.version + 1)
            && r.value.context == s.context.(level := r.value.context.level, mfa := true, mfaVerifiedAt := Some(at),
                                             mfaFactor := Some(factor)))
  {
  }

  /** The higher of two levels of assurance. */
  predicate Highest(a: AssuranceLevel, b: AssuranceLevel, c: AssuranceLevel) {
    && (c == a || c == b)
    && (a == AAL3 || b == AAL3 ==> c == AAL3) && (a == AAL2 || b == AAL2 ==> c != AAL1)
  }
}
