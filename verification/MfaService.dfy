/** The multi-factor service as an object: it loads copies of factors and sessions, changes them and saves
them, step by step, and is proved against the calls of the same names in Mfa. */
module MfaService {
  import opened Prelude
  import opened Governance
  import opened Totp
  import opened Mfa

  class MfaApplicationService {
    const provider: PyOtpTotpProvider
    var factors: map<FactorId, Factor>
    var sessions: map<SessionId, Session>
    ghost var accepted: seq<Acceptance>

    constructor (provider: PyOtpTotpProvider)
      ensures this.provider == provider && factors == map[] && sessions == map[] && accepted == []
    {
      this.provider, factors, sessions, accepted := provider, map[], map[], [];
    }

    ghost function Contents(): State
      reads this, provider
    {
      State(factors, sessions, provider.secrets, accepted)
    }

    ghost predicate Ready()
      reads this, provider
    {
      provider.setting.interval > 0
    }

    ghost function Environment(): Env
      reads this, provider
    {
      Env(provider.setting, provider.codes)
    }

    method VerifyCode(id: FactorId, code: string, now: Time) returns (r: Result<nat, MfaError>)
      requires Ready() && id in factors
      ensures r == CheckCode(Environment(), Contents(), id, code, now)
    {
      var found := provider.Verify(id, code, now, factors[id].lastCounter);
      r := match found
        case Err(_) => Err(SecretUnavailable)
        case Ok(None) => Err(VerificationFailed)
        case Ok(Some(counter)) => Ok(counter);
    }

    /** A stored copy is built again from its fields, and may be refused. */
    method SaveFactor(id: FactorId, f: MfaFactor) returns (error: Option<MfaError>)
      modifies this`factors
      ensures error == if f.State().WellFormed() then None else Some(InvalidFactor)
      ensures factors == if error.None? then old(factors)[id := f.State()] else old(factors)
    {
      if !f.State().WellFormed() { return Some(InvalidFactor); }
      factors := factors[id := f.State()];
      error := None;
    }

    method SaveSession(id: SessionId, s: Session) returns (error: Option<MfaError>)
      modifies this`sessions
      ensures error == if s.WellFormed() then None else Some(InvalidSession)
      ensures sessions == if error.None? then old(sessions)[id := s] else old(sessions)
    {
      if !s.WellFormed() { return Some(InvalidSession); }
      sessions := sessions[id := s];
      error := None;
    }

    method BeginTotpEnrollment(id: FactorId, identity: IdentityId, active: bool, secret: string, now: Time)
      returns (error: Option<MfaError>)
      modifies this`factors, provider`secrets
      ensures (error, Contents()) == Enroll(old(Contents()), id, identity, active, secret, now)
    {
      if !active { return Some(IdentityInactive); }
      provider.secrets := provider.secrets[id := secret];
      var factor := new MfaFactor.Load(NewFactor(identity, now));
      var _ := SaveFactor(id, factor);
      error := None;
    }

    method ConfirmTotpEnrollment(id: FactorId, code: string, now: Time) returns (error: Option<MfaError>)
      requires Ready()
      modifies this`factors, this`accepted
      ensures (error, Contents()) == Confirm(Environment(), old(Contents()), id, code, now)
    {
      if id !in factors { return Some(FactorNotFound); }
      var factor := new MfaFactor.Load(factors[id]);
      if !factor.status.FactorPending? { return Some(VerificationFailed); }
      var counter := VerifyCode(id, code, now);
      if counter.Err? { return Some(counter.error); }
      var refused := factor.Activate(counter.value, now);
      if refused.Some? { return Some(FactorRefused(refused.value)); }
      error := SaveFactor(id, factor);
      if error.None? { accepted := accepted + [Acceptance(id, BaseCounter(provider.setting, now), counter.value)]; }
    }

    method VerifyTotp(id: FactorId, code: string, now: Time) returns (error: Option<MfaError>)
      requires Ready()
      modifies this`factors, this`accepted
      ensures (error, Contents()) == Mfa.Verify(Environment(), old(Contents()), id, code, now)
    {
      if id !in factors { return Some(FactorNotFound); }
      var factor := new MfaFactor.Load(factors[id]);
      if !factor.status.FactorActive? { return Some(VerificationFailed); }
      var counter := VerifyCode(id, code, now);
      if counter.Err? { return Some(counter.error); }
      var refused := factor.RecordVerification(counter.value, now);
      if refused.Some? { return Some(FactorRefused(refused.value)); }
      error := SaveFactor(id, factor);
      if error.None? { accepted := accepted + [Acceptance(id, BaseCounter(provider.setting, now), counter.value)]; }
    }

    method RotateSession(old': SessionId, new': SessionId, id: FactorId, now: Time) returns (error: Option<MfaError>)
      requires old' in sessions
      modifies this`sessions
      ensures (error, Contents()) == Rotate(old(Contents()), old', new', id, now)
    {
      var previous := sessions[old'];
      var session := new SessionAggregate.Load(previous);
      error := session.Revoke(now);
      if error.Some? { return; }
      error := SaveSession(old', session.State());
      if error.Some? { return; }
      var level := if previous.context.level == AAL3 then AAL3 else AAL2;
      var context :=
        Context(previous.context.how, level, true, previous.context.authenticatedAt, previous.context.provider,
                previous.context.device, previous.context.zone, Some(now), Some(id));
      if !context.WellFormed() { return Some(InvalidContext); }
      error := SaveSession(new', Opened(previous.identity, context, now, previous.expiresAt));
    }

    /** Every check, then the code, then the factor, then the old session, then the new one. */
    method StepUpTotpSession(session: SessionId, new': SessionId, id: FactorId, code: string, now: Time)
      returns (error: Option<MfaError>)
      requires Ready()
      modifies this`factors, this`sessions, this`accepted
      ensures (error, Contents()) == StepUp(Environment(), old(Contents()), session, new', id, code, now)
    {
      if session !in sessions { return Some(SessionNotFound); }
      if id !in factors { return Some(FactorNotFound); }
      if sessions[session].identity != factors[id].identity { return Some(OwnershipMismatch); }
      if !factors[id].status.FactorActive? { return Some(VerificationFailed); }
      if !sessions[session].IsActive(now) { return Some(VerificationFailed); }
      error := VerifyTotp(id, code, now);
      if error.Some? { return; }
      error := RotateSession(session, new', id, now);
    }

    method RevokeFactor(id: FactorId, now: Time) returns (error: Option<MfaError>)
      modifies this`factors, provider`secrets
      ensures (error, Contents()) == Mfa.RevokeFactor(old(Contents()), id, now)
    {
      if id !in factors { return Some(FactorNotFound); }
      var factor := new MfaFactor.Load(factors[id]);
      var refused := factor.Revoke(now);
      if refused.Some? { return Some(FactorRefused(refused.value)); }
      error := SaveFactor(id, factor);
      if error.None? { provider.secrets := map k | k in provider.secrets && k != id :: provider.secrets[k]; }
    }
  }
}
