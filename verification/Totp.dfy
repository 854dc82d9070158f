/** One-time codes (RFC 6238): the window search of the provider and the factor that remembers the last
accepted counter. */
module Totp {
  import opened Prelude
  import opened FilterSplitter

  type FactorId = nat

  /** The code of a secret at a counter: a keyed hash that is not part of this model. */
  type Codes = (string, nat) -> string

  /** The settings of the provider; which characters are digits and how text is normalised before it is compared
  is Unicode's business. */
  datatype Setting = Setting(digits: nat, interval: nat, window: nat, isDigit: char -> bool, normal: string -> string)
  {
    predicate Valid() { (digits == 6 || digits == 8) && interval > 0 }
  }

  /** Whole seconds by the interval, towards zero. */
  function BaseCounter(s: Setting, at: Time): int
    requires s.interval > 0
  {
    var seconds := at / 1_000_000;
    if seconds >= 0 then seconds / s.interval else -((-seconds) / s.interval)
  }

  predicate DigitsOnly(s: Setting, text: string) {
    forall i :: 0 <= i < |text| ==> s.isDigit(text[i])
  }

  predicate IsCode(s: Setting, code: string) {
    |Strip(code)| == s.digits && DigitsOnly(s, Strip(code))
  }

  /** `c` is a counter the code is good for: in the window, above the last accepted one. */
  predicate Fits(s: Setting, codes: Codes, secret: string, code: string, at: Time, last: Option<nat>, c: int)
    requires s.interval > 0
  {
    && 0 <= c && BaseCounter(s, at) - s.window <= c <= BaseCounter(s, at) + s.window
    && (last.Some? ==> c > last.value)
    && s.normal(codes(secret, c)) == s.normal(Strip(code))
  }

  function FirstFit(s: Setting, codes: Codes, secret: string, code: string, at: Time, last: Option<nat>,
                    from: int): (c: Option<nat>)
    requires s.interval > 0
    ensures c.Some? ==> c.value >= from && Fits(s, codes, secret, code, at, last, c.value)
    ensures forall x :: from <= x && Fits(s, codes, secret, code, at, last, x) ==> c.Some? && c.value <= x
    decreases BaseCounter(s, at) + s.window + 1 - from
  {
    if from > BaseCounter(s, at) + s.window then None
    else if Fits(s, codes, secret, code, at, last, from) then Some(from)
    else FirstFit(s, codes, secret, code, at, last, from + 1)
  }

  type Secrets = map<FactorId, string>

  datatype TotpError = MfaSecretUnavailable

  /** What verification of a code comes to. */
  function Verification(s: Setting, codes: Codes, secrets: Secrets, id: FactorId, code: string, at: Time,
                        last: Option<nat>)
    : Result<Option<nat>, TotpError>
    requires s.interval > 0
  {
    if !IsCode(s, code) then Ok(None)
    else if id !in secrets then Err(MfaSecretUnavailable)
    else Ok(FirstFit(s, codes, secrets[id], code, at, last, BaseCounter(s, at) - s.window))
  }

  class PyOtpTotpProvider {
    const setting: Setting
    const codes: Codes
    var secrets: Secrets

    constructor (setting: Setting, codes: Codes)
      requires setting.Valid()
      ensures this.setting == setting && this.codes == codes && secrets == map[]
    {
      this.setting, this.codes, secrets := setting, codes, map[];
    }

    /** The least counter in the window, above the last accepted one, whose code this is. */
    method Verify(id: FactorId, code: string, at: Time, last: Option<nat>) returns (r: Result<Option<nat>, TotpError>)
      requires setting.interval > 0
      ensures r == Verification(setting, codes, secrets, id, code, at, last)
      ensures r.Ok? && r.value.Some? ==>
        && id in secrets && Fits(setting, codes, secrets[id], code, at, last, r.value.value)
        && forall c :: Fits(setting, codes, secrets[id], code, at, last, c) ==> r.value.value <= c
      ensures r.Ok? && r.value.None? && IsCode(setting, code) ==>
        id in secrets && forall c :: !Fits(setting, codes, secrets[id], code, at, last, c)
    {
      var normalized := Strip(code);
      if |normalized| != setting.digits || !DigitsOnly(setting, normalized) { return Ok(None); }
      if id !in secrets { return Err(MfaSecretUnavailable); }
      var secret := secrets[id];
      var base := BaseCounter(setting, at);
      var window: int := setting.window;
      for offset := -window to window + 1
        invariant FirstFit(setting, codes, secret, code, at, last, base - window)
               == FirstFit(setting, codes, secret, code, at, last, base + offset)
      {
        var counter := base + offset;
        if counter >= 0 && (last.None? || counter > last.value) {
          if setting.normal(codes(secret, counter)) == setting.normal(normalized) { return Ok(Some(counter)); }
        }
      }
      r := Ok(None);
    }
  }

  // ---------------------------------------------------------------- factors

  datatype FactorStatus = FactorPending | FactorActive | FactorRevoked

  datatype Factor = Factor(
    identity: IdentityId,
    status: FactorStatus,
    version: nat,
    createdAt: Time,
    updatedAt: Time,
    activatedAt: Option<Time>,
    revokedAt: Option<Time>,
    lastVerifiedAt: Option<Time>,
    lastCounter: Option<nat>)
  {
    /** What the constructor demands of stored factors. */
    predicate WellFormed() {
      && (activatedAt.Some? ==> activatedAt.value >= createdAt)
      && (revokedAt.Some? ==> revokedAt.value >= createdAt)
      && (lastVerifiedAt.Some? ==> lastVerifiedAt.value >= createdAt)
    }
  }

  datatype FactorError = InvalidFactorTransition | ReplayDetected

  function NewFactor(identity: IdentityId, now: Time): Factor {
    Factor(identity, FactorPending, 0, now, now, None, None, None, None)
  }

  function Accept(f: Factor, counter: nat, at: Time): Result<Factor, FactorError> {
    if f.lastCounter.Some? && counter <= f.lastCounter.value then Err(ReplayDetected)
    else Ok(f.(lastCounter := Some(counter), lastVerifiedAt := Some(at)))
  }

  function Activated(f: Factor, counter: nat, at: Time): Result<Factor, FactorError> {
    if !f.status.FactorPending? then Err(InvalidFactorTransition)
    else
      match Accept(f, counter, at)
      case Err(e) => Err(e)
      case Ok(g) => Ok(g.(status := FactorActive, activatedAt := Some(at), version := g.version + 1, updatedAt := at))
  }

  function Verified(f: Factor, counter: nat, at: Time): Result<Factor, FactorError> {
    if !f.status.FactorActive? then Err(InvalidFactorTransition)
    else
      match Accept(f, counter, at)
      case Err(e) => Err(e)
      case Ok(g) => Ok(g.(version := g.version + 1, updatedAt := at))
  }

  function RevokedFactor(f: Factor, at: Time): Result<Factor, FactorError> {
    if f.status.FactorRevoked? then Err(InvalidFactorTransition)
    else Ok(f.(status := FactorRevoked, revokedAt := Some(at), version := f.version + 1, updatedAt := at))
  }

  /** A loaded copy of a factor. */
  class MfaFactor {
    const created: Factor
    var status: FactorStatus
    var version: nat
    var updatedAt: Time
    var activatedAt: Option<Time>
    var revokedAt: Option<Time>
    var lastVerifiedAt: Option<Time>
    var lastAcceptedCounter: Option<nat>

    constructor Load(f: Factor)
      ensures State() == f
    {
      created, status, version, updatedAt := f, f.status, f.version, f.updatedAt;
      activatedAt, revokedAt, lastVerifiedAt, lastAcceptedCounter := f.activatedAt, f.revokedAt, f.lastVerifiedAt,
        f.lastCounter;
    }

    function State(): Factor
      reads this
    {
      Factor(created.identity, status, version, created.createdAt, updatedAt, activatedAt, revokedAt, lastVerifiedAt,
             lastAcceptedCounter)
    }

    ghost predicate Did(r: Result<Factor, FactorError>, before: Factor, error: Option<FactorError>)
      reads this
    {
      match r
      case Err(e) => error == Some(e) && State() == before
      case Ok(f) => error == None && State() == f
    }

    method AcceptCounter(counter: nat, at: Time) returns (error: Option<FactorError>)
      modifies this`lastAcceptedCounter, this`lastVerifiedAt
      ensures Did(Accept(old(State()), counter, at), old(State()), error)
    {
      if lastAcceptedCounter.Some? && counter <= lastAcceptedCounter.value { return Some(ReplayDetected); }
      lastAcceptedCounter := Some(counter);
      lastVerifiedAt := Some(at);
      error := None;
    }

    method Activate(counter: nat, at: Time) returns (error: Option<FactorError>)
      modifies this
      ensures Did(Activated(old(State()), counter, at), old(State()), error)
    {
      if !status.FactorPending? { return Some(InvalidFactorTransition); }
      error := AcceptCounter(counter, at);
      if error.Some? { return; }
      status := FactorActive;
      activatedAt := Some(at);
      Touch(at);
    }

    method RecordVerification(counter: nat, at: Time) returns (error: Option<FactorError>)
      modifies this
      ensures Did(Verified(old(State()), counter, at), old(State()), error)
    {
      if !status.FactorActive? { return Some(InvalidFactorTransition); }
      error := AcceptCounter(counter, at);
      if error.Some? { return; }
      Touch(at);
    }

    method Revoke(at: Time) returns (error: Option<FactorError>)
      modifies this
      ensures Did(RevokedFactor(old(State()), at), old(State()), error)
    {
      if status.FactorRevoked? { return Some(InvalidFactorTransition); }
      status := FactorRevoked;
      revokedAt := Some(at);
      Touch(at);
      error := None;
    }

    method Touch(at: Time)
      modifies this`version, this`updatedAt
      ensures version == old(version) + 1 && updatedAt == at
    {
      version := version + 1;
      updatedAt := at;
    }
  }
}
