/** The authorization engine and the distributed runtime as objects. */
module RuntimeObjects {
  import opened Prelude
  import opened Governance
  import opened Authorization
  import opened AuthorizationTheorems
  import opened Denials
  import opened SecurityState
  import opened Writes
  import opened DecisionCache
  import opened Coherence
  import opened Revocation
  import opened Services
  import opened ServiceObjects
  import opened AuthorizationRuntime

  /** A clock that never goes back. */
  class Clock {
    var time: Time

    constructor (start: Time)
      ensures time == start
    {
      time := start;
    }

    method Now() returns (now: Time)
      modifies this
      ensures now == time >= old(time)
    {
      var reading: Time := *;
      if reading > time { time := reading; }
      now := time;
    }
  }

  class AuthorizationEngine {
    const db: Database
    const clock: Clock
    const maxDepth: nat
    var audit: seq<Decision>

    constructor (db: Database, clock: Clock, maxDepth: nat)
      ensures this.db == db && this.clock == clock && this.maxDepth == maxDepth && audit == []
    {
      this.db, this.clock, this.maxDepth, audit := db, clock, maxDepth, [];
    }

    method RecordDecision(d: Decision)
      modifies this
      ensures audit == old(audit) + [d]
    {
      audit := audit + [d];
    }

    /** The candidates in identifier order; the first that is not passed over decides. */
    method DecideByBindings(q: Request, now: Time, m: Membership, bindings: seq<RoleBinding>) returns (d: Decision)
      ensures d == TryBindings(db.Contents(), maxDepth, q, now, m, bindings, SortById(InScope(bindings, q.scope)))
    {
      var candidates := SortById(InScope(bindings, q.scope));
      for i := 0 to |candidates|
        invariant TryBindings(db.Contents(), maxDepth, q, now, m, bindings, candidates)
               == TryBindings(db.Contents(), maxDepth, q, now, m, bindings, candidates[i..])
      {
        assert candidates[i..][0] == candidates[i] && candidates[i..][1..] == candidates[i + 1..];
        var decided := TryBinding(db.Contents(), maxDepth, q, now, m, bindings, candidates[i]);
        if decided.Some? { return decided.value; }
      }
      d := Deny(q, now, DenyPermissionNotGranted);
    }

    method Evaluate(q: Request, now: Time) returns (d: Decision)
      ensures d == Authorization.Authorize(db.Contents(), maxDepth, q, now)
    {
      if q.subject !in db.identities { return Deny(q, now, DenySubjectNotFound); }
      if db.identities[q.subject] != Active { return Deny(q, now, DenySubjectInactive); }
      if q.tenant !in db.tenants { return Deny(q, now, DenyTenantNotFound); }
      if db.tenants[q.tenant] != Active { return Deny(q, now, DenyTenantInactive); }
      var m := FindMembership(db.memberships, q.subject, q.tenant);
      if m.None? || !m.value.IsActive(now) { return Deny(q, now, DenyMembershipNotFound); }
      if q.permission !in db.permissions { return Deny(q, now, DenyPermissionNotRegistered); }
      var bindings := ActiveBindings(BindingsOf(db.bindings, q.subject, q.tenant), now);
      if bindings == [] { return Deny(q, now, DenyNoActiveBinding); }
      if InScope(bindings, q.scope) == [] { return Deny(q, now, DenyScopeMismatch); }
      d := DecideByBindings(q, now, m.value, bindings);
    }

    method Authorize(q: Request) returns (d: Decision)
      modifies this, clock
      ensures clock.time >= old(clock.time)
      ensures d == Authorization.Authorize(db.Contents(), maxDepth, q, clock.time)
      ensures audit == old(audit) + [d]
    {
      var now := clock.Now();
      d := Evaluate(q, now);
      RecordDecision(d);
    }
  }

  datatype RuntimeError = AuthorizationRuntimeUnavailable

  type Checked = Result<Option<Marker>, RegistryError>

  function Failed(found: Checked): nat {
    if found.Ok? then 0 else 1
  }

  function DenialReason(target: RevocationTarget): Reason {
    match target
    case IdentityTarget => DenySubjectInactive
    case TenantTarget => DenyTenantInactive
    case MembershipTarget => DenyMembershipNotFound
    case BindingTarget => DenyNoActiveBinding
    case SessionTarget => DenyAuthenticationContextMissing
  }

  function RevocationDenial(q: Request, m: Marker, at: Time): Decision {
    Deny(q, at, DenialReason(m.target), [ByRevocation(m.target, m.id), ByRevocationReason(m.reason)])
  }

  /** A denial by a marker: of this request, for the reason of the marker's kind, naming the marker. */
  lemma RevocationDenialExact(q: Request, m: Marker, at: Time)
    ensures var d := RevocationDenial(q, m, at);
      && DenialOf(d, q, at) && d.rule.None? && d.requiredLevel.None? && d.requiredMfa.None?
      && d.explanation == [ByRevocation(m.target, m.id), ByRevocationReason(m.reason)]
      && (m.target == IdentityTarget <==> d.reason == DenySubjectInactive)
      && (m.target == TenantTarget <==> d.reason == DenyTenantInactive)
      && (m.target == MembershipTarget <==> d.reason == DenyMembershipNotFound)
      && (m.target == BindingTarget <==> d.reason == DenyNoActiveBinding)
      && (m.target == SessionTarget <==> d.reason == DenyAuthenticationContextMissing)
  {
  }

  /** A denial by a marker of the request's subject or tenant.  It carries the request and names the marker, the
  engine denies too, and for the same reason, unless it has one against the subject already. */
  ghost predicate DeniesFor(r: Repositories, maxDepth: nat, q: Request, m: Marker, d: Decision) {
    var e := Authorization.Authorize(r, maxDepth, q, d.evaluatedAt);
    && DenialOf(d, q, d.evaluatedAt) && !e.allowed && d.rule.None? && d.requiredLevel.None? && d.requiredMfa.None?
    && d.explanation == [ByRevocation(m.target, m.id), ByRevocationReason(m.reason)]
    && (|| (m.target == IdentityTarget && m.id == q.subject && d.reason == e.reason == DenySubjectInactive)
        || (m.target == TenantTarget && m.id == q.tenant && d.reason == DenyTenantInactive
            && (SubjectActive(r, q) ==> e.reason == DenyTenantInactive)))
  }

  /** How an answer comes about that is not served from the cache, and what it leaves there, given what the registry
  said.  A registry that was not reached leaves the engine's decision, uncached; a marker denies; otherwise the
  engine's decision stands, and an ALLOW is cached. */
  ghost predicate Settled(cfg: Config, r: Repositories, ms: Markers, q: Request, s: Stamp, now: Time, heard: Checked,
                          d: Decision, before: Entries, after: Entries)
  {
    match heard
    case Err(_) => d == Authorization.Authorize(r, cfg.maxDepth, q, d.evaluatedAt) && after == before
    case Ok(Some(m)) =>
      && RequestMarker(ms, q, s, now, m) && d.evaluatedAt == now && DeniesFor(r, cfg.maxDepth, q, m, d)
      && after == before
    case Ok(None) =>
      && RequestMarkerOf(ms, q, s, now).None? && d == Authorization.Authorize(r, cfg.maxDepth, q, d.evaluatedAt)
      && if d.allowed then CachedIn(after, cfg, q, s, now, d) && Without(after, KeyOf(q)) == Without(before, KeyOf(q))
         else after == before
  }

  /** The ALLOW is in the cache, under the stamp it was found under, until it ends or the time to live is over. */
  predicate CachedIn(entries: Entries, cfg: Config, q: Request, s: Stamp, now: Time, d: Decision) {
    KeyOf(q) in entries &&
    var e := entries[KeyOf(q)];
    && e.decision == FromDecision(d) && e.stamp == s && e.cachedAt == now
    && EarlierEnd(Some(now + cfg.ttl), d.validUntil, Some(e.expiresAt))
  }

  /** How any answer comes about: from a valid entry over which no marker stands, which stays; or, the entry of the
  request being dropped, as settled. */
  ghost predicate Answered(cfg: Config, r: Repositories, ms: Markers, q: Request, s: Stamp, now: Time, heard: Checked,
                           d: Decision, before: Entries, after: Entries)
  {
    if heard == Ok(None) && KeyOf(q) in before && before[KeyOf(q)].ValidFor(s, now) then
      && RequestMarkerOf(ms, q, s, now).None? && after == before && d.allowed
      && d == ToDecision(before[KeyOf(q)].decision, q, now) == Authorization.Authorize(r, cfg.maxDepth, q, now)
    else Settled(cfg, r, ms, q, s, now, heard, d, Without(before, KeyOf(q)), after)
  }

  /** What looking in the cache led to. */
  datatype CacheOutcome = Served(decision: Decision) | StampMoved(after: Stamp) | NotServed(available: bool)

  class DistributedRuntime {
    const db: Database
    const clock: Clock
    const store: SecurityStateStore
    const registry: RevocationRegistry
    const cache: AuthorizationCache
    const engine: AuthorizationEngine
    const ttl: Time
    const maxRetries: nat

    constructor (db: Database, clock: Clock, store: SecurityStateStore, registry: RevocationRegistry,
                 cache: AuthorizationCache, maxDepth: nat, ttl: Time, maxRetries: nat)
      requires ttl > 0
      ensures this.db == db && this.clock == clock && this.store == store && this.registry == registry
        && this.cache == cache
      ensures engine.db == db && engine.clock == clock && engine.maxDepth == maxDepth && fresh(engine)
      ensures this.ttl == ttl && this.maxRetries == maxRetries
    {
      this.db, this.clock, this.store, this.registry, this.cache := db, clock, store, registry, cache;
      this.ttl, this.maxRetries := ttl, maxRetries;
      engine := new AuthorizationEngine(db, clock, maxDepth);
    }

    function Settings(): Config { Config(engine.maxDepth, ttl, maxRetries, false) }

    /** The deployment is in order, and this runtime is wired to it. */
    ghost predicate InOrder()
      reads this, db, clock, store, registry`markers, cache, engine
    {
      && engine.db == db && engine.clock == clock && ttl > 0
      && Trusted(Settings(), clock.time, db.Contents(), store.State(), cache.entries, registry.markers)
    }

    ghost predicate Audited(d: Decision, before: seq<Decision>)
      reads this, engine
    {
      |engine.audit| > |before| && engine.audit[|engine.audit| - 1] == d
    }

    ghost predicate Hit(entries: Entries, q: Request, current: Stamp, at: Time) {
      KeyOf(q) in entries && entries[KeyOf(q)].ValidFor(current, at)
    }

    ghost predicate HasEntry(q: Request, entry: Entry, current: Stamp, at: Time)
      reads this, cache
    {
      KeyOf(q) in cache.entries && cache.entries[KeyOf(q)] == entry && entry.ValidFor(current, at)
    }

    method ActiveMarker(target: RevocationTarget, id: nat, current: nat, at: Time) returns (found: Checked)
      modifies registry`failures
      ensures found.Ok? ==> found.value == Applicable(registry.markers, target, id, current, at)
      ensures registry.failures == old(registry.failures) + Failed(found)
    {
      found := registry.Lookup(target, id);
      if found.Ok? && found.value.Some? {
        if !found.value.value.IsActive(at) { return Ok(None); }
        if !found.value.value.AppliesTo(current) { return Ok(None); }
      }
    }

    /** Identity first, then tenant. */
    method RequestRevocation(q: Request, s: Stamp, at: Time) returns (found: Checked)
      modifies registry`failures
      ensures found.Ok? ==> found.value == RequestMarkerOf(registry.markers, q, s, at)
      ensures registry.failures == old(registry.failures) + Failed(found)
    {
      found := ActiveMarker(IdentityTarget, q.subject, s.identity, at);
      if found.Err? || found.value.Some? { return; }
      found := ActiveMarker(TenantTarget, q.tenant, s.tenant, at);
    }

    /** The membership and then the binding the decision rests on. */
    method SemanticRevocation(c: CachedDecision, s: Stamp, at: Time) returns (found: Checked)
      modifies registry`failures
      ensures found.Ok? ==> found.value == DecisionMarkerOf(registry.markers, c, s, at)
      ensures registry.failures == old(registry.failures) + Failed(found)
    {
      if c.membership.Some? {
        found := ActiveMarker(MembershipTarget, c.membership.value, s.membership, at);
        if found.Err? || found.value.Some? { return; }
      }
      if c.binding.Some? {
        found := ActiveMarker(BindingTarget, c.binding.value, s.subjectAuthorization, at);
        return;
      }
      found := Ok(None);
    }

    /** No marker can apply to what a current cached ALLOW rests on. */
    method CachedRevocation(q: Request, entry: Entry, s: Stamp, at: Time) returns (found: Checked)
      requires InOrder() && s == StampFor(store.State(), q.subject, q.tenant) && at == clock.time
        && HasEntry(q, entry, s, at)
      modifies registry`failures
      ensures found.Ok? ==> found.value.None?
      ensures registry.failures == old(registry.failures) + Failed(found)
    {
      CachedIsCurrent(Settings(), at, db.Contents(), store.State(), cache.entries, q);
      NoDecisionMarker(Settings(), clock.time, db.Contents(), store.State(), cache.entries, registry.markers, q, at,
                       at);
      found := SemanticRevocation(entry.decision, s, at);
    }

    /** No marker can apply to what a current ALLOW rests on. */
    method DecisionRevocation(q: Request, d: Decision, s: Stamp, at: Time) returns (found: Checked)
      requires InOrder() && s == StampFor(store.State(), q.subject, q.tenant)
      requires d.allowed && d == Authorization.Authorize(db.Contents(), engine.maxDepth, q, d.evaluatedAt)
      modifies registry`failures
      ensures found.Ok? ==> found.value.None?
      ensures registry.failures == old(registry.failures) + Failed(found)
    {
      NoDecisionMarker(Settings(), clock.time, db.Contents(), store.State(), cache.entries, registry.markers, q,
                       d.evaluatedAt, at);
      found := SemanticRevocation(FromDecision(d), s, at);
    }

    /** Other parts of the program open, extend and revoke sessions at any time.  Their events move the
    authentication dimension, and so the stamp, without touching anything the engine reads. */
    method OtherSessions()
      requires InOrder()
      modifies store
      ensures InOrder()
    {
      var events: int := *;
      while events > 0
        invariant InOrder()
      {
        events := events - 1;
        var someone: nat := *;
        SessionEventKeepsTrusted(Settings(), clock.time, db.Contents(), store.State(), cache.entries, registry.markers,
                                 someone);
        var _ := store.Advance(AuthenticationState(someone));
      }
    }

    method ReadStamp(q: Request) returns (s: Stamp)
      requires InOrder()
      modifies store
      ensures InOrder() && s == StampFor(store.State(), q.subject, q.tenant)
    {
      OtherSessions();
      s := store.ReadStamp(q.subject, q.tenant);
    }

    method Tick() returns (now: Time)
      requires InOrder()
      modifies clock
      ensures InOrder() && now == clock.time >= old(clock.time)
    {
      now := clock.Now();
      TimePasses(Settings(), old(clock.time), now, db.Contents(), store.State(), cache.entries, registry.markers);
    }

    method Evaluate(q: Request) returns (d: Decision)
      requires InOrder()
      modifies clock, engine
      ensures InOrder() && d.evaluatedAt == clock.time >= old(clock.time)
      ensures d == Authorization.Authorize(db.Contents(), engine.maxDepth, q, clock.time)
      ensures engine.audit == old(engine.audit) + [d]
    {
      d := engine.Authorize(q);
      DecisionStamped(db.Contents(), engine.maxDepth, q, clock.time);
      TimePasses(Settings(), old(clock.time), clock.time, db.Contents(), store.State(), cache.entries,
                 registry.markers);
    }

    method Forget(q: Request)
      requires InOrder()
      modifies cache
      ensures InOrder() && cache.entries == Without(old(cache.entries), KeyOf(q))
    {
      cache.Delete(KeyOf(q));
      FewerEntries(Settings(), clock.time, db.Contents(), store.State(), old(cache.entries), cache.entries);
    }

    method LookUp(q: Request, current: Stamp, at: Time) returns (found: Option<Entry>)
      requires InOrder()
      modifies cache
      ensures InOrder()
      ensures found.Some? ==> HasEntry(q, found.value, current, at) && cache.entries == old(cache.entries)
      ensures found.None? ==>
        !Hit(old(cache.entries), q, current, at) && cache.entries == Without(old(cache.entries), KeyOf(q))
    {
      found := cache.Lookup(KeyOf(q), current, at);
      FewerEntries(Settings(), clock.time, db.Contents(), store.State(), old(cache.entries), cache.entries);
    }

    method DenyRevoked(q: Request, m: Marker, s: Stamp, at: Time) returns (d: Decision)
      requires InOrder() && s == StampFor(store.State(), q.subject, q.tenant)
        && RequestMarker(registry.markers, q, s, at, m)
      modifies cache, engine
      ensures InOrder() && engine.audit == old(engine.audit) + [d]
      ensures d.evaluatedAt == at && DeniesFor(db.Contents(), engine.maxDepth, q, m, d)
      ensures cache.entries == Without(old(cache.entries), KeyOf(q))
    {
      RequestMarkerDenies(Settings(), clock.time, db.Contents(), store.State(), cache.entries, registry.markers, q, at,
                          m);
      Forget(q);
      d := RevocationDenial(q, m, at);
      engine.RecordDecision(d);
    }

    /** The expiry is the earlier of the time to live and the end of the decision; an entry that would be
    expired is not stored. */
    method CacheAllow(q: Request, d: Decision, s: Stamp, now: Time)
      requires InOrder() && Storable(q, d, s, now)
      modifies cache
      ensures InOrder()
      ensures var expiry := ExpiryOf(Settings(), d, now);
        cache.entries == if expiry <= now then old(cache.entries)
                         else old(cache.entries)[KeyOf(q) := Entry(FromDecision(d), s, now, expiry)]
    {
      var expiry := now + ttl;
      if d.validUntil.Some? && d.validUntil.value < expiry { expiry := d.validUntil.value; }
      assert expiry == ExpiryOf(Settings(), d, now);
      if expiry <= now { return; }
      var entry := Entry(FromDecision(d), s, now, expiry);
      cache.Put(KeyOf(q), entry);
    }

    /** With this decision stored for the request, the deployment would still be in order. */
    ghost predicate Storable(q: Request, d: Decision, s: Stamp, now: Time)
      reads this, db, clock, store, registry`markers, cache, engine
    {
      && d.allowed
      && Trusted(Settings(), clock.time, db.Contents(), store.State(),
                 cache.entries[KeyOf(q) := Entry(FromDecision(d), s, now, ExpiryOf(Settings(), d, now))],
                   registry.markers)
    }

    lemma StorableAllow(q: Request, d: Decision, s: Stamp, now: Time)
      requires InOrder() && now <= clock.time && d.allowed && s == StampFor(store.State(), q.subject, q.tenant)
      requires d == Authorization.Authorize(db.Contents(), engine.maxDepth, q, clock.time)
      ensures Storable(q, d, s, now)
    {
      MoreEntries(Settings(), clock.time, db.Contents(), store.State(), cache.entries, q, now, d);
    }

    /** A current entry over which no marker stands, rehydrated for this request at this instant. */
    method ServeCached(q: Request, entry: Entry, s: Stamp, now: Time) returns (d: Decision)
      requires InOrder() && now == clock.time && s == StampFor(store.State(), q.subject, q.tenant)
        && HasEntry(q, entry, s, now)
      requires RequestMarkerOf(registry.markers, q, s, now).None?
      modifies engine
      ensures InOrder() && Serves(q, s, now, Ok(None), d, cache.entries, |old(engine.audit)|)
    {
      CachedIsCurrent(Settings(), now, db.Contents(), store.State(), cache.entries, q);
      DecisionStamped(db.Contents(), engine.maxDepth, q, now);
      d := ToDecision(entry.decision, q, now);
      engine.RecordDecision(d);
    }

    /** A marker stands over the request. */
    method Refuse(q: Request, m: Marker, before: Stamp, now: Time) returns (d: Decision)
      requires InOrder() && now == clock.time && before == StampFor(store.State(), q.subject, q.tenant)
      requires RequestMarker(registry.markers, q, before, now, m)
      modifies cache, engine
      ensures InOrder() && Serves(q, before, now, Ok(Some(m)), d, old(cache.entries), |old(engine.audit)|)
    {
      d := DenyRevoked(q, m, before, now);
      SettledAnswers(Settings(), db.Contents(), registry.markers, q, before, now, Ok(Some(m)), d, old(cache.entries),
                     cache.entries, cache.entries);
    }

    /** The decision's own targets first, then the request's. */
    method RevocationOfCached(q: Request, entry: Entry, s: Stamp, now: Time) returns (revoked: Checked)
      requires InOrder() && now == clock.time && s == StampFor(store.State(), q.subject, q.tenant)
        && HasEntry(q, entry, s, now)
      modifies registry`failures
      ensures revoked.Ok? ==> revoked.value == RequestMarkerOf(registry.markers, q, s, now)
      ensures registry.failures == old(registry.failures) + Failed(revoked)
    {
      revoked := CachedRevocation(q, entry, s, now);
      if revoked.Ok? { revoked := RequestRevocation(q, s, now); }
    }

    /** The stamp has not moved: the entry is served unless a marker applies or none can be read. */
    method AnswerHit(q: Request, entry: Entry, s: Stamp, now: Time)
      returns (outcome: CacheOutcome, ghost heard: Checked)
      requires InOrder() && now == clock.time && s == StampFor(store.State(), q.subject, q.tenant)
        && HasEntry(q, entry, s, now)
      modifies cache, engine, registry`failures
      ensures InOrder() && registry.failures == old(registry.failures) + Failed(heard)
      ensures heard.Err? ==> outcome == NotServed(false) && cache.entries == Without(old(cache.entries), KeyOf(q))
      ensures heard.Err? ==> engine.audit == old(engine.audit)
      ensures heard.Ok? ==>
        outcome.Served? && Serves(q, s, now, heard, outcome.decision, old(cache.entries), |old(engine.audit)|)
    {
      var revoked := RevocationOfCached(q, entry, s, now);
      heard := revoked;
      if revoked.Err? {
        Forget(q);
        return NotServed(false), heard;
      }
      var d;
      if revoked.value.Some? {
        d := Refuse(q, revoked.value.value, s, now);
      } else {
        d := ServeCached(q, entry, s, now);
      }
      outcome := Served(d);
    }

    /** The answer has come about as it must, and the cache is left as it must be. */
    ghost predicate Respond(q: Request, s: Stamp, now: Time, heard: Checked, d: Decision, before: Entries)
      reads this, db, engine, registry`markers, cache
    {
      Answered(Settings(), db.Contents(), registry.markers, q, s, now, heard, d, before, cache.entries)
    }

    /** A cached decision is served only after the stamp and the markers have been read again. */
    method FromCache(q: Request, before: Stamp, now: Time) returns (outcome: CacheOutcome, ghost heard: Checked)
      requires InOrder() && now == clock.time
      modifies store, cache, engine, registry`failures
      ensures InOrder() && registry.failures == old(registry.failures) + Failed(heard)
      ensures outcome.Served? ==>
        heard.Ok? && Serves(q, before, now, heard, outcome.decision, old(cache.entries), |old(engine.audit)|)
      ensures !outcome.Served? ==> engine.audit == old(engine.audit)
      ensures outcome.StampMoved? ==> heard.Ok? && outcome.after != before && cache.entries == old(cache.entries)
      ensures outcome.NotServed? ==>
        outcome.available == heard.Ok? && cache.entries == Without(old(cache.entries), KeyOf(q))
      ensures outcome == NotServed(true) ==> !Hit(old(cache.entries), q, before, now)
    {
      heard := Ok(None);
      var cached := LookUp(q, before, now);
      if cached.None? { return NotServed(true), heard; }
      var after := ReadStamp(q);
      if after != before { return StampMoved(after), heard; }
      outcome, heard := AnswerHit(q, cached.value, after, now);
    }

    /** The request's targets first, then, for an ALLOW, those the decision rests on. */
    method RevocationOfDecision(q: Request, d: Decision, s: Stamp, now: Time) returns (revoked: Checked)
      requires InOrder() && s == StampFor(store.State(), q.subject, q.tenant)
      requires d == Authorization.Authorize(db.Contents(), engine.maxDepth, q, d.evaluatedAt)
      modifies registry`failures
      ensures revoked.Ok? ==> revoked.value == RequestMarkerOf(registry.markers, q, s, now)
      ensures registry.failures == old(registry.failures) + Failed(revoked)
    {
      revoked := RequestRevocation(q, s, now);
      if revoked.Ok? && revoked.value.None? && d.allowed {
        revoked := DecisionRevocation(q, d, s, now);
      }
    }

    /** An evaluated decision whose stamp has not moved: the markers are checked again, and only then is an ALLOW
    cached. */
    method AnswerEvaluated(q: Request, decision: Decision, s: Stamp, now: Time)
      returns (d: Decision, ghost heard: Checked)
      requires InOrder() && now <= clock.time && s == StampFor(store.State(), q.subject, q.tenant)
      requires KeyOf(q) !in cache.entries && decision.evaluatedAt == clock.time
      requires decision == Authorization.Authorize(db.Contents(), engine.maxDepth, q, clock.time)
      requires engine.audit != [] && engine.audit[|engine.audit| - 1] == decision
      modifies cache, engine, registry`failures
      ensures InOrder() && registry.failures == old(registry.failures) + Failed(heard)
      ensures now <= d.evaluatedAt <= clock.time && |engine.audit| >= |old(engine.audit)|
        && engine.audit[|engine.audit| - 1] == d
      ensures Settled(Settings(), db.Contents(), registry.markers, q, s, now, heard, d, old(cache.entries),
                      cache.entries)
    {
      var revoked := RevocationOfDecision(q, decision, s, now);
      heard := revoked;
      assert Without(cache.entries, KeyOf(q)) == cache.entries;
      if revoked.Err? {
        Forget(q);
        return decision, heard;
      }
      if revoked.value.Some? {
        d := DenyRevoked(q, revoked.value.value, s, now);
        return;
      }
      if decision.allowed { StoreAllow(q, decision, s, now); }
      d := decision;
    }

    /** A current ALLOW has not ended, and so it is stored. */
    method StoreAllow(q: Request, d: Decision, s: Stamp, now: Time)
      requires InOrder() && now <= clock.time && s == StampFor(store.State(), q.subject, q.tenant)
      requires d.allowed && d == Authorization.Authorize(db.Contents(), engine.maxDepth, q, clock.time)
      requires d.evaluatedAt == clock.time
      modifies cache
      ensures InOrder() && CachedIn(cache.entries, Settings(), q, s, now, d)
      ensures Without(cache.entries, KeyOf(q)) == Without(old(cache.entries), KeyOf(q))
    {
      StorableAllow(q, d, s, now);
      StoredAllow(Settings(), db.Contents(), q, s, now, d, cache.entries);
      CacheAllow(q, d, s, now);
    }

    /** Evaluate, read the stamp again, and answer if it has not moved; the cache held `origin` before the request's
    entry was dropped. */
    method FromEngine(q: Request, before: Stamp, now: Time, available: bool, ghost origin: Entries)
      returns (outcome: CacheOutcome, ghost heard: Checked)
      requires InOrder() && now <= clock.time && cache.entries == Without(origin, KeyOf(q))
      requires available ==> !Hit(origin, q, before, now)
      modifies clock, store, cache, engine, registry`failures
      ensures InOrder() && clock.time >= old(clock.time) && !outcome.NotServed?
      ensures registry.failures == old(registry.failures) + if available then Failed(heard) else 0
      ensures !available ==> heard.Err?
      ensures outcome.Served? ==> Serves(q, before, now, heard, outcome.decision, origin, |old(engine.audit)|)
      ensures outcome.StampMoved? ==>
        && outcome.after != before && |engine.audit| >= |old(engine.audit)|
        && Without(cache.entries, KeyOf(q)) == Without(origin, KeyOf(q))
    {
      heard := if available then Ok(None) else Err(RegistryUnavailable);
      var decision := Evaluate(q);
      var after := ReadStamp(q);
      assert Without(cache.entries, KeyOf(q)) == cache.entries;
      if after != before {
        Forget(q);
        return StampMoved(after), heard;
      }
      var d := decision;
      if available { d, heard := AnswerEvaluated(q, decision, after, now); }
      SettledAnswers(Settings(), db.Contents(), registry.markers, q, before, now, heard, d, origin,
                     Without(origin, KeyOf(q)), cache.entries);
      outcome := Served(d);
    }

    /** The answer is the last decision audited, of an instant of the attempt, and has come about as it must. */
    ghost predicate Serves(q: Request, s: Stamp, now: Time, heard: Checked, d: Decision, origin: Entries, audited: nat)
      reads this, db, clock, store, engine, registry`markers, cache
    {
      && now <= d.evaluatedAt <= clock.time && s == StampFor(store.State(), q.subject, q.tenant)
      && |engine.audit| > audited && engine.audit[|engine.audit| - 1] == d
      && Respond(q, s, now, heard, d, origin)
    }

    /** The cache, if the registry could be read, and then the engine. */
    method Consult(q: Request, before: Stamp, now: Time, readable: bool, ghost origin: Entries)
      returns (outcome: CacheOutcome, ghost heard: Checked)
      requires InOrder() && now == clock.time
      requires cache.entries == if readable then origin else Without(origin, KeyOf(q))
      modifies clock, store, cache, engine, registry`failures
      ensures InOrder() && now <= clock.time && !outcome.NotServed? && (!readable ==> heard.Err?)
      ensures registry.failures == old(registry.failures) + if readable then Failed(heard) else 0
      ensures outcome.Served? ==> Serves(q, before, now, heard, outcome.decision, origin, |old(engine.audit)|)
      ensures outcome.StampMoved? ==>
        && outcome.after != before && |engine.audit| >= |old(engine.audit)|
        && Without(cache.entries, KeyOf(q)) == Without(origin, KeyOf(q))
    {
      var available := readable;
      if available {
        outcome, heard := FromCache(q, before, now);
        if !outcome.NotServed? { return; }
        available := outcome.available;
      }
      outcome, heard := FromEngine(q, before, now, available, origin);
    }

    /** One attempt of the retry loop: at `now`, under the stamp `before`, the registry saying `heard`. */
    method Attempt(q: Request) returns (outcome: CacheOutcome, before: Stamp, now: Time, ghost heard: Checked)
      requires InOrder()
      modifies clock, store, cache, engine, registry`failures
      ensures InOrder() && old(clock.time) <= now <= clock.time && !outcome.NotServed?
      ensures registry.failures == old(registry.failures) + Failed(heard)
      ensures outcome.Served? ==>
        Serves(q, before, now, heard, outcome.decision, old(cache.entries), |old(engine.audit)|)
      ensures outcome.StampMoved? ==>
        && outcome.after != before && |engine.audit| >= |old(engine.audit)|
        && Without(cache.entries, KeyOf(q)) == Without(old(cache.entries), KeyOf(q))
    {
      now := Tick();
      before := ReadStamp(q);
      var revoked := RequestRevocation(q, before, now);
      heard := revoked;
      if revoked.Ok? && revoked.value.Some? {
        var denial := Refuse(q, revoked.value.value, before, now);
        return Served(denial), before, now, heard;
      }
      if revoked.Err? { Forget(q); }
      outcome, heard := Consult(q, before, now, revoked.Ok?, old(cache.entries));
    }

    /** Answers a request.  Between whole service calls, with the registry failing at will and sessions
    coming and going, it answers as the engine does, or denies by a marker, and the answer is the last decision
    audited; it gives up only when the stamp moved in every one of its `maxRetries + 1` attempts.  The last attempt
    began at `at` and the registry said `heard`: a marker that stands denies, and an ALLOW it did not stand against
    is cached. */
    method Authorize(q: Request)
      returns (answer: Result<Decision, RuntimeError>, ghost moved: seq<(Stamp, Stamp)>, ghost at: Time,
               ghost heard: Checked)
      requires InOrder()
      modifies clock, store, cache, engine, registry`failures
      ensures InOrder() && old(clock.time) <= clock.time && registry.failures >= old(registry.failures)
      ensures registry.failures == old(registry.failures) ==> heard.Ok?
      ensures answer.Ok? ==>
        && old(clock.time) <= at <= answer.value.evaluatedAt <= clock.time
        && Audited(answer.value, old(engine.audit))
        && Heard(q, StampFor(store.State(), q.subject, q.tenant), at, heard, answer.value)
      ensures answer.Err? ==> |moved| == maxRetries + 1 && forall p :: p in moved ==> p.0 != p.1
    {
      moved, at, heard := [], clock.time, Ok(None);
      for attempt := 0 to maxRetries + 1
        invariant InOrder() && clock.time >= old(clock.time) && |engine.audit| >= |old(engine.audit)|
        invariant registry.failures >= old(registry.failures)
        invariant registry.failures == old(registry.failures) ==> heard.Ok?
        invariant |moved| == attempt && forall p :: p in moved ==> p.0 != p.1
      {
        ghost var entries := cache.entries;
        var outcome, before, now, said := Attempt(q);
        at, heard := now, said;
        if outcome.Served? {
          AnsweredTells(Settings(), db.Contents(), registry.markers, q, before, now, heard, outcome.decision, entries,
                        cache.entries);
          return Ok(outcome.decision), moved, at, heard;
        }
        moved := moved + [(before, outcome.after)];
      }
      answer := Err(AuthorizationRuntimeUnavailable);
    }

    /** What the registry said decides between the marker's denial and the engine's decision, and whether an ALLOW is
    now in the cache. */
    ghost predicate Heard(q: Request, s: Stamp, at: Time, heard: Checked, d: Decision)
      reads this, db, engine, registry`markers, cache
    {
      Tells(Settings(), db.Contents(), registry.markers, q, s, at, heard, d, cache.entries)
    }
  }

  /** What the registry said is what it holds of the request; a marker that stands denies, and otherwise the engine's
  decision is the answer. */
  ghost predicate Told(r: Repositories, maxDepth: nat, ms: Markers, q: Request, s: Stamp, at: Time, heard: Checked,
                       d: Decision)
  {
    && (heard.Ok? ==> heard.value == RequestMarkerOf(ms, q, s, at))
    && (if heard.Ok? && heard.value.Some? then DeniesFor(r, maxDepth, q, heard.value.value, d)
        else d == Authorization.Authorize(r, maxDepth, q, d.evaluatedAt))
  }

  /** And an ALLOW is in the cache exactly if the registry was reached, under the current stamp. */
  ghost predicate Tells(cfg: Config, r: Repositories, ms: Markers, q: Request, s: Stamp, at: Time, heard: Checked,
                        d: Decision, entries: Entries)
  {
    && Told(r, cfg.maxDepth, ms, q, s, at, heard, d)
    && (KeyOf(q) in entries <==> heard == Ok(None) && d.allowed)
    && (KeyOf(q) in entries ==>
          var e := entries[KeyOf(q)];
          e.stamp == s && e.decision == FromDecision(d) && at < e.expiresAt)
  }

  // ---------------------------------------------------------------- the steps of one answer

  lemma FewerEntries(cfg: Config, clock: Time, r: Repositories, v: Versions, entries: Entries, fewer: Entries)
    requires Invariant(cfg, Quiescent(clock, r, v, entries))
    requires forall key :: key in fewer ==> key in entries && fewer[key] == entries[key]
    ensures Invariant(cfg, Quiescent(clock, r, v, fewer))
  {
    var s, s' := Quiescent(clock, r, v, entries), Quiescent(clock, r, v, fewer);
    forall key | key in fewer ensures EntryOk(cfg, s, key, fewer[key]) { assert EntryOk(cfg, s, key, entries[key]); }
    CallsKeepInvariant(cfg, s, s');
  }

  lemma MoreEntries(cfg: Config, clock: Time, r: Repositories, v: Versions, entries: Entries, q: Request, now: Time,
                    d: Decision)
    requires Invariant(cfg, Quiescent(clock, r, v, entries)) && now <= clock && d.allowed
    requires d == Authorize(r, cfg.maxDepth, q, clock)
    ensures var e := Entry(FromDecision(d), StampFor(v, q.subject, q.tenant), now, ExpiryOf(cfg, d, now));
      Invariant(cfg, Quiescent(clock, r, v, entries[KeyOf(q) := e]))
  {
    var s := Quiescent(clock, r, v, entries);
    var e := Entry(FromDecision(d), StampOf(s, q), now, ExpiryOf(cfg, d, now));
    var s' := Quiescent(clock, r, v, entries[KeyOf(q) := e]);
    ViewDecides(r, cfg.maxDepth, q, clock);
    ViewPostdated(s, q);
    StoredIsJustified(cfg, s, q, StampOf(s, q), clock, d, now);
    CallsKeepInvariant(cfg, s, s');
  }

  /** A valid entry for the request's key is the engine's ALLOW at this instant. */
  lemma CachedIsCurrent(cfg: Config, now: Time, r: Repositories, v: Versions, entries: Entries, q: Request)
    requires Invariant(cfg, Quiescent(now, r, v, entries))
    requires KeyOf(q) in entries && entries[KeyOf(q)].ValidFor(StampFor(v, q.subject, q.tenant), now)
    ensures var c := entries[KeyOf(q)].decision;
      && ToDecision(c, q, now) == Authorize(r, cfg.maxDepth, q, now) && c.allowed
      && c == FromDecision(Authorize(r, cfg.maxDepth, q, now))
  {
    var s := Quiescent(now, r, v, entries);
    var key := KeyOf(q);
    InvariantCoherent(cfg, s);
    assert UpToDate(s, key, entries[key].stamp);
    RehydratedDecision(r, cfg.maxDepth, key, q, now, now);
    DecisionStamped(r, cfg.maxDepth, q, now);
  }

  /** The marker that denies the request's subject or, failing that, its tenant. */
  function RequestMarkerOf(ms: Markers, q: Request, s: Stamp, at: Time): Option<Marker> {
    var m := Applicable(ms, IdentityTarget, q.subject, s.identity, at);
    if m.Some? then m else Applicable(ms, TenantTarget, q.tenant, s.tenant, at)
  }

  /** The marker that denies the membership or, failing that, the binding a decision names. */
  function DecisionMarkerOf(ms: Markers, c: CachedDecision, s: Stamp, at: Time): Option<Marker> {
    var m := if c.membership.Some? then Applicable(ms, MembershipTarget, c.membership.value, s.membership, at)
      else None;
    if m.Some? then m
    else if c.binding.Some? then Applicable(ms, BindingTarget, c.binding.value, s.subjectAuthorization, at)
    else None
  }

  /** The registry holds this marker of the target, and it applies at this instant and version. */
  predicate MarkerApplies(ms: Markers, target: RevocationTarget, id: nat, version: nat, at: Time, m: Marker) {
    && (target, id) in ms && ms[(target, id)] == m
    && m.revokedAt <= at && (m.expiresAt.Some? ==> at < m.expiresAt.value)
    && (m.version.Some? ==> version <= m.version.value)
  }

  /** A request is denied by a marker of its subject, and otherwise by one of its tenant. */
  lemma RequestMarkerExact(ms: Markers, q: Request, s: Stamp, at: Time, m: Marker)
    ensures RequestMarkerOf(ms, q, s, at) == Some(m)
       <==> || MarkerApplies(ms, IdentityTarget, q.subject, s.identity, at, m)
            || (MarkerApplies(ms, TenantTarget, q.tenant, s.tenant, at, m)
                && forall x :: !MarkerApplies(ms, IdentityTarget, q.subject, s.identity, at, x))
  {
    if (IdentityTarget, q.subject) in ms {
      var x := ms[(IdentityTarget, q.subject)];
      assert MarkerApplies(ms, IdentityTarget, q.subject, s.identity, at, x)
        <==> Applicable(ms, IdentityTarget, q.subject, s.identity, at) == Some(x);
    }
  }

  /** A decision is overruled by a marker of the membership it rests on, and otherwise by one of the binding. */
  lemma DecisionMarkerExact(ms: Markers, c: CachedDecision, s: Stamp, at: Time, m: Marker)
    ensures DecisionMarkerOf(ms, c, s, at) == Some(m)
       <==> || (c.membership.Some? && MarkerApplies(ms, MembershipTarget, c.membership.value, s.membership, at, m))
            || (c.binding.Some? && MarkerApplies(ms, BindingTarget, c.binding.value, s.subjectAuthorization, at, m)
                && forall x ::
                     !(c.membership.Some? && MarkerApplies(ms, MembershipTarget, c.membership.value, s.membership, at,
                                                           x)))
  {
    if c.membership.Some? && (MembershipTarget, c.membership.value) in ms {
      var x := ms[(MembershipTarget, c.membership.value)];
      assert MarkerApplies(ms, MembershipTarget, c.membership.value, s.membership, at, x)
        <==> Applicable(ms, MembershipTarget, c.membership.value, s.membership, at) == Some(x);
    }
  }

  ghost predicate RequestMarker(ms: Markers, q: Request, s: Stamp, at: Time, m: Marker) {
    RequestMarkerOf(ms, q, s, at) == Some(m)
  }

  /** An identity or tenant marker that applies denies only what the engine denies too. */
  lemma RequestMarkerDenies(cfg: Config, clock: Time, r: Repositories, v: Versions, entries: Entries, ms: Markers,
                            q: Request, at: Time, m: Marker)
    requires Trusted(cfg, clock, r, v, entries, ms) && RequestMarker(ms, q, StampFor(v, q.subject, q.tenant), at, m)
    ensures m in ms.Values
    ensures DeniesFor(r, cfg.maxDepth, q, m, RevocationDenial(q, m, at))
  {
    ScreenExact(r, q, at);
    if Some(m) == Applicable(ms, IdentityTarget, q.subject, StampFor(v, q.subject, q.tenant).identity, at) {
      assert (IdentityTarget, q.subject) in ms;
      ApplicableMeansInactive(r, v, ms, IdentityTarget, q.subject, at);
    } else {
      assert (TenantTarget, q.tenant) in ms;
      ApplicableMeansInactive(r, v, ms, TenantTarget, q.tenant, at);
    }
  }

  lemma StoredAllow(cfg: Config, r: Repositories, q: Request, s: Stamp, now: Time, d: Decision, entries: Entries)
    requires UniqueIds(r.bindings) && cfg.ttl > 0 && now <= d.evaluatedAt
    requires d == Authorize(r, cfg.maxDepth, q, d.evaluatedAt)
    ensures ExpiryOf(cfg, d, now) > now
    ensures var after := entries[KeyOf(q) := Entry(FromDecision(d), s, now, ExpiryOf(cfg, d, now))];
      CachedIn(after, cfg, q, s, now, d) && Without(after, KeyOf(q)) == Without(entries, KeyOf(q))
  {
    DecisionWellFormed(r, cfg.maxDepth, q, d.evaluatedAt);
  }

  lemma SettledAnswers(cfg: Config, r: Repositories, ms: Markers, q: Request, s: Stamp, now: Time, heard: Checked,
                       d: Decision, before: Entries, left: Entries, after: Entries)
    requires left == Without(before, KeyOf(q)) && Settled(cfg, r, ms, q, s, now, heard, d, left, after)
    requires heard == Ok(None) ==> !(KeyOf(q) in before && before[KeyOf(q)].ValidFor(s, now))
    ensures Answered(cfg, r, ms, q, s, now, heard, d, before, after)
  {
  }

  /** What an answered request tells of the registry and the cache. */
  lemma AnsweredTells(cfg: Config, r: Repositories, ms: Markers, q: Request, s: Stamp, at: Time, heard: Checked,
                      d: Decision, before: Entries, after: Entries)
    requires Answered(cfg, r, ms, q, s, at, heard, d, before, after)
    requires cfg.ttl > 0 && at <= d.evaluatedAt && UniqueIds(r.bindings)
    ensures Tells(cfg, r, ms, q, s, at, heard, d, after)
  {
    DecisionWellFormed(r, cfg.maxDepth, q, d.evaluatedAt);
    DecisionStamped(r, cfg.maxDepth, q, at);
  }

  lemma SessionEventKeepsTrusted(cfg: Config, clock: Time, r: Repositories, v: Versions, entries: Entries, ms: Markers,
                                 someone: IdentityId)
    requires Trusted(cfg, clock, r, v, entries, ms)
    ensures Trusted(cfg, clock, r, Bump(v, AuthenticationState(someone)), entries, ms)
  {
    var d := AuthenticationState(someone);
    var s := Quiescent(clock, r, v, entries);
    InvariantStep(cfg, s, Announce(d));
    InvariantStep(cfg, Next(cfg, s, Announce(d)), BumpDimension(d));
    assert multiset{} + multiset{d} - multiset{d} == multiset{};
    BumpExact(v, d, 0, 0);
    forall key | key in ms ensures MarkerOk(r, Bump(v, d), key, ms[key]) { assert MarkerOk(r, v, key, ms[key]); }
  }

  lemma {:induction false} FoundById(ms: seq<Membership>, i: IdentityId, t: TenantId)
    requires UniqueMemberships(ms) && FindMembership(ms, i, t).Some?
    ensures var m := FindMembership(ms, i, t).value;
      m.identity == i && m.tenant == t && m in ms && MembershipById(ms, m.id) == Some(m)
  {
    if !(ms[0].identity == i && ms[0].tenant == t) {
      FoundById(ms[1..], i, t);
    }
  }

  lemma {:induction false} BindingFoundById(bs: seq<RoleBinding>, b: RoleBinding)
    requires UniqueIds(bs) && b in bs
    ensures BindingById(bs, b.id) == Some(b)
  {
    if bs[0] != b {
      var i :| 0 <= i < |bs| && bs[i] == b;
      assert bs[1..][i - 1] == b;
      BindingFoundById(bs[1..], b);
    }
  }

  /** The membership and the binding named by an ALLOW are stored, and active. */
  lemma AllowNames(r: Repositories, maxDepth: nat, q: Request, now: Time)
    requires Sound(r) && UniqueMemberships(r.memberships) && Authorize(r, maxDepth, q, now).allowed
    ensures var d := Authorize(r, maxDepth, q, now);
      && d.membership.Some? && Alive(r, MembershipTarget, d.membership.value)
      && MarkerDimension(r, MembershipTarget, d.membership.value) == Some(MembershipState(q.subject, q.tenant))
      && d.binding.Some? && Alive(r, BindingTarget, d.binding.value)
      && MarkerDimension(r, BindingTarget, d.binding.value) == Some(SubjectAuthorization(q.subject, q.tenant))
  {
    var b := AllowRests(r, maxDepth, q, now);
    AllowFollows(r, maxDepth, q, now, b);
    FoundById(r.memberships, q.subject, q.tenant);
    BindingFoundById(r.bindings, b);
  }

  lemma LiveTargetUnmarked(r: Repositories, v: Versions, ms: Markers, target: RevocationTarget, id: nat, at: Time)
    requires MarkersOk(r, v, ms) && target != SessionTarget && MarkerDimension(r, target, id).Some?
      && Alive(r, target, id)
    ensures Applicable(ms, target, id, VersionOf(v, MarkerDimension(r, target, id).value), at).None?
  {
    if Applicable(ms, target, id, VersionOf(v, MarkerDimension(r, target, id).value), at).Some? {
      ApplicableMeansInactive(r, v, ms, target, id, at);
    }
  }

  /** No marker applies to the membership or the binding a current ALLOW rests on. */
  lemma NoDecisionMarker(cfg: Config, clock: Time, r: Repositories, v: Versions, entries: Entries, ms: Markers,
                         q: Request, now: Time, at: Time)
    requires Trusted(cfg, clock, r, v, entries, ms) && Authorize(r, cfg.maxDepth, q, now).allowed
    ensures var s := StampFor(v, q.subject, q.tenant);
      var d := Authorize(r, cfg.maxDepth, q, now);
      && d.membership.Some? && Applicable(ms, MembershipTarget, d.membership.value, s.membership, at).None?
      && d.binding.Some? && Applicable(ms, BindingTarget, d.binding.value, s.subjectAuthorization, at).None?
  {
    AllowNames(r, cfg.maxDepth, q, now);
    var d := Authorize(r, cfg.maxDepth, q, now);
    LiveTargetUnmarked(r, v, ms, MembershipTarget, d.membership.value, at);
    LiveTargetUnmarked(r, v, ms, BindingTarget, d.binding.value, at);
  }
}
