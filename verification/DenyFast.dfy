/** What publication leaves behind: the versions each event moves, and the deny-fast markers of the events that take
something away. */
module DenyFast {
  import opened Prelude
  import opened Authorization
  import opened SecurityState
  import opened Writes
  import opened DecisionCache
  import opened Coherence
  import opened Revocation
  import opened Mutations
  import opened Services
  import opened AuthorizationRuntime

  // ---------------------------------------------------------------- versions

  /** The stamp of a subject in a tenant after an event: at most one of its versions has moved, by one. */
  function StampAfter(s: Stamp, e: DomainEvent, i: IdentityId, t: TenantId): Stamp {
    match e
    case IdentityEvent(_, x, _) => if x == i then s.(identity := s.identity + 1) else s
    case IdentityLinkEvent(x, _) => if x == i then s.(authentication := s.authentication + 1) else s
    case TenantEvent(_, y, _) => if y == t then s.(tenant := s.tenant + 1) else s
    case MembershipEvent(_, _, x, y, _) => if x == i && y == t then s.(membership := s.membership + 1) else s
    case BindingEvent(_, _, x, y, _) =>
      if x == i && y == t then s.(subjectAuthorization := s.subjectAuthorization + 1) else s
    case RoleEvent(_, _, owner, _) =>
      if owner.None? then s.(globalAuthorization := s.globalAuthorization + 1)
      else if owner.value == t then s.(tenantAuthorization := s.tenantAuthorization + 1) else s
    case PermissionEvent(_) => s.(globalAuthorization := s.globalAuthorization + 1)
    case GovernanceEvent(_, owner, _) =>
      if owner.None? then s.(runtimeGeneration := s.runtimeGeneration + 1)
      else if owner.value == t then s.(governance := s.governance + 1) else s
    case AuthenticationEvent(_, x, _, _, _) => if x == i then s.(authentication := s.authentication + 1) else s
    case UnrelatedEvent(_) => s
  }

  lemma PublishedStamps(v: Versions, ms: Markers, e: DomainEvent, v': Versions, ms': Markers, raised: bool, lost: nat)
    requires Published(v, ms, [e], v', ms', raised, lost)
    ensures forall i, t :: StampFor(v', i, t) == StampAfter(StampFor(v, i, t), e, i, t)
  {
    AppliedAlone(v, ms, e, v', ms', raised, lost);
    forall i, t ensures StampFor(v', i, t) == StampAfter(StampFor(v, i, t), e, i, t) { StampMoves(v, e, i, t); }
  }

  lemma StampMoves(v: Versions, e: DomainEvent, i: IdentityId, t: TenantId)
    ensures var v' := if Advances(e).None? then v else Bump(v, Advances(e).value);
      StampFor(v', i, t) == StampAfter(StampFor(v, i, t), e, i, t)
  {
    if Advances(e).Some? { StampBumps(v, Advances(e).value, i, t); }
  }

  lemma StampBumps(v: Versions, d: Dimension, i: IdentityId, t: TenantId)
    ensures var s, s' := StampFor(v, i, t), StampFor(Bump(v, d), i, t);
      if !Touches(d, i, t) then s' == s
      else
        match d
        case RuntimeGeneration => s' == s.(runtimeGeneration := s.runtimeGeneration + 1)
        case IdentityState(_) => s' == s.(identity := s.identity + 1)
        case TenantState(_) => s' == s.(tenant := s.tenant + 1)
        case MembershipState(_, _) => s' == s.(membership := s.membership + 1)
        case SubjectAuthorization(_, _) => s' == s.(subjectAuthorization := s.subjectAuthorization + 1)
        case TenantAuthorization(_) => s' == s.(tenantAuthorization := s.tenantAuthorization + 1)
        case GlobalAuthorization => s' == s.(globalAuthorization := s.globalAuthorization + 1)
        case GovernanceState(_) => s' == s.(governance := s.governance + 1)
        case AuthenticationState(_) => s' == s.(authentication := s.authentication + 1)
  {
  }

  lemma AppliedAlone(v: Versions, ms: Markers, e: DomainEvent, v': Versions, ms': Markers, raised: bool, lost: nat)
    requires Published(v, ms, [e], v', ms', raised, lost)
    ensures Applied(v, ms, e, v', ms', raised, lost)
  {
    var trail :| Leads(trail, Mark(v, ms, 0), [e], Mark(v', ms', lost), raised);
    assert !raised ==> OneStep(trail[0], e, trail[0 + 1], false);
  }

  /** The message names the dimension of the event, the version it now has, and the event's time. */
  predicate Announces(i: Invalidation, e: DomainEvent, v: Versions) {
    && i.occurredAt == e.at
    && match e
       case IdentityEvent(_, x, _) => i.dimension == IdentityState(x) && i.version == Get(v.identity, x)
       case IdentityLinkEvent(x, _) => i.dimension == AuthenticationState(x) && i.version == Get(v.authentication, x)
       case TenantEvent(_, t, _) => i.dimension == TenantState(t) && i.version == Get(v.tenant, t)
       case MembershipEvent(_, _, x, t, _) =>
         i.dimension == MembershipState(x, t) && i.version == Get(v.membership, (x, t))
       case BindingEvent(_, _, x, t, _) =>
         i.dimension == SubjectAuthorization(x, t) && i.version == Get(v.subjectAuthorization, (x, t))
       case RoleEvent(_, _, Some(t), _) =>
         i.dimension == TenantAuthorization(t) && i.version == Get(v.tenantAuthorization, t)
       case RoleEvent(_, _, None, _) => i.dimension == GlobalAuthorization && i.version == v.globalAuthorization
       case PermissionEvent(_) => i.dimension == GlobalAuthorization && i.version == v.globalAuthorization
       case GovernanceEvent(_, Some(t), _) => i.dimension == GovernanceState(t) && i.version == Get(v.governance, t)
       case GovernanceEvent(_, None, _) => i.dimension == RuntimeGeneration && i.version == v.runtimeGeneration
       case AuthenticationEvent(_, x, _, _, _) =>
         i.dimension == AuthenticationState(x) && i.version == Get(v.authentication, x)
       case UnrelatedEvent(_) => false
  }

  /** One message for each event but the unrelated ones, in order, with the versions as they are right after it. */
  lemma {:induction false} InvalidationsExact(v: Versions, events: seq<DomainEvent>, e: DomainEvent)
    ensures InvalidationsOf(v, []) == []
    ensures var sent, after := InvalidationsOf(v, events), BumpAll(v, events + [e]);
      if e.UnrelatedEvent? then InvalidationsOf(v, events + [e]) == sent
      else exists i :: Announces(i, e, after) && InvalidationsOf(v, events + [e]) == sent + [i]
  {
    BumpMore(v, events, e);
    var before, after := BumpAll(v, events), BumpAll(v, events + [e]);
    assert [e][1..] == [];
    if Advances(e).Some? {
      var d := Advances(e).value;
      BumpExact(before, d, 0, 0);
      var i := Invalidation(d, VersionOf(before, d) + 1, e.at);
      assert InvalidationsOf(before, [e]) == [i] + InvalidationsOf(Bump(before, d), []);
      assert Announces(i, e, after);
    }
  }

  // ---------------------------------------------------------------- markers

  /** The event takes something away from this target. */
  predicate Revokes(e: DomainEvent, target: RevocationTarget, id: nat) {
    match e
    case IdentityEvent(c, i, _) =>
      target == IdentityTarget && id == i && (c == IdentitySuspended || c == IdentityDisabled || c == IdentityArchived)
    case TenantEvent(c, t, _) =>
      target == TenantTarget && id == t && (c == TenantSuspended || c == TenantDisabled || c == TenantArchived)
    case MembershipEvent(c, m, _, _, _) =>
      target == MembershipTarget && id == m
      && (c == MembershipSuspension || c == MembershipRevocation || c == MembershipExpiry)
    case BindingEvent(c, b, _, _, _) =>
      target == BindingTarget && id == b && (c == BindingSuspension || c == BindingRevocation || c == BindingExpiry)
    case AuthenticationEvent(c, _, s, _, _) => target == SessionTarget && id == s && c == SessionRevoked
    case _ => false
  }

  /** The type name under which the event is published. */
  predicate Named(e: DomainEvent, name: string) {
    match e
    case IdentityEvent(IdentitySuspended, _, _) => name == "IdentitySuspended"
    case IdentityEvent(IdentityDisabled, _, _) => name == "IdentityDisabled"
    case IdentityEvent(IdentityArchived, _, _) => name == "IdentityArchived"
    case TenantEvent(TenantSuspended, _, _) => name == "TenantSuspended"
    case TenantEvent(TenantDisabled, _, _) => name == "TenantDisabled"
    case TenantEvent(TenantArchived, _, _) => name == "TenantArchived"
    case MembershipEvent(MembershipSuspension, _, _, _, _) => name == "MembershipSuspended"
    case MembershipEvent(MembershipRevocation, _, _, _, _) => name == "MembershipRevoked"
    case MembershipEvent(MembershipExpiry, _, _, _, _) => name == "MembershipExpired"
    case BindingEvent(BindingSuspension, _, _, _, _) => name == "RoleBindingSuspended"
    case BindingEvent(BindingRevocation, _, _, _, _) => name == "RoleBindingRevoked"
    case BindingEvent(BindingExpiry, _, _, _, _) => name == "RoleBindingExpired"
    case AuthenticationEvent(SessionRevoked, _, _, _, _) => name == "SessionRevoked"
    case _ => false
  }

  /** The marker tells of the event: when, why, until when, and at which version of its target's dimension. */
  predicate TellsOf(m: Marker, e: DomainEvent, v: Versions) {
    && m.revokedAt == e.at && Named(e, m.reason)
    && (match e
        case IdentityEvent(_, i, _) =>
          m.version == Some(Get(v.identity, i)) && m.tenant.None? && m.expiresAt.None?
        case TenantEvent(_, t, _) =>
          m.version == Some(Get(v.tenant, t)) && m.tenant == Some(t) && m.expiresAt.None?
        case MembershipEvent(_, _, i, t, _) =>
          m.version == Some(Get(v.membership, (i, t))) && m.tenant == Some(t) && m.expiresAt.None?
        case BindingEvent(_, _, i, t, _) =>
          m.version == Some(Get(v.subjectAuthorization, (i, t))) && m.tenant == Some(t) && m.expiresAt.None?
        case AuthenticationEvent(_, _, _, expiry, _) => m.version.None? && m.tenant.None? && m.expiresAt == Some(expiry)
        case _ => false)
  }

  /** `b` is later than `a`: by version where both have one, and by time otherwise. */
  predicate Later(a: Marker, b: Marker) {
    if a.version.Some? && b.version.Some? then a.version.value < b.version.value else a.revokedAt < b.revokedAt
  }

  /** What a reached registry holds for the target after the event: a marker that tells of it; unless it held a later
  one, or a different one just as late, which is a conflict and raised. */
  ghost predicate HeldAfter(ms: Markers, e: DomainEvent, target: RevocationTarget, id: nat, v': Versions, ms': Markers,
                            raised: bool)
  {
    exists m: Marker :: m.target == target && m.id == id && TellsOf(m, e, v')
      && match Held(ms, target, id)
         case None => Held(ms', target, id) == Some(m) && !raised
         case Some(h) =>
           if Later(m, h) then Held(ms', target, id) == Some(h) && !raised
           else if Later(h, m) || h == m then Held(ms', target, id) == Some(m) && !raised
           else Held(ms', target, id) == Some(h) && raised
  }

  lemma MarkerTells(e: DomainEvent, v: Versions)
    requires Advances(e).Some?
    ensures var m := MarkerOf(e, VersionOf(v, Advances(e).value));
      && (m.Some? ==> Revokes(e, m.value.target, m.value.id) && TellsOf(m.value, e, v))
      && (forall target, id :: Revokes(e, target, id) ==> m.Some? && m.value.target == target && m.value.id == id)
  {
  }

  /** One event, published over a registry that was reached: exactly the events that take something away leave a
  marker, of their own target; every other marker stays. */
  lemma ReachedRegistryHolds(v: Versions, ms: Markers, e: DomainEvent, v': Versions, ms': Markers, raised: bool)
    requires Published(v, ms, [e], v', ms', raised, 0)
    ensures forall target, id :: Revokes(e, target, id) ==> HeldAfter(ms, e, target, id, v', ms', raised)
    ensures forall target, id :: !Revokes(e, target, id) ==> Held(ms', target, id) == Held(ms, target, id)
    ensures (forall target, id :: !Revokes(e, target, id)) ==> ms' == ms && !raised
  {
    AppliedAlone(v, ms, e, v', ms', raised, 0);
    if Advances(e).Some? {
      MarkerTells(e, v');
      forall target, id | Revokes(e, target, id)
        ensures HeldAfter(ms, e, target, id, v', ms', raised)
      {
        JudgeExact(Held(ms, target, id), MarkerOf(e, VersionOf(v', Advances(e).value)).value);
      }
    }
  }

  /** A later marker replaces an earlier one; an earlier one is ignored; and of two that are as late as each other
  the one held stays, which is a conflict unless they are the same. */
  lemma JudgeExact(held: Option<Marker>, m: Marker)
    ensures var verdict := Judge(held, m);
      if held.None? || held.value == m then verdict == Accepted
      else if Later(m, held.value) then verdict == Ignored
      else if Later(held.value, m) then verdict == Accepted
      else verdict == Conflicting
  {
  }

  /** A registry that was not reached keeps what it had, and the versions move all the same. */
  lemma LostMarker(v: Versions, ms: Markers, e: DomainEvent, v': Versions, ms': Markers, raised: bool, lost: nat)
    requires Published(v, ms, [e], v', ms', raised, lost) && lost > 0
    ensures lost == 1 && ms' == ms && !raised && exists target, id :: Revokes(e, target, id)
  {
    AppliedAlone(v, ms, e, v', ms', raised, lost);
    MarkerTells(e, v');
    var m := MarkerOf(e, VersionOf(v', Advances(e).value)).value;
    assert Revokes(e, m.target, m.id);
  }

  // ---------------------------------------------------------------- service calls

  /** The call takes something away from this target. */
  predicate TakesAway(c: Command, target: RevocationTarget, id: nat) {
    match c
    case ChangeIdentity(i, change) =>
      target == IdentityTarget && id == i && (change == Suspend || change == Disable || change == Archive)
    case ChangeTenant(t, change) =>
      target == TenantTarget && id == t && (change == Suspend || change == Disable || change == Archive)
    case ChangeMembership(m, change) =>
      target == MembershipTarget && id == m && (change == SuspendMembership || change == RevokeMembership)
    case ChangeBinding(b, change) =>
      target == BindingTarget && id == b && (change == SuspendBinding || change == RevokeBinding)
    case _ => false
  }

  lemma CallRevokes(r: Repositories, maxDepth: nat, now: Time, c: Command, target: RevocationTarget, id: nat)
    requires Execute(r, maxDepth, now, c).Ok?
    ensures var saved := Execute(r, maxDepth, now, c).value;
      TakesAway(c, target, id) <==> exists e :: e in saved.events && Revokes(e, target, id)
    ensures var saved := Execute(r, maxDepth, now, c).value;
      TakesAway(c, target, id) ==>
        |saved.events| == 1 && Revokes(saved.events[0], target, id) && saved.events[0].at == now
  {
    ShortEvents(r, maxDepth, now, c);
    CallEvents(r, maxDepth, now, c);
    var saved := Execute(r, maxDepth, now, c).value;
    if c.ChangeMembership? { MembershipByIdFound(r.memberships, c.membership); }
    if c.ChangeBinding? { BindingByIdFound(r.bindings, c.binding); }
    if saved.events != [] { assert saved.events[0] in saved.events; }
  }

  /** The kind of event each call publishes. */
  lemma CallEvents(r: Repositories, maxDepth: nat, now: Time, c: Command)
    requires Execute(r, maxDepth, now, c).Ok?
    ensures var events := Execute(r, maxDepth, now, c).value.events;
      forall e :: e in events ==>
        && e.at == now
        && (e.IdentityEvent? ==> c.ChangeIdentity? || c.CreateIdentity?)
        && (e.TenantEvent? ==> c.ChangeTenant? || c.CreateTenant?)
        && (e.MembershipEvent? ==> c.ChangeMembership? || c.CreateMembership?)
        && (e.BindingEvent? ==> c.ChangeBinding? || c.AssignRole?) && !e.AuthenticationEvent?
  {
  }

  /** The deny-fast promise: right after a call that takes something away, over a registry that was reached, the
  registry holds a marker of the target that applies, at this instant and ever after, for as long as the target's
  version stands. */
  lemma RevocationHeld(cfg: Config, clock: Time, r: Repositories, v: Versions, entries: Entries, ms: Markers, now: Time,
                       c: Command, v': Versions, ms': Markers, raised: bool, target: RevocationTarget, id: nat)
    requires Trusted(cfg, clock, r, v, entries, ms) && clock <= now && FreshIds(r, c)
    requires Execute(r, cfg.maxDepth, now, c).Ok? && TakesAway(c, target, id)
    requires Published(v, ms, Execute(r, cfg.maxDepth, now, c).value.events, v', ms', raised, 0)
    ensures Standing(ApplyWrite(r, Execute(r, cfg.maxDepth, now, c).value.write), v', ms', target, id, now)
  {
    var saved := Execute(r, cfg.maxDepth, now, c).value;
    TimePasses(cfg, clock, now, r, v, entries, ms);
    CallLawful(r, cfg.maxDepth, now, c);
    CallRevokes(r, cfg.maxDepth, now, c, target, id);
    LawfulRevocationHeld(now, r, v, ms, saved, v', ms', raised, target, id);
  }

  lemma LawfulRevocationHeld(now: Time, r: Repositories, v: Versions, ms: Markers, saved: Saved, v': Versions,
                             ms': Markers, raised: bool, target: RevocationTarget, id: nat)
    requires MarkersOk(r, v, ms) && Lawful(r, now, saved) && Published(v, ms, saved.events, v', ms', raised, 0)
    requires |saved.events| == 1 && Revokes(saved.events[0], target, id) && saved.events[0].at == now
    requires target != SessionTarget
    ensures Standing(ApplyWrite(r, saved.write), v', ms', target, id, now)
  {
    var e := saved.events[0];
    assert saved.events == [e];
    AppliedAlone(v, ms, e, v', ms', raised, 0);
    MarkerTells(e, v');
    var m := MarkerOf(e, VersionOf(v', Advances(e).value)).value;
    TruthfulDimension(saved, e, ApplyWrite(r, saved.write), VersionOf(v', Advances(e).value));
    BumpedAhead(r, v, ms, saved.write, now);
    WriteKeepsMarkers(r, v, ms, saved.write, now);
    FreshMarkerOk(ApplyWrite(r, saved.write), v', ms, saved, e, m);
    RecordedStands(ApplyWrite(r, saved.write), v', ms, m, now);
  }

  lemma TruthfulDimension(saved: Saved, e: DomainEvent, r': Repositories, version: nat)
    requires EventTruthful(saved, e, r') && FirstEventFits(saved) && saved.events[0] == e && MarkerOf(e, version).Some?
    requires MarkerOf(e, version).value.target != SessionTarget
    ensures Advances(e) == Some(DimensionOf(saved.write))
    ensures var m := MarkerOf(e, version).value;
      m.version == Some(version) && MarkerDimension(r', m.target, m.id) == Some(DimensionOf(saved.write))
  {
  }

  lemma RecordedStands(r: Repositories, v: Versions, ms: Markers, m: Marker, now: Time)
    requires MarkerDimension(r, m.target, m.id).Some? && m.revokedAt == now && m.expiresAt.None?
    requires m.version == Some(VersionOf(v, MarkerDimension(r, m.target, m.id).value))
    requires Judge(Held(ms, m.target, m.id), m) == Accepted
    ensures Standing(r, v, Recorded(ms, m), m.target, m.id, now)
  {
  }

  /** A marker of the target, made at `now`, is held, and applies from then on at the version that stands. */
  ghost predicate Standing(r: Repositories, v: Versions, ms: Markers, target: RevocationTarget, id: nat, now: Time) {
    && Held(ms, target, id).Some? && Held(ms, target, id).value.revokedAt == now
    && MarkerDimension(r, target, id).Some?
    && forall at: Time :: at >= now ==>
         Applicable(ms, target, id, VersionOf(v, MarkerDimension(r, target, id).value), at) == Held(ms, target, id)
  }

  /** And a call that takes nothing away leaves the registry as it was. */
  lemma NothingRevoked(cfg: Config, clock: Time, r: Repositories, v: Versions, entries: Entries, ms: Markers, now: Time,
                       c: Command, v': Versions, ms': Markers, raised: bool, lost: nat)
    requires Trusted(cfg, clock, r, v, entries, ms) && clock <= now && FreshIds(r, c)
    requires Execute(r, cfg.maxDepth, now, c).Ok? && forall target, id :: !TakesAway(c, target, id)
    requires Published(v, ms, Execute(r, cfg.maxDepth, now, c).value.events, v', ms', raised, lost)
    ensures ms' == ms && lost == 0
  {
    var saved := Execute(r, cfg.maxDepth, now, c).value;
    ShortEvents(r, cfg.maxDepth, now, c);
    forall target, id, e | e in saved.events
      ensures !Revokes(e, target, id)
    {
      CallRevokes(r, cfg.maxDepth, now, c, target, id);
    }
    if saved.events == [] {
      var trail :| Leads(trail, Mark(v, ms, 0), [], Mark(v', ms', lost), raised);
    } else {
      var e := saved.events[0];
      assert saved.events == [e] && e in saved.events;
      AppliedAlone(v, ms, e, v', ms', raised, lost);
      if Advances(e).Some? {
        MarkerTells(e, v');
        var m := MarkerOf(e, VersionOf(v', Advances(e).value));
        assert m.Some? ==> Revokes(e, m.value.target, m.value.id);
      }
    }
  }
}
