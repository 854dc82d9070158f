/** Domain events, and the event sink that turns them into version bumps and revocation markers. */
module Mutations {
  import opened Prelude
  import opened Authorization
  import opened SecurityState
  import opened Revocation

  datatype IdentityChange =
    | IdentityCreated | IdentityActivated | IdentitySuspended | IdentityReactivated | IdentityDisabled
    | IdentityArchived
  datatype TenantChange =
    | TenantCreated | TenantActivated | TenantSuspended | TenantReactivated | TenantDisabled | TenantArchived
  datatype MembershipChange =
    | MembershipCreated | MembershipActivated | MembershipSuspension | MembershipReactivated | MembershipExpiry
    | MembershipRevocation
  datatype BindingChange = RoleAssigned | BindingExpiry | BindingReactivated | BindingRevocation | BindingSuspension
  datatype RoleChange =
    | RoleCreated | RoleDisabled | ParentAdded | ParentRemoved | PermissionAdded | PermissionRemoved
    | SensitivityChanged | AssignabilityChanged
  datatype AuthenticationChange = SessionRevoked | OtherAuthenticationChange

  /** A published event, with the metadata the sink reads. */
  datatype DomainEvent =
    | IdentityEvent(identityChange: IdentityChange, identity: IdentityId, at: Time)
    | IdentityLinkEvent(identity: IdentityId, at: Time)
    | TenantEvent(tenantChange: TenantChange, tenant: TenantId, at: Time)
    | MembershipEvent(membershipChange: MembershipChange, membership: MembershipId, identity: IdentityId,
                      tenant: TenantId, at: Time)
    | BindingEvent(bindingChange: BindingChange, binding: BindingId, identity: IdentityId, tenant: TenantId, at: Time)
    | RoleEvent(roleChange: RoleChange, role: RoleId, roleTenant: Option<TenantId>, at: Time)
    | PermissionEvent(at: Time)
    | GovernanceEvent(rule: RuleId, ruleTenant: Option<TenantId>, at: Time)
    | AuthenticationEvent(authenticationChange: AuthenticationChange, identity: IdentityId, session: nat,
                          sessionExpiry: Time, at: Time)
    | UnrelatedEvent(at: Time)

  /** The dimension an event advances; None for events that are not security-sensitive. */
  function Advances(e: DomainEvent): Option<Dimension> {
    match e
    case IdentityEvent(_, i, _) => Some(IdentityState(i))
    case IdentityLinkEvent(i, _) => Some(AuthenticationState(i))
    case TenantEvent(_, t, _) => Some(TenantState(t))
    case MembershipEvent(_, _, i, t, _) => Some(MembershipState(i, t))
    case BindingEvent(_, _, i, t, _) => Some(SubjectAuthorization(i, t))
    case RoleEvent(_, _, t, _) => Some(if t.None? then GlobalAuthorization else TenantAuthorization(t.value))
    case PermissionEvent(_) => Some(GlobalAuthorization)
    case GovernanceEvent(_, t, _) => Some(if t.None? then RuntimeGeneration else GovernanceState(t.value))
    case AuthenticationEvent(_, i, _, _, _) => Some(AuthenticationState(i))
    case UnrelatedEvent(_) => None
  }

  /** The deny-fast marker a negative event leaves, at the version its bump returned. */
  function MarkerOf(e: DomainEvent, version: nat): Option<Marker> {
    match e
    case IdentityEvent(c, i, at) =>
      if c.IdentitySuspended? || c.IdentityDisabled? || c.IdentityArchived? then
        Some(Marker(IdentityTarget, i, at, ReasonText(e), None, None, Some(version)))
      else None
    case TenantEvent(c, t, at) =>
      if c.TenantSuspended? || c.TenantDisabled? || c.TenantArchived? then
        Some(Marker(TenantTarget, t, at, ReasonText(e), Some(t), None, Some(version)))
      else None
    case MembershipEvent(c, m, _, t, at) =>
      if c.MembershipSuspension? || c.MembershipRevocation? || c.MembershipExpiry? then
        Some(Marker(MembershipTarget, m, at, ReasonText(e), Some(t), None, Some(version)))
      else None
    case BindingEvent(c, b, _, t, at) =>
      if c.BindingSuspension? || c.BindingRevocation? || c.BindingExpiry? then
        Some(Marker(BindingTarget, b, at, ReasonText(e), Some(t), None, Some(version)))
      else None
    case AuthenticationEvent(c, _, s, expiry, at) =>
      if c.SessionRevoked? then Some(Marker(SessionTarget, s, at, ReasonText(e), None, Some(expiry), None)) else None
    case _ => None
  }

  /** The event's type name, recorded as the marker's reason. */
  function ReasonText(e: DomainEvent): string {
    match e
    case IdentityEvent(c, _, _) =>
      if c.IdentitySuspended? then "IdentitySuspended" else if c.IdentityDisabled? then "IdentityDisabled"
        else "IdentityArchived"
    case TenantEvent(c, _, _) =>
      if c.TenantSuspended? then "TenantSuspended" else if c.TenantDisabled? then "TenantDisabled" else "TenantArchived"
    case MembershipEvent(c, _, _, _, _) =>
      if c.MembershipSuspension? then "MembershipSuspended" else if c.MembershipRevocation? then "MembershipRevoked"
        else "MembershipExpired"
    case BindingEvent(c, _, _, _, _) =>
      if c.BindingSuspension? then "RoleBindingSuspended" else if c.BindingRevocation? then "RoleBindingRevoked"
        else "RoleBindingExpired"
    case _ => "SessionRevoked"
  }

  datatype Invalidation = Invalidation(dimension: Dimension, version: nat, occurredAt: Time)

  /** Versions after the bumps of `events`, in order. */
  function BumpAll(v: Versions, events: seq<DomainEvent>): Versions
    decreases |events|
  {
    if events == [] then v
    else BumpAll(if Advances(events[0]).Some? then Bump(v, Advances(events[0]).value) else v, events[1..])
  }

  function InvalidationsOf(v: Versions, events: seq<DomainEvent>): seq<Invalidation>
    decreases |events|
  {
    if events == [] then []
    else if Advances(events[0]).None? then InvalidationsOf(v, events[1..])
    else
      var d := Advances(events[0]).value;
      [Invalidation(d, VersionOf(v, d) + 1, events[0].at)] + InvalidationsOf(Bump(v, d), events[1..])
  }

  predicate Conflicts(ms: Markers, m: Marker) {
    Judge(Held(ms, m.target, m.id), m).Conflicting?
  }

  /** What applying one event may leave. */
  ghost predicate Applied(v: Versions, ms: Markers, e: DomainEvent, v': Versions, ms': Markers, raised: bool,
                          lost: nat) {
    if Advances(e).None? then v' == v && ms' == ms && !raised && lost == 0
    else
      var marker := MarkerOf(e, VersionOf(v', Advances(e).value));
      && v' == Bump(v, Advances(e).value)
      && (if marker.None? then ms' == ms && !raised && lost == 0
          else if lost > 0 then ms' == ms && !raised && lost == 1
          else ms' == Recorded(ms, marker.value) && (raised <==> Conflicts(ms, marker.value)))
  }

  /** Versions and markers on the way, and how many markers have not reached the registry so far. */
  datatype Mark = Mark(versions: Versions, markers: Markers, lost: nat)

  ghost predicate OneStep(from: Mark, e: DomainEvent, to: Mark, raised: bool) {
    to.lost >= from.lost
    && Applied(from.versions, from.markers, e, to.versions, to.markers, raised, to.lost - from.lost)
  }

  /** The first events applied, one after another. */
  ghost predicate AppliedInTurn(trail: seq<Mark>, events: seq<DomainEvent>) {
    && 1 <= |trail| <= |events| + 1
    && forall k :: 0 <= k < |trail| - 1 ==> OneStep(trail[k], events[k], trail[k + 1], false)
  }

  ghost predicate Leads(trail: seq<Mark>, from: Mark, events: seq<DomainEvent>, to: Mark, raised: bool) {
    && AppliedInTurn(trail, events) && trail[0] == from
    && (if raised then |trail| <= |events| && OneStep(trail[|trail| - 1], events[|trail| - 1], to, true)
        else |trail| == |events| + 1 && trail[|trail| - 1] == to)
  }

  /** Publishing `events` may leave these versions and markers, with `lost` markers that did not reach the registry.
  One that conflicts with the marker held stops the publication there, with an exception. */
  ghost predicate Published(v: Versions, ms: Markers, events: seq<DomainEvent>, v': Versions, ms': Markers,
                            raised: bool, lost: nat)
  {
    exists trail: seq<Mark> :: Leads(trail, Mark(v, ms, 0), events, Mark(v', ms', lost), raised)
  }

  /** Events that have been applied have bumped their dimensions, each once and in order. */
  lemma {:induction false} AppliedBumps(trail: seq<Mark>, events: seq<DomainEvent>, n: nat)
    requires AppliedInTurn(trail, events) && n < |trail|
    ensures trail[n].versions == BumpAll(trail[0].versions, events[..n])
  {
    if n > 0 {
      AppliedBumps(trail, events, n - 1);
      assert OneStep(trail[n - 1], events[n - 1], trail[n - 1 + 1], false);
      BumpMore(trail[0].versions, events[..n - 1], events[n - 1]);
      assert events[..n - 1] + [events[n - 1]] == events[..n];
    }
  }

  lemma {:induction false} BumpMore(v: Versions, events: seq<DomainEvent>, e: DomainEvent)
    ensures BumpAll(v, events + [e])
      == if Advances(e).Some? then Bump(BumpAll(v, events), Advances(e).value) else BumpAll(v, events)
    ensures InvalidationsOf(v, events + [e]) == InvalidationsOf(v, events) + InvalidationsOf(BumpAll(v, events), [e])
    decreases |events|
  {
    if events == [] {
      assert [] + [e] == [e] && [e][1..] == [];
    } else {
      assert (events + [e])[0] == events[0] && (events + [e])[1..] == events[1..] + [e];
      BumpMore(if Advances(events[0]).Some? then Bump(v, Advances(events[0]).value) else v, events[1..], e);
    }
  }

  /** The sink between the services and their event log. */
  class MutationSink {
    const store: SecurityStateStore
    const registry: RevocationRegistry
    var log: seq<DomainEvent>
    var invalidations: seq<Invalidation>

    constructor (store: SecurityStateStore, registry: RevocationRegistry)
      ensures this.store == store && this.registry == registry && log == [] && invalidations == []
    {
      this.store, this.registry := store, registry;
      log, invalidations := [], [];
    }

    /** One event: bump its dimension, record its marker if the registry can be reached, and describe the
    invalidation; a conflicting marker raises. */
    method Apply(e: DomainEvent) returns (invalidation: Option<Invalidation>, raised: bool)
      modifies store, registry
      ensures registry.failures >= old(registry.failures)
      ensures Applied(old(store.State()), old(registry.markers), e, store.State(), registry.markers, raised,
                      registry.failures - old(registry.failures))
      ensures !raised ==>
        InvalidationsOf(old(store.State()), [e]) == if invalidation.None? then [] else [invalidation.value]
    {
      if Advances(e).None? { return None, false; }
      var d := Advances(e).value;
      var version := store.Advance(d);
      var marker := MarkerOf(e, version);
      if marker.Some? {
        var outcome := registry.Record(marker.value);
        if outcome == Some(Conflicting) { return None, true; }
      }
      return Some(Invalidation(d, version, e.at)), false;
    }

    /** Every event is applied before any of them is logged, and before any invalidation is sent. */
    method Publish(events: seq<DomainEvent>) returns (raised: bool)
      modifies this, store, registry
      ensures registry.failures >= old(registry.failures)
      ensures Published(old(store.State()), old(registry.markers), events, store.State(), registry.markers, raised,
                        registry.failures - old(registry.failures))
      ensures log == if raised then old(log) else old(log) + events
      ensures invalidations ==
        if raised then old(invalidations) else old(invalidations) + InvalidationsOf(old(store.State()), events)
    {
      var collected: seq<Invalidation> := [];
      ghost var f0 := registry.failures;
      ghost var here := Mark(store.State(), registry.markers, 0);
      ghost var trail := [here];
      for i := 0 to |events|
        invariant registry.failures >= f0 && log == old(log) && invalidations == old(invalidations)
        invariant |trail| == i + 1 && AppliedInTurn(trail, events)
          && trail[0] == Mark(old(store.State()), old(registry.markers), 0)
        invariant here == trail[i] == Mark(store.State(), registry.markers, registry.failures - f0)
        invariant collected == InvalidationsOf(trail[0].versions, events[..i])
      {
        var invalidation, stopped := Apply(events[i]);
        ghost var next := Mark(store.State(), registry.markers, registry.failures - f0);
        assert OneStep(here, events[i], next, stopped);
        if stopped {
          assert Leads(trail, trail[0], events, next, true);
          return true;
        }
        NextInvalidation(trail, events, i, invalidation);
        collected := collected + if invalidation.None? then [] else [invalidation.value];
        trail, here := trail + [next], next;
      }
      assert Leads(trail, trail[0], events, here, false);
      assert events[..|events|] == events;
      log := log + events;
      invalidations := invalidations + collected;
      raised := false;
    }
  }

  lemma NextInvalidation(trail: seq<Mark>, events: seq<DomainEvent>, n: nat, invalidation: Option<Invalidation>)
    requires AppliedInTurn(trail, events) && n < |trail| && n < |events|
    requires InvalidationsOf(trail[n].versions, [events[n]]) == if invalidation.None? then [] else [invalidation.value]
    ensures InvalidationsOf(trail[0].versions, events[..n + 1])
      == InvalidationsOf(trail[0].versions, events[..n]) + if invalidation.None? then [] else [invalidation.value]
  {
    AppliedBumps(trail, events, n);
    BumpMore(trail[0].versions, events[..n], events[n]);
    assert events[..n] + [events[n]] == events[..n + 1];
  }
}
