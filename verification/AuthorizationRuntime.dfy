/** The distributed authorization runtime run on its own: between whole service calls, with a
revocation registry that may fail at any moment, it answers as the engine does. */
module AuthorizationRuntime {
  import opened Prelude
  import opened RoleGraph
  import opened Authorization
  import opened SecurityState
  import opened Writes
  import opened DecisionCache
  import opened Coherence
  import opened Revocation
  import opened Mutations
  import opened Services

  // ---------------------------------------------------------------- what markers are worth

  /** The dimension whose version a marker of this stored target carries. */
  function MarkerDimension(r: Repositories, target: RevocationTarget, id: nat): Option<Dimension> {
    match target
    case SessionTarget => None
    case IdentityTarget => if id in r.identities then Some(IdentityState(id)) else None
    case TenantTarget => if id in r.tenants then Some(TenantState(id)) else None
    case MembershipTarget =>
      (match MembershipById(r.memberships, id)
       case None => None
       case Some(m) => Some(MembershipState(m.identity, m.tenant)))
    case BindingTarget =>
      (match BindingById(r.bindings, id)
       case None => None
       case Some(b) => Some(SubjectAuthorization(b.identity, b.tenant)))
  }

  predicate Alive(r: Repositories, target: RevocationTarget, id: nat) {
    match target
    case SessionTarget => false
    case IdentityTarget => id in r.identities && r.identities[id] == Active
    case TenantTarget => id in r.tenants && r.tenants[id] == Active
    case MembershipTarget =>
      MembershipById(r.memberships, id).Some? && MembershipById(r.memberships, id).value.status.MembershipActive?
    case BindingTarget => BindingById(r.bindings, id).Some? && BindingById(r.bindings, id).value.status.BindingActive?
  }

  /** A marker never runs ahead of its dimension, and while it is level with it its target is inactive. */
  ghost predicate MarkerOk(r: Repositories, v: Versions, key: Target, m: Marker) {
    && m.target == key.0 && m.id == key.1
    && (key.0 != SessionTarget ==>
          && m.version.Some? && MarkerDimension(r, key.0, key.1).Some?
          && m.version.value <= VersionOf(v, MarkerDimension(r, key.0, key.1).value)
          && (m.version.value == VersionOf(v, MarkerDimension(r, key.0, key.1).value) ==> !Alive(r, key.0, key.1)))
  }

  ghost predicate MarkersOk(r: Repositories, v: Versions, ms: Markers) {
    forall key :: key in ms ==> MarkerOk(r, v, key, ms[key])
  }

  /** The marker that would deny the target at this stamp version and instant. */
  function Applicable(ms: Markers, target: RevocationTarget, id: nat, current: nat, at: Time): Option<Marker> {
    match Held(ms, target, id)
    case None => None
    case Some(m) => if m.IsActive(at) && m.AppliesTo(current) then Some(m) else None
  }

  /** An applicable marker is never stale: its target is inactive now. */
  lemma ApplicableMeansInactive(r: Repositories, v: Versions, ms: Markers, target: RevocationTarget, id: nat, at: Time)
    requires MarkersOk(r, v, ms) && target != SessionTarget && MarkerDimension(r, target, id).Some?
    requires Applicable(ms, target, id, VersionOf(v, MarkerDimension(r, target, id).value), at).Some?
    ensures !Alive(r, target, id)
  {
    assert MarkerOk(r, v, (target, id), ms[(target, id)]);
  }

  // ---------------------------------------------------------------- service calls keep everything in order

  function Quiescent(clock: Time, r: Repositories, v: Versions, entries: Entries): System {
    System(clock, r, v, multiset{}, entries, map[])
  }

  /** The deployment between two calls: healthy repositories, a justified cache, truthful markers. */
  ghost predicate Trusted(cfg: Config, clock: Time, r: Repositories, v: Versions, entries: Entries, ms: Markers) {
    Healthy(r, clock) && Invariant(cfg, Quiescent(clock, r, v, entries)) && MarkersOk(r, v, ms)
  }

  lemma TimePasses(cfg: Config, clock: Time, later: Time, r: Repositories, v: Versions, entries: Entries, ms: Markers)
    requires Trusted(cfg, clock, r, v, entries, ms) && clock <= later
    ensures Trusted(cfg, later, r, v, entries, ms)
  {
    InvariantStep(cfg, Quiescent(clock, r, v, entries), Tick(later));
  }

  lemma {:induction false} BindingStays(bs: seq<RoleBinding>, b: RoleBinding, id: BindingId)
    ensures BindingById(PutBinding(bs, b), id) == if id == b.id then Some(b) else BindingById(bs, id)
  {
    if bs != [] && bs[0].id != b.id { BindingStays(bs[1..], b, id); }
  }

  /** A write leaves alone every marker target whose dimension it does not advance. */
  lemma OtherTargetsUntouched(r: Repositories, w: Write, target: RevocationTarget, id: nat)
    requires w.SaveMembership? ==> forall x :: x in r.memberships && x.id == w.membership.id ==>
      x.identity == w.membership.identity && x.tenant == w.membership.tenant
    requires w.SaveBinding? ==> forall x :: x in r.bindings && x.id == w.binding.id ==>
      x.identity == w.binding.identity && x.tenant == w.binding.tenant
    requires MarkerDimension(r, target, id).Some?
    ensures MarkerDimension(ApplyWrite(r, w), target, id) == MarkerDimension(r, target, id)
    ensures MarkerDimension(r, target, id) != Some(DimensionOf(w)) ==>
      Alive(ApplyWrite(r, w), target, id) == Alive(r, target, id)
  {
    if w.SaveMembership? {
      MembershipStays(r.memberships, w.membership, id);
      MembershipByIdFound(r.memberships, id);
    }
    if w.SaveBinding? {
      BindingStays(r.bindings, w.binding, id);
      BindingByIdFound(r.bindings, id);
    }
  }

  lemma WriteKeepsMarkers(r: Repositories, v: Versions, ms: Markers, w: Write, clock: Time)
    requires MarkersOk(r, v, ms) && Permitted(r, w, clock)
    ensures MarkersOk(ApplyWrite(r, w), Bump(v, DimensionOf(w)), ms)
  {
    forall key | key in ms
      ensures MarkerOk(ApplyWrite(r, w), Bump(v, DimensionOf(w)), key, ms[key])
    {
      assert MarkerOk(r, v, key, ms[key]);
      if key.0 != SessionTarget {
        OtherTargetsUntouched(r, w, key.0, key.1);
        BumpExact(v, DimensionOf(w), 0, 0);
      }
    }
  }

  /** What a negative event says of its target is true once its write is saved. */
  ghost predicate EventTruthful(saved: Saved, e: DomainEvent, r': Repositories) {
    forall version: nat :: MarkerOf(e, version).Some? ==>
      var m := MarkerOf(e, version).value;
      && m.target != SessionTarget && m.version == Some(version)
      && MarkerDimension(r', m.target, m.id) == Some(DimensionOf(saved.write)) && !Alive(r', m.target, m.id)
  }

  lemma IdentityEventTruthful(r: Repositories, i: IdentityId, change: LifecycleChange, now: Time)
    requires IdentityCall(r, i, change, now).Ok?
    ensures var saved := IdentityCall(r, i, change, now).value;
      EventTruthful(saved, saved.events[0], ApplyWrite(r, saved.write))
  {
  }

  lemma TenantEventTruthful(r: Repositories, t: TenantId, change: LifecycleChange, now: Time)
    requires TenantCall(r, t, change, now).Ok?
    ensures var saved := TenantCall(r, t, change, now).value;
      EventTruthful(saved, saved.events[0], ApplyWrite(r, saved.write))
  {
  }

  lemma MembershipEventTruthful(r: Repositories, id: MembershipId, mc: MembershipCommand, now: Time)
    requires MembershipCall(r, id, mc, now).Ok?
    ensures var saved := MembershipCall(r, id, mc, now).value;
      EventTruthful(saved, saved.events[0], ApplyWrite(r, saved.write))
  {
    MembershipByIdFound(r.memberships, id);
    MembershipStays(r.memberships, MembershipCall(r, id, mc, now).value.write.membership, id);
  }

  lemma BindingEventTruthful(r: Repositories, id: BindingId, bc: BindingCommand, now: Time)
    requires BindingCall(r, id, bc, now).Ok?
    ensures var saved := BindingCall(r, id, bc, now).value;
      EventTruthful(saved, saved.events[0], ApplyWrite(r, saved.write))
  {
    BindingByIdFound(r.bindings, id);
    BindingStays(r.bindings, BindingCall(r, id, bc, now).value.write.binding, id);
  }

  /** Commands whose event leaves no marker. */
  lemma NoMarker(r: Repositories, maxDepth: nat, now: Time, c: Command, version: nat)
    requires Execute(r, maxDepth, now, c).Ok? && Execute(r, maxDepth, now, c).value.events != []
    requires !c.ChangeIdentity? && !c.ChangeTenant? && !c.ChangeMembership? && !c.ChangeBinding? && !c.AssignRole?
    ensures MarkerOf(Execute(r, maxDepth, now, c).value.events[0], version).None?
  {
  }

  lemma CallTruthful(r: Repositories, maxDepth: nat, now: Time, c: Command)
    requires Execute(r, maxDepth, now, c).Ok? && Execute(r, maxDepth, now, c).value.events != []
    ensures var saved := Execute(r, maxDepth, now, c).value;
      EventTruthful(saved, saved.events[0], ApplyWrite(r, saved.write))
  {
    match c
    case ChangeIdentity(i, change) => IdentityEventTruthful(r, i, change, now);
    case ChangeTenant(t, change) => TenantEventTruthful(r, t, change, now);
    case ChangeMembership(id, mc) => MembershipEventTruthful(r, id, mc, now);
    case ChangeBinding(id, bc) => BindingEventTruthful(r, id, bc, now);
    case AssignRole(id, i, role, t, scope, until, guarded) =>
    case _ =>
      forall version: nat
        ensures MarkerOf(Execute(r, maxDepth, now, c).value.events[0], version).None?
      {
        NoMarker(r, maxDepth, now, c, version);
      }
  }

  lemma ShortEvents(r: Repositories, maxDepth: nat, now: Time, c: Command)
    requires Execute(r, maxDepth, now, c).Ok?
    ensures |Execute(r, maxDepth, now, c).value.events| <= 1
  {
  }

  /** A newly recorded marker is always accepted, and is truthful. */
  lemma FreshMarkerOk(r: Repositories, v: Versions, ms: Markers, saved: Saved, e: DomainEvent, m: Marker)
    requires MarkersOk(r, v, ms) && EventTruthful(saved, e, r)
    requires m.target != SessionTarget && MarkerOf(e, VersionOf(v, DimensionOf(saved.write))) == Some(m)
    requires forall key ::
      key in ms && MarkerDimension(r, key.0, key.1) == Some(DimensionOf(saved.write)) && ms[key].version.Some? ==>
        ms[key].version.value < VersionOf(v, DimensionOf(saved.write))
    ensures Judge(Held(ms, m.target, m.id), m) == Accepted && MarkersOk(r, v, Recorded(ms, m))
  {
    if (m.target, m.id) in ms { assert MarkerOk(r, v, (m.target, m.id), ms[(m.target, m.id)]); }
    forall key | key in Recorded(ms, m)
      ensures MarkerOk(r, v, key, Recorded(ms, m)[key])
    {
      if key != (m.target, m.id) { assert MarkerOk(r, v, key, ms[key]); }
    }
  }

  lemma BumpedAhead(r: Repositories, v: Versions, ms: Markers, w: Write, clock: Time)
    requires MarkersOk(r, v, ms) && Permitted(r, w, clock)
    ensures forall key ::
      key in ms && MarkerDimension(ApplyWrite(r, w), key.0, key.1) == Some(DimensionOf(w)) && ms[key].version.Some? ==>
        ms[key].version.value < VersionOf(Bump(v, DimensionOf(w)), DimensionOf(w))
  {
    forall key | key in ms && MarkerDimension(ApplyWrite(r, w), key.0, key.1) == Some(DimensionOf(w))
      && ms[key].version.Some?
      ensures ms[key].version.value < VersionOf(Bump(v, DimensionOf(w)), DimensionOf(w))
    {
      assert MarkerOk(r, v, key, ms[key]);
      OtherTargetsUntouched(r, w, key.0, key.1);
      BumpExact(v, DimensionOf(w), 0, 0);
    }
  }

  /** A whole announced call, seen as the protocol steps Save and Bump, keeps the cache justified. */
  lemma AnnouncedKeepsCache(cfg: Config, clock: Time, r: Repositories, v: Versions, entries: Entries, w: Write,
                            d: Dimension)
    requires Invariant(cfg, Quiescent(clock, r, v, entries)) && Permitted(r, w, clock) && Covers(d, w)
    ensures Invariant(cfg, Quiescent(clock, ApplyWrite(r, w), Bump(v, d), entries))
  {
    var s := Quiescent(clock, r, v, entries);
    InvariantStep(cfg, s, Save(w, d));
    var s1 := Next(cfg, s, Save(w, d));
    InvariantStep(cfg, s1, BumpDimension(d));
    assert multiset{} + multiset{d} - multiset{d} == multiset{};
    assert Next(cfg, s1, BumpDimension(d)) == Quiescent(clock, ApplyWrite(r, w), Bump(v, d), entries);
  }

  /** The event's own dimension is the one bumped: markers of that dimension fall behind it, so the new
  marker conflicts with none, and if it is recorded it is level with it. */
  lemma FittingEventKeepsMarkers(now: Time, r: Repositories, v: Versions, ms: Markers, saved: Saved, e: DomainEvent)
    requires MarkersOk(r, v, ms) && Permitted(r, saved.write, now)
      && EventTruthful(saved, e, ApplyWrite(r, saved.write))
    ensures var v' := Bump(v, DimensionOf(saved.write));
      var m := MarkerOf(e, VersionOf(v', DimensionOf(saved.write)));
      && MarkersOk(ApplyWrite(r, saved.write), v', ms)
      && (m.Some? ==> !Conflicts(ms, m.value) && MarkersOk(ApplyWrite(r, saved.write), v', Recorded(ms, m.value)))
  {
    WriteKeepsMarkers(r, v, ms, saved.write, now);
    var v' := Bump(v, DimensionOf(saved.write));
    var m := MarkerOf(e, VersionOf(v', DimensionOf(saved.write)));
    if m.Some? {
      BumpedAhead(r, v, ms, saved.write, now);
      FreshMarkerOk(ApplyWrite(r, saved.write), v', ms, saved, e, m.value);
    }
  }

  lemma OtherBumpKeepsMarkers(r: Repositories, v: Versions, ms: Markers, i: IdentityId)
    requires MarkersOk(r, v, ms)
    ensures MarkersOk(r, Bump(v, AuthenticationState(i)), ms)
  {
    BumpExact(v, AuthenticationState(i), 0, 0);
    forall key | key in ms
      ensures MarkerOk(r, Bump(v, AuthenticationState(i)), key, ms[key])
    {
      assert MarkerOk(r, v, key, ms[key]);
    }
  }

  lemma SingleEvent(v: Versions, ms: Markers, e: DomainEvent, v': Versions, ms': Markers, raised: bool, lost: nat)
    requires Advances(e).Some? && Published(v, ms, [e], v', ms', raised, lost)
    ensures v' == Bump(v, Advances(e).value)
    ensures var m := MarkerOf(e, VersionOf(v', Advances(e).value));
      if m.None? then ms' == ms && !raised && lost == 0
      else if lost > 0 then ms' == ms && !raised && lost == 1
      else ms' == Recorded(ms, m.value) && (raised <==> Conflicts(ms, m.value))
  {
    var trail :| Leads(trail, Mark(v, ms, 0), [e], Mark(v', ms', lost), raised);
    assert !raised ==> OneStep(trail[0], e, trail[0 + 1], false);
  }

  lemma SingleEventKeepsTrusted(cfg: Config, now: Time, r: Repositories, v: Versions, entries: Entries, ms: Markers,
                                saved: Saved, e: DomainEvent, v': Versions, ms': Markers, raised: bool, lost: nat)
    requires Trusted(cfg, now, r, v, entries, ms) && Permitted(r, saved.write, now)
      && Healthy(ApplyWrite(r, saved.write), now)
    requires saved.events == [e] && FirstEventFits(saved) && LinkWritesBack(r, saved)
    requires EventTruthful(saved, e, ApplyWrite(r, saved.write))
      && Published(v, ms, saved.events, v', ms', raised, lost)
    ensures !raised && Trusted(cfg, now, ApplyWrite(r, saved.write), v', entries, ms')
  {
    var d := Advances(e).value;
    SingleEvent(v, ms, e, v', ms', raised, lost);
    assert Covers(d, saved.write);
    AnnouncedKeepsCache(cfg, now, r, v, entries, saved.write, d);
    if d == DimensionOf(saved.write) {
      FittingEventKeepsMarkers(now, r, v, ms, saved, e);
    } else {
      OtherBumpKeepsMarkers(r, v, ms, saved.write.identity);
    }
  }

  lemma NothingHappened(v: Versions, ms: Markers, events: seq<DomainEvent>, v': Versions, ms': Markers, raised: bool,
                        lost: nat)
    requires |events| == 1 && Advances(events[0]).None? && Published(v, ms, events, v', ms', raised, lost)
    ensures v' == v && ms' == ms && !raised
  {
    var trail :| Leads(trail, Mark(v, ms, 0), events, Mark(v', ms', lost), raised);
    assert !raised ==> OneStep(trail[0], events[0], trail[0 + 1], false);
  }

  lemma QuietCallKeepsTrusted(cfg: Config, now: Time, r: Repositories, v: Versions, entries: Entries, ms: Markers,
                              saved: Saved, v': Versions, ms': Markers, raised: bool, lost: nat)
    requires Trusted(cfg, now, r, v, entries, ms) && ApplyWrite(r, saved.write) == r
    requires saved.events == [] || saved.events == [UnrelatedEvent(now)]
    requires Published(v, ms, saved.events, v', ms', raised, lost)
    ensures !raised && Trusted(cfg, now, ApplyWrite(r, saved.write), v', entries, ms')
  {
    if saved.events != [] {
      assert saved.events[0] == UnrelatedEvent(now);
      NothingHappened(v, ms, saved.events, v', ms', raised, lost);
    } else {
      var trail :| Leads(trail, Mark(v, ms, 0), [], Mark(v', ms', lost), raised);
    }
  }

  /** All that matters about what a call saved and published. */
  ghost predicate Lawful(r: Repositories, now: Time, saved: Saved) {
    && Permitted(r, saved.write, now) && Healthy(ApplyWrite(r, saved.write), now)
    && (if saved.events == [] || saved.events == [UnrelatedEvent(now)] then ApplyWrite(r, saved.write) == r
        else |saved.events| == 1 && FirstEventFits(saved) && LinkWritesBack(r, saved)
             && EventTruthful(saved, saved.events[0], ApplyWrite(r, saved.write)))
  }

  lemma CallLawful(r: Repositories, maxDepth: nat, now: Time, c: Command)
    requires Healthy(r, now) && FreshIds(r, c) && Execute(r, maxDepth, now, c).Ok?
    ensures Lawful(r, now, Execute(r, maxDepth, now, c).value)
  {
    ExecutePermitted(r, maxDepth, now, c);
    ExecuteKeepsHealthy(r, maxDepth, now, c);
    EventsLawful(r, maxDepth, now, c);
  }

  lemma EventsLawful(r: Repositories, maxDepth: nat, now: Time, c: Command)
    requires Execute(r, maxDepth, now, c).Ok?
    ensures var saved := Execute(r, maxDepth, now, c).value;
      if saved.events == [] || saved.events == [UnrelatedEvent(now)] then ApplyWrite(r, saved.write) == r
      else |saved.events| == 1 && FirstEventFits(saved) && LinkWritesBack(r, saved)
           && EventTruthful(saved, saved.events[0], ApplyWrite(r, saved.write))
  {
    ExecuteAnnounced(r, maxDepth, now, c);
    ShortEvents(r, maxDepth, now, c);
    if Execute(r, maxDepth, now, c).value.events != [] { CallTruthful(r, maxDepth, now, c); }
  }

  lemma LawfulKeepsTrusted(cfg: Config, now: Time, r: Repositories, v: Versions, entries: Entries, ms: Markers,
                           saved: Saved, v': Versions, ms': Markers, raised: bool, lost: nat)
    requires Trusted(cfg, now, r, v, entries, ms) && Lawful(r, now, saved)
      && Published(v, ms, saved.events, v', ms', raised, lost)
    ensures !raised && Trusted(cfg, now, ApplyWrite(r, saved.write), v', entries, ms')
  {
    if saved.events == [] || saved.events == [UnrelatedEvent(now)] {
      QuietCallKeepsTrusted(cfg, now, r, v, entries, ms, saved, v', ms', raised, lost);
    } else {
      assert saved.events == [saved.events[0]];
      SingleEventKeepsTrusted(cfg, now, r, v, entries, ms, saved, saved.events[0], v', ms', raised, lost);
    }
  }

  /** Every service call, whether its marker is recorded or lost, publishes without a conflict and leaves
  the deployment in order. */
  lemma CallKeepsTrusted(cfg: Config, clock: Time, r: Repositories, v: Versions, entries: Entries, ms: Markers,
                         now: Time, c: Command, v': Versions, ms': Markers, raised: bool, lost: nat)
    requires Trusted(cfg, clock, r, v, entries, ms) && clock <= now && FreshIds(r, c)
    requires Execute(r, cfg.maxDepth, now, c).Ok?
    requires Published(v, ms, Execute(r, cfg.maxDepth, now, c).value.events, v', ms', raised, lost)
    ensures !raised
    ensures Trusted(cfg, now, ApplyWrite(r, Execute(r, cfg.maxDepth, now, c).value.write), v', entries, ms')
  {
    TimePasses(cfg, clock, now, r, v, entries, ms);
    CallLawful(r, cfg.maxDepth, now, c);
    LawfulKeepsTrusted(cfg, now, r, v, entries, ms, Execute(r, cfg.maxDepth, now, c).value, v', ms', raised, lost);
  }

  /** A new deployment: nothing stored, nothing bumped, nothing cached, nothing revoked. */
  lemma NewIsTrusted(cfg: Config, clock: Time)
    ensures Trusted(cfg, clock, NoRepositories, NoVersions, map[], map[])
  {
    var none := NoRepositories;
    forall v ensures !ProperlyReaches(none.roles, v, v) {}
  }
}
