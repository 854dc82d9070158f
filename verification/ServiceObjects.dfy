/** The aggregates and application services as objects: load a copy, change it, save it, and only
then publish what it recorded.  Each method is proved against the call of the same name in Services. */
module ServiceObjects {
  import opened Prelude
  import opened RoleGraph
  import opened RoleHierarchy
  import opened HierarchyResolver
  import opened Governance
  import opened Authorization
  import opened SecurityState
  import opened Writes
  import opened Revocation
  import opened Mutations
  import opened Services
  import opened DenyFast

  /** The in-memory repositories. */
  class Database {
    var identities: map<IdentityId, Lifecycle>
    var tenants: map<TenantId, Lifecycle>
    var memberships: seq<Membership>
    var permissions: set<PermissionCode>
    var roles: Catalog
    var bindings: seq<RoleBinding>
    var constraints: seq<Constraint>
    var staticRules: seq<StaticRule>
    var dynamicRules: seq<DynamicRule>

    constructor ()
      ensures Contents() == NoRepositories
    {
      identities, tenants, memberships, permissions := map[], map[], [], {};
      roles, bindings, constraints, staticRules, dynamicRules := map[], [], [], [], [];
    }

    function Contents(): Repositories
      reads this
    {
      Repositories(identities, tenants, memberships, permissions, roles, bindings, constraints, staticRules,
                   dynamicRules)
    }

    method Save(w: Write)
      modifies this
      ensures Contents() == ApplyWrite(old(Contents()), w)
    {
      match w {
        case SaveIdentity(i, lifecycle) => identities := identities[i := lifecycle];
        case SaveTenant(t, lifecycle) => tenants := tenants[t := lifecycle];
        case SaveMembership(m) => memberships := PutMembership(memberships, m);
        case SavePermission(p) => permissions := permissions + {p};
        case SaveRole(id, role) => roles := roles[id := role];
        case SaveBinding(b) => bindings := PutBinding(bindings, b);
        case SaveConstraint(k) => constraints := constraints + [k];
        case SaveStaticRule(k) => staticRules := staticRules + [k];
        case SaveDynamicRule(k) => dynamicRules := dynamicRules + [k];
      }
    }
  }

  // ---------------------------------------------------------------- aggregates

  /** A loaded copy of a Role. */
  class RoleAggregate {
    const id: RoleId
    const tenant: Option<TenantId>
    var status: RoleStatus
    var permissions: set<PermissionCode>
    var parents: set<RoleId>
    var assignable: bool
    var sensitive: bool
    var pending: seq<RoleChange>

    constructor Load(id: RoleId, role: Role)
      ensures this.id == id && State() == role && pending == []
    {
      this.id, tenant, status, permissions := id, role.tenant, role.status, role.permissions;
      parents, assignable, sensitive, pending := role.parents, role.assignable, role.sensitive, [];
    }

    function State(): Role
      reads this
    {
      Role(tenant, status, permissions, parents, assignable, sensitive)
    }

    /** The aggregate did what `edit` says, from the given earlier state. */
    ghost predicate Did(edit: Result<RoleEdit, ServiceError>, before: Role, recorded: seq<RoleChange>,
                        error: Option<ServiceError>)
      reads this
    {
      match edit
      case Err(e) => error == Some(e) && State() == before && pending == recorded
      case Ok(RoleEdit(role, change)) =>
        error == None && State() == role && pending == recorded + (if change.Some? then [change.value] else [])
    }

    method AddPermission(p: PermissionCode) returns (error: Option<ServiceError>)
      modifies this
      ensures Did(EditAddPermission(old(State()), p), old(State()), old(pending), error)
    {
      if !status.ActiveRole? { return Some(RoleInactive); }
      if p in permissions { return Some(PermissionAlreadyAssigned); }
      permissions := permissions + {p};
      pending := pending + [PermissionAdded];
      error := None;
    }

    method RemovePermission(p: PermissionCode) returns (error: Option<ServiceError>)
      modifies this
      ensures Did(EditRemovePermission(old(State()), p), old(State()), old(pending), error)
    {
      if !status.ActiveRole? { return Some(RoleInactive); }
      if p !in permissions { return Some(PermissionNotAssigned); }
      permissions := permissions - {p};
      pending := pending + [PermissionRemoved];
      error := None;
    }

    method Disable() returns (error: Option<ServiceError>)
      modifies this
      ensures Did(EditDisable(old(State())), old(State()), old(pending), error)
    {
      if !status.ActiveRole? { return Some(RoleInactive); }
      status := DisabledRole;
      pending := pending + [RoleDisabled];
      error := None;
    }

    method SetSensitive(flag: bool) returns (error: Option<ServiceError>)
      modifies this
      ensures Did(EditSensitive(old(State()), flag), old(State()), old(pending), error)
    {
      if !status.ActiveRole? { return Some(RoleInactive); }
      if sensitive == flag { return None; }
      sensitive := flag;
      pending := pending + [SensitivityChanged];
      error := None;
    }

    method SetAssignable(flag: bool) returns (error: Option<ServiceError>)
      modifies this
      ensures Did(EditAssignable(old(State()), flag), old(State()), old(pending), error)
    {
      if !status.ActiveRole? { return Some(RoleInactive); }
      if assignable == flag { return None; }
      assignable := flag;
      pending := pending + [AssignabilityChanged];
      error := None;
    }

    method AddParentRole(parent: RoleId) returns (error: Option<ServiceError>)
      modifies this
      ensures Did(EditAddParent(old(State()), id, parent), old(State()), old(pending), error)
    {
      if !status.ActiveRole? { return Some(RoleInactive); }
      if parent == id { return Some(HierarchyError(Cycle)); }
      if parent in parents { return None; }
      parents := parents + {parent};
      pending := pending + [ParentAdded];
      error := None;
    }

    method RemoveParentRole(parent: RoleId) returns (error: Option<ServiceError>)
      modifies this
      ensures Did(EditRemoveParent(old(State()), parent), old(State()), old(pending), error)
    {
      if !status.ActiveRole? { return Some(RoleInactive); }
      if parent !in parents { return None; }
      parents := parents - {parent};
      pending := pending + [ParentRemoved];
      error := None;
    }
  }

  /** A loaded copy of a RoleBinding; everything but its status is fixed when it is created. */
  class BindingAggregate {
    const created: RoleBinding
    var status: BindingStatus
    var pending: seq<BindingChange>

    constructor Load(b: RoleBinding)
      ensures State() == b && pending == []
    {
      created, status, pending := b, b.status, [];
    }

    function State(): RoleBinding
      reads this
    {
      created.(status := status)
    }

    method Change(c: BindingCommand) returns (error: Option<ServiceError>)
      modifies this
      ensures match BindingTransition(old(status), c)
              case None => error == Some(InvalidTransition) && State() == old(State()) && pending == old(pending)
              case Some((to, change)) =>
                error == None && State() == old(State()).(status := to) && pending == old(pending) + [change]
    {
      match c {
        case SuspendBinding =>
          if !status.BindingActive? { return Some(InvalidTransition); }
          status := BindingStatus.BindingSuspended;
          pending := pending + [BindingSuspension];
        case ReactivateBinding =>
          if !status.BindingSuspended? { return Some(InvalidTransition); }
          status := BindingActive;
          pending := pending + [BindingReactivated];
        case RevokeBinding =>
          if !(status.BindingActive? || status.BindingSuspended?) { return Some(InvalidTransition); }
          status := BindingStatus.BindingRevoked;
          pending := pending + [BindingRevocation];
      }
      error := None;
    }
  }

  /** A loaded copy of a Membership; everything but its status is fixed when it is created. */
  class MembershipAggregate {
    const created: Membership
    var status: MembershipStatus
    var pending: seq<MembershipChange>

    constructor Load(m: Membership)
      ensures State() == m && pending == []
    {
      created, status, pending := m, m.status, [];
    }

    function State(): Membership
      reads this
    {
      created.(status := status)
    }

    method Change(c: MembershipCommand) returns (error: Option<ServiceError>)
      modifies this
      ensures match MembershipTransition(old(status), c)
              case None => error == Some(InvalidTransition) && State() == old(State()) && pending == old(pending)
              case Some((to, change)) =>
                error == None && State() == old(State()).(status := to) && pending == old(pending) + [change]
    {
      match c {
        case ActivateMembership =>
          if !status.MembershipPending? { return Some(InvalidTransition); }
          status := MembershipActive;
          pending := pending + [MembershipActivated];
        case SuspendMembership =>
          if !status.MembershipActive? { return Some(InvalidTransition); }
          status := MembershipStatus.MembershipSuspended;
          pending := pending + [MembershipSuspension];
        case ReactivateMembership =>
          if !status.MembershipSuspended? { return Some(InvalidTransition); }
          status := MembershipActive;
          pending := pending + [MembershipReactivated];
        case RevokeMembership =>
          if !(status.MembershipPending? || status.MembershipActive? || status.MembershipSuspended?) {
            return Some(InvalidTransition);
          }
          status := MembershipStatus.MembershipRevoked;
          pending := pending + [MembershipRevocation];
      }
      error := None;
    }
  }

  // ---------------------------------------------------------------- services

  /** What a call can change. */
  datatype Snapshot = Snapshot(repos: Repositories, versions: Versions, markers: Markers, failures: nat,
                               log: seq<DomainEvent>)

  ghost function Snap(db: Database, sink: MutationSink): Snapshot
    reads db, sink, sink.store, sink.registry
  {
    Snapshot(db.Contents(), sink.store.State(), sink.registry.markers, sink.registry.failures, sink.log)
  }

  /** A save, and the publication of its events after it, which a conflicting marker stops. */
  ghost predicate SavedThen(saved: Saved, before: Snapshot, after: Snapshot, raised: bool) {
    && after.repos == ApplyWrite(before.repos, saved.write)
    && after.failures >= before.failures
    && Published(before.versions, before.markers, saved.events, after.versions, after.markers, raised,
                 after.failures - before.failures)
    && after.log == if raised then before.log else before.log + saved.events
  }

  /** What a completed call leaves: nothing on refusal; on success its save and what it published. */
  ghost predicate Completed(outcome: Outcome, error: Option<ServiceError>, before: Snapshot, after: Snapshot) {
    match outcome
    case Err(e) => error == Some(e) && after == before
    case Ok(saved) => SavedThen(saved, before, after, error.Some?) && (error.Some? ==> error.value.MarkerConflict?)
  }

  /** After a call that took something away, over a registry that was reached, the registry holds a marker of the
  target that tells of an event of that instant, unless it held a later one. */
  ghost predicate Marked(c: Command, now: Time, error: Option<ServiceError>, before: Snapshot, after: Snapshot) {
    error.None? && after.failures == before.failures ==>
      forall target, id :: TakesAway(c, target, id) ==>
        exists e :: MarkedBy(e, now, target, id, before, after)
  }

  ghost predicate MarkedBy(e: DomainEvent, now: Time, target: RevocationTarget, id: nat, before: Snapshot,
                           after: Snapshot)
  {
    && e.at == now && Revokes(e, target, id)
    && HeldAfter(before.markers, e, target, id, after.versions, after.markers, false)
  }

  lemma CompletedMarks(r: Repositories, maxDepth: nat, now: Time, c: Command, error: Option<ServiceError>,
                       before: Snapshot, after: Snapshot)
    requires Completed(Execute(r, maxDepth, now, c), error, before, after)
    ensures Marked(c, now, error, before, after)
  {
    if error.None? && after.failures == before.failures {
      forall target, id | TakesAway(c, target, id)
        ensures exists e :: MarkedBy(e, now, target, id, before, after)
      {
        var events := Execute(r, maxDepth, now, c).value.events;
        CallRevokes(r, maxDepth, now, c, target, id);
        assert events == [events[0]];
        ReachedRegistryHolds(before.versions, before.markers, events[0], after.versions, after.markers, false);
        assert MarkedBy(events[0], now, target, id, before, after);
      }
    }
  }

  function Raised(raised: bool): Option<ServiceError> {
    if raised then Some(MarkerConflict) else None
  }

  function RoleEvents(changes: seq<RoleChange>, id: RoleId, tenant: Option<TenantId>,
                      now: Time): (events: seq<DomainEvent>)
    ensures |events| == |changes|
    ensures |changes| == 1 ==> events == [RoleEvent(changes[0], id, tenant, now)]
  {
    seq(|changes|, i requires 0 <= i < |changes| => RoleEvent(changes[i], id, tenant, now))
  }

  function BindingEvents(changes: seq<BindingChange>, b: RoleBinding, now: Time): (events: seq<DomainEvent>)
    ensures |events| == |changes|
    ensures |changes| == 1 ==> events == [BindingEvent(changes[0], b.id, b.identity, b.tenant, now)]
  {
    seq(|changes|, i requires 0 <= i < |changes| => BindingEvent(changes[i], b.id, b.identity, b.tenant, now))
  }

  function MembershipEvents(changes: seq<MembershipChange>, m: Membership, now: Time): (events: seq<DomainEvent>)
    ensures |events| == |changes|
    ensures |changes| == 1 ==> events == [MembershipEvent(changes[0], m.id, m.identity, m.tenant, now)]
  {
    seq(|changes|, i requires 0 <= i < |changes| => MembershipEvent(changes[i], m.id, m.identity, m.tenant, now))
  }

  class RoleService {
    const db: Database
    const sink: MutationSink
    const resolver: Resolver

    constructor (db: Database, sink: MutationSink, maxDepth: nat)
      ensures this.db == db && this.sink == sink && resolver.maxDepth == maxDepth
    {
      this.db, this.sink := db, sink;
      resolver := new Resolver(maxDepth);
    }

    /** Save, then publish. */
    method SaveRole(role: RoleAggregate, now: Time) returns (error: Option<ServiceError>)
      modifies db, role, sink, sink.store, sink.registry
      ensures var events := RoleEvents(old(role.pending), role.id, role.tenant, now);
        && SavedThen(Saved(Write.SaveRole(role.id, old(role.State())), events), old(Snap(db, sink)), Snap(db, sink),
                     error.Some?)
        && (error.Some? ==> error.value.MarkerConflict?)
    {
      var recorded := role.pending;
      role.pending := [];
      db.roles := db.roles[role.id := role.State()];
      var raised := sink.Publish(RoleEvents(recorded, role.id, role.tenant, now));
      error := Raised(raised);
    }

    method AddPermission(id: RoleId, p: PermissionCode, now: Time) returns (error: Option<ServiceError>)
      modifies db, sink, sink.store, sink.registry
      ensures Completed(Execute(old(db.Contents()), resolver.maxDepth, now, Command.AddPermission(id, p)), error,
                        old(Snap(db, sink)), Snap(db, sink))
    {
      if id !in db.roles { return Some(RoleNotFound); }
      if p !in db.permissions { return Some(PermissionNotFound); }
      var role := new RoleAggregate.Load(id, db.roles[id]);
      error := role.AddPermission(p);
      if error.None? { error := SaveRole(role, now); }
    }

    method RemovePermission(id: RoleId, p: PermissionCode, now: Time) returns (error: Option<ServiceError>)
      modifies db, sink, sink.store, sink.registry
      ensures Completed(Execute(old(db.Contents()), resolver.maxDepth, now, Command.RemovePermission(id, p)), error,
                        old(Snap(db, sink)), Snap(db, sink))
    {
      if id !in db.roles { return Some(RoleNotFound); }
      var role := new RoleAggregate.Load(id, db.roles[id]);
      error := role.RemovePermission(p);
      if error.None? { error := SaveRole(role, now); }
    }

    method DisableRole(id: RoleId, now: Time) returns (error: Option<ServiceError>)
      modifies db, sink, sink.store, sink.registry
      ensures Completed(Execute(old(db.Contents()), resolver.maxDepth, now, Command.DisableRole(id)), error,
                        old(Snap(db, sink)), Snap(db, sink))
    {
      if id !in db.roles { return Some(RoleNotFound); }
      var role := new RoleAggregate.Load(id, db.roles[id]);
      error := role.Disable();
      if error.None? { error := SaveRole(role, now); }
    }

    method CheckParent(id: RoleId, parent: RoleId) returns (problem: Option<ServiceError>)
      ensures problem == ParentProblem(db.roles, resolver.maxDepth, id, parent)
    {
      if id !in db.roles || parent !in db.roles { return Some(RoleNotFound); }
      if !db.roles[id].status.ActiveRole? || !db.roles[parent].status.ActiveRole? {
        return Some(HierarchyError(Unavailable));
      }
      if !EdgeValid(db.roles[id].tenant, db.roles[parent].tenant) { return Some(HierarchyError(TenantMismatch)); }
      if id == parent { return Some(HierarchyError(Cycle)); }
      var ancestors := resolver.Ancestors(db.roles, parent);
      if ancestors.Err? { return Some(HierarchyError(ancestors.error)); }
      if id in ancestors.value { return Some(HierarchyError(Cycle)); }
      problem := None;
    }

    method AddParentRole(id: RoleId, parent: RoleId, now: Time) returns (error: Option<ServiceError>)
      modifies db, sink, sink.store, sink.registry
      ensures Completed(AddParentCall(old(db.Contents()), resolver.maxDepth, id, parent, now), error,
                        old(Snap(db, sink)), Snap(db, sink))
    {
      error := CheckParent(id, parent);
      if error.Some? { return; }
      var role := new RoleAggregate.Load(id, db.roles[id]);
      error := role.AddParentRole(parent);
      if error.None? { error := SaveRole(role, now); }
    }

    method RemoveParentRole(id: RoleId, parent: RoleId, now: Time) returns (error: Option<ServiceError>)
      modifies db, sink, sink.store, sink.registry
      ensures Completed(Execute(old(db.Contents()), resolver.maxDepth, now, Command.RemoveParent(id, parent)), error,
                        old(Snap(db, sink)), Snap(db, sink))
    {
      if id !in db.roles { return Some(RoleNotFound); }
      if !db.roles[id].status.ActiveRole? { return Some(HierarchyError(Unavailable)); }
      var role := new RoleAggregate.Load(id, db.roles[id]);
      error := role.RemoveParentRole(parent);
      if error.None? { error := SaveRole(role, now); }
    }
  }

  class BindingService {
    const db: Database
    const sink: MutationSink
    const resolver: Resolver

    constructor (db: Database, sink: MutationSink, maxDepth: nat)
      ensures this.db == db && this.sink == sink && resolver.maxDepth == maxDepth
    {
      this.db, this.sink := db, sink;
      resolver := new Resolver(maxDepth);
    }

    /** `_effective_role_ids`. */
    method EffectiveIds(bound: seq<RoleId>) returns (effective: Result<set<RoleId>, HierarchyError>)
      ensures effective == EffectiveRoleIds(db.roles, resolver.maxDepth, bound, {})
    {
      var ids: set<RoleId> := {};
      for i := 0 to |bound|
        invariant EffectiveRoleIds(db.roles, resolver.maxDepth, bound, {})
               == EffectiveRoleIds(db.roles, resolver.maxDepth, bound[i..], ids)
      {
        assert bound[i..][0] == bound[i] && bound[i..][1..] == bound[i + 1..];
        var roles := resolver.Resolve(db.roles, bound[i]);
        if roles.Err? { return Err(roles.error); }
        ids := ids + set v | v in roles.value;
      }
      effective := Ok(ids);
    }

    /** `ensure_assignment_allowed`. */
    method EnsureAssignmentAllowed(rules: seq<StaticRule>, bound: seq<RoleId>, candidate: RoleId)
      returns (refusal: Option<AssignmentRefusal>)
      ensures refusal == AssignmentRefused(db.roles, resolver.maxDepth, rules, bound, candidate)
    {
      var effective := EffectiveIds(bound);
      if effective.Err? { return Some(HierarchyRefusal(candidate)); }
      var roles := resolver.Resolve(db.roles, candidate);
      if roles.Err? { return Some(HierarchyRefusal(candidate)); }
      var conflict := FindConflict(rules, effective.value + set v | v in roles.value);
      refusal := if conflict.Some? then Some(RuleRefusal(conflict.value.rule)) else None;
    }

    method SaveBinding(b: BindingAggregate, now: Time) returns (error: Option<ServiceError>)
      modifies db, b, sink, sink.store, sink.registry
      ensures var events := BindingEvents(old(b.pending), b.created, now);
        && SavedThen(Saved(Write.SaveBinding(old(b.State())), events), old(Snap(db, sink)), Snap(db, sink), error.Some?)
        && (error.Some? ==> error.value.MarkerConflict?)
    {
      var recorded := b.pending;
      b.pending := [];
      db.bindings := PutBinding(db.bindings, b.State());
      var raised := sink.Publish(BindingEvents(recorded, b.created, now));
      error := Raised(raised);
    }

    method Change(id: BindingId, c: BindingCommand, now: Time) returns (error: Option<ServiceError>)
      modifies db, sink, sink.store, sink.registry
      ensures Completed(Execute(old(db.Contents()), resolver.maxDepth, now, ChangeBinding(id, c)), error,
                        old(Snap(db, sink)), Snap(db, sink))
      ensures Marked(ChangeBinding(id, c), now, error, old(Snap(db, sink)), Snap(db, sink))
    {
      error := SaveChange(id, c, now);
      CompletedMarks(old(db.Contents()), resolver.maxDepth, now, ChangeBinding(id, c), error, old(Snap(db, sink)),
                     Snap(db, sink));
    }

    method SaveChange(id: BindingId, c: BindingCommand, now: Time) returns (error: Option<ServiceError>)
      modifies db, sink, sink.store, sink.registry
      ensures Completed(Execute(old(db.Contents()), resolver.maxDepth, now, ChangeBinding(id, c)), error,
                        old(Snap(db, sink)), Snap(db, sink))
    {
      var found := BindingById(db.bindings, id);
      if found.None? { return Some(RoleBindingNotFound); }
      BindingByIdFound(db.bindings, id);
      var b := new BindingAggregate.Load(found.value);
      error := b.Change(c);
      if error.None? { error := SaveBinding(b, now); }
    }

    /** The checks of an assignment, in the order the service makes them. */
    method CheckAssignment(i: IdentityId, role: RoleId, t: TenantId, scope: TenantId, until: Option<Time>,
                           guarded: bool, now: Time)
      returns (problem: Option<ServiceError>)
      ensures problem == AssignmentProblem(db.Contents(), resolver.maxDepth, i, role, t, scope, until, guarded, now)
    {
      if i !in db.identities { return Some(IdentityNotFound); }
      if db.identities[i] != Active { return Some(InvalidRoleBinding); }
      if t !in db.tenants { return Some(TenantNotFound); }
      if db.tenants[t] != Active { return Some(TenantInactive); }
      if scope != t { return Some(TenantMismatched); }
      var m := FindMembership(db.memberships, i, t);
      if m.None? || !m.value.IsActive(now) { return Some(InvalidRoleBinding); }
      if role !in db.roles { return Some(RoleNotFound); }
      if !db.roles[role].status.ActiveRole? { return Some(RoleInactive); }
      if !db.roles[role].assignable { return Some(RoleNotAssignable); }
      if db.roles[role].tenant.Some? && db.roles[role].tenant.value != t { return Some(RoleTenantMismatch); }
      if db.roles[role].sensitive && !guarded { return Some(PrivilegedActionDenied); }
      var active := ActiveBindings(BindingsOf(db.bindings, i, t), now);
      for k := 0 to |active|
        invariant forall j :: 0 <= j < k ==> !(active[j].role == role && active[j].scope == scope)
      {
        if active[k].role == role && active[k].scope == scope { return Some(RoleBindingAlreadyExists); }
      }
      var refusal := EnsureAssignmentAllowed(StaticRulesFor(db.staticRules, t), RolesBound(active), role);
      if refusal.Some? { return Some(StaticSodViolation(refusal.value)); }
      if until.Some? && until.value <= now { return Some(InvalidRoleBinding); }
      problem := None;
    }

    method AssignRole(id: BindingId, i: IdentityId, role: RoleId, t: TenantId, scope: TenantId, until: Option<Time>,
                      guarded: bool, now: Time)
      returns (error: Option<ServiceError>)
      modifies db, sink, sink.store, sink.registry
      ensures Completed(AssignRoleCall(old(db.Contents()), resolver.maxDepth, id, i, role, t, scope, until, guarded,
                                       now), error,
                        old(Snap(db, sink)), Snap(db, sink))
    {
      error := CheckAssignment(i, role, t, scope, until, guarded, now);
      if error.Some? { return; }
      var b := new BindingAggregate.Load(RoleBinding(id, i, role, t, scope, BindingActive, now, until));
      b.pending := [RoleAssigned];
      error := SaveBinding(b, now);
    }
  }

  class MembershipService {
    const db: Database
    const sink: MutationSink

    constructor (db: Database, sink: MutationSink)
      ensures this.db == db && this.sink == sink
    {
      this.db, this.sink := db, sink;
    }

    method SaveMembership(m: MembershipAggregate, now: Time) returns (error: Option<ServiceError>)
      modifies db, m, sink, sink.store, sink.registry
      ensures var events := MembershipEvents(old(m.pending), m.created, now);
        && SavedThen(Saved(Write.SaveMembership(old(m.State())), events), old(Snap(db, sink)), Snap(db, sink),
                     error.Some?)
        && (error.Some? ==> error.value.MarkerConflict?)
    {
      var recorded := m.pending;
      m.pending := [];
      db.memberships := PutMembership(db.memberships, m.State());
      var raised := sink.Publish(MembershipEvents(recorded, m.created, now));
      error := Raised(raised);
    }

    method Create(id: MembershipId, i: IdentityId, t: TenantId, until: Option<Time>, now: Time)
      returns (error: Option<ServiceError>)
      modifies db, sink, sink.store, sink.registry
      ensures Completed(CreateMembershipCall(old(db.Contents()), id, i, t, until, now), error,
                        old(Snap(db, sink)), Snap(db, sink))
    {
      if i !in db.identities { return Some(IdentityNotFound); }
      if t !in db.tenants { return Some(TenantNotFound); }
      if FindMembership(db.memberships, i, t).Some? { return Some(InvalidMembership); }
      if until.Some? && until.value <= now { return Some(InvalidMembership); }
      var m := new MembershipAggregate.Load(Membership(id, i, t, MembershipPending, now, until));
      m.pending := [MembershipCreated];
      error := SaveMembership(m, now);
    }

    method Change(id: MembershipId, c: MembershipCommand, now: Time) returns (error: Option<ServiceError>)
      modifies db, sink, sink.store, sink.registry
      ensures Completed(Execute(old(db.Contents()), 0, now, ChangeMembership(id, c)), error,
                        old(Snap(db, sink)), Snap(db, sink))
      ensures Marked(ChangeMembership(id, c), now, error, old(Snap(db, sink)), Snap(db, sink))
    {
      error := SaveChange(id, c, now);
      CompletedMarks(old(db.Contents()), 0, now, ChangeMembership(id, c), error, old(Snap(db, sink)), Snap(db, sink));
    }

    method SaveChange(id: MembershipId, c: MembershipCommand, now: Time) returns (error: Option<ServiceError>)
      modifies db, sink, sink.store, sink.registry
      ensures Completed(MembershipCall(old(db.Contents()), id, c, now), error,
                        old(Snap(db, sink)), Snap(db, sink))
    {
      var found := MembershipById(db.memberships, id);
      if found.None? { return Some(MembershipNotFound); }
      MembershipByIdFound(db.memberships, id);
      var stored := found.value;
      if c.ActivateMembership? {
        if stored.identity !in db.identities || db.identities[stored.identity] != Active {
          return Some(MembershipInactive);
        }
        if stored.tenant !in db.tenants { return Some(TenantNotFound); }
        if db.tenants[stored.tenant] != Active { return Some(TenantInactive); }
      }
      var m := new MembershipAggregate.Load(stored);
      error := m.Change(c);
      if error.None? { error := SaveMembership(m, now); }
    }
  }
}
