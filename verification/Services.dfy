/** The application services, each as what one call saves and publishes, and what every sequence of
calls keeps true of the repositories. */
module Services {
  import opened Prelude
  import opened RoleGraph
  import opened RoleHierarchy
  import opened Governance
  import opened Authorization
  import opened SecurityState
  import opened Writes
  import opened Mutations

  datatype LifecycleChange = Activate | Suspend | Reactivate | Disable | Archive

  datatype MembershipCommand = ActivateMembership | SuspendMembership | ReactivateMembership | RevokeMembership

  datatype BindingCommand = SuspendBinding | ReactivateBinding | RevokeBinding

  datatype Command =
    | CreateIdentity(identity: IdentityId)
    | ChangeIdentity(identity: IdentityId, change: LifecycleChange)
    | UpdateProfile(identity: IdentityId)
    | LinkExternalIdentity(identity: IdentityId)
    | CreateTenant(tenant: TenantId)
    | ChangeTenant(tenant: TenantId, change: LifecycleChange)
    | CreateMembership(membership: MembershipId, identity: IdentityId, tenant: TenantId, validUntil: Option<Time>)
    | ChangeMembership(membership: MembershipId, membershipCommand: MembershipCommand)
    | RegisterPermission(permission: PermissionCode)
    | CreateRole(role: RoleId, roleTenant: Option<TenantId>, assignable: bool, sensitive: bool)
    | AddPermission(role: RoleId, permission: PermissionCode)
    | RemovePermission(role: RoleId, permission: PermissionCode)
    | DisableRole(role: RoleId)
    | SetSensitive(role: RoleId, flag: bool)
    | SetAssignable(role: RoleId, flag: bool)
    | AddParent(role: RoleId, parent: RoleId)
    | RemoveParent(role: RoleId, parent: RoleId)
    | AssignRole(binding: BindingId, identity: IdentityId, role: RoleId, tenant: TenantId, scope: TenantId,
                 validUntil: Option<Time>, guarded: bool)
    | ChangeBinding(binding: BindingId, bindingCommand: BindingCommand)
    | RegisterConstraint(constraint: Constraint)
    | RegisterStaticRule(staticRule: StaticRule)
    | RegisterDynamicRule(dynamicRule: DynamicRule)

  datatype ServiceError =
    | IdentityNotFound | TenantNotFound | MembershipNotFound | RoleNotFound | RoleBindingNotFound | PermissionNotFound
    | PermissionAlreadyExists | PermissionAlreadyAssigned | PermissionNotAssigned
    | InvalidTransition | InvalidMembership | MembershipInactive | TenantInactive | TenantMismatched
    | RoleInactive | RoleNotAssignable | RoleTenantMismatch | HierarchyError(error: HierarchyError)
    | InvalidRoleBinding | RoleBindingAlreadyExists | PrivilegedActionDenied
    | StaticSodViolation(refusal: AssignmentRefusal) | InvalidGovernanceRule | MarkerConflict

  /** What a successful call saves, and the events it publishes after the save. */
  datatype Saved = Saved(write: Write, events: seq<DomainEvent>)

  type Outcome = Result<Saved, ServiceError>

  // ---------------------------------------------------------------- identities and tenants

  function Transition(from: Lifecycle, change: LifecycleChange): Option<Lifecycle> {
    match change
    case Activate => if from.Pending? then Some(Active) else None
    case Suspend => if from.Active? then Some(Suspended) else None
    case Reactivate => if from.Suspended? then Some(Active) else None
    case Disable => if from.Active? || from.Suspended? then Some(Disabled) else None
    case Archive => if from.Disabled? then Some(Archived) else None
  }

  function IdentityChangeOf(change: LifecycleChange): IdentityChange {
    match change
    case Activate => IdentityActivated
    case Suspend => IdentitySuspended
    case Reactivate => IdentityReactivated
    case Disable => IdentityDisabled
    case Archive => IdentityArchived
  }

  function TenantChangeOf(change: LifecycleChange): TenantChange {
    match change
    case Activate => TenantActivated
    case Suspend => TenantSuspended
    case Reactivate => TenantReactivated
    case Disable => TenantDisabled
    case Archive => TenantArchived
  }

  function IdentityCall(r: Repositories, i: IdentityId, change: LifecycleChange, now: Time): Outcome {
    if i !in r.identities then Err(IdentityNotFound)
    else
      match Transition(r.identities[i], change)
      case None => Err(InvalidTransition)
      case Some(to) => Ok(Saved(SaveIdentity(i, to), [IdentityEvent(IdentityChangeOf(change), i, now)]))
  }

  function TenantCall(r: Repositories, t: TenantId, change: LifecycleChange, now: Time): Outcome {
    if t !in r.tenants then Err(TenantNotFound)
    else
      match Transition(r.tenants[t], change)
      case None => Err(InvalidTransition)
      case Some(to) => Ok(Saved(SaveTenant(t, to), [TenantEvent(TenantChangeOf(change), t, now)]))
  }

  // ---------------------------------------------------------------- memberships

  function MembershipById(ms: seq<Membership>, id: MembershipId): Option<Membership> {
    if ms == [] then None else if ms[0].id == id then Some(ms[0]) else MembershipById(ms[1..], id)
  }

  function MembershipTransition(from: MembershipStatus, c: MembershipCommand)
    : Option<(MembershipStatus, MembershipChange)>
  {
    match c
    case ActivateMembership => if from.MembershipPending? then Some((MembershipActive, MembershipActivated)) else None
    case SuspendMembership =>
      if from.MembershipActive? then Some((MembershipStatus.MembershipSuspended, MembershipSuspension)) else None
    case ReactivateMembership =>
      if from.MembershipSuspended? then Some((MembershipActive, MembershipReactivated)) else None
    case RevokeMembership =>
      if from.MembershipPending? || from.MembershipActive? || from.MembershipSuspended?
      then Some((MembershipStatus.MembershipRevoked, MembershipRevocation)) else None
  }

  function CreateMembershipCall(r: Repositories, id: MembershipId, i: IdentityId, t: TenantId, until: Option<Time>,
                                now: Time): Outcome {
    if i !in r.identities then Err(IdentityNotFound)
    else if t !in r.tenants then Err(TenantNotFound)
    else if FindMembership(r.memberships, i, t).Some? then Err(InvalidMembership)
    else if until.Some? && until.value <= now then Err(InvalidMembership)
    else Ok(Saved(SaveMembership(Membership(id, i, t, MembershipPending, now, until)),
                  [MembershipEvent(MembershipCreated, id, i, t, now)]))
  }

  function MembershipCall(r: Repositories, id: MembershipId, c: MembershipCommand, now: Time): Outcome {
    match MembershipById(r.memberships, id)
    case None => Err(MembershipNotFound)
    case Some(m) =>
      if c.ActivateMembership? && (m.identity !in r.identities || r.identities[m.identity] != Active) then
        Err(MembershipInactive)
      else if c.ActivateMembership? && m.tenant !in r.tenants then Err(TenantNotFound)
      else if c.ActivateMembership? && r.tenants[m.tenant] != Active then Err(TenantInactive)
      else
        match MembershipTransition(m.status, c)
        case None => Err(InvalidTransition)
        case Some((to, change)) =>
          Ok(Saved(SaveMembership(m.(status := to)), [MembershipEvent(change, id, m.identity, m.tenant, now)]))
  }

  // ---------------------------------------------------------------- roles

  /** What a Role aggregate does with a change: its new state, and the change it records, if any. */
  datatype RoleEdit = RoleEdit(role: Role, change: Option<RoleChange>)

  function EditAddPermission(role: Role, p: PermissionCode): Result<RoleEdit, ServiceError> {
    if !role.status.ActiveRole? then Err(RoleInactive)
    else if p in role.permissions then Err(PermissionAlreadyAssigned)
    else Ok(RoleEdit(role.(permissions := role.permissions + {p}), Some(PermissionAdded)))
  }

  function EditRemovePermission(role: Role, p: PermissionCode): Result<RoleEdit, ServiceError> {
    if !role.status.ActiveRole? then Err(RoleInactive)
    else if p !in role.permissions then Err(PermissionNotAssigned)
    else Ok(RoleEdit(role.(permissions := role.permissions - {p}), Some(PermissionRemoved)))
  }

  function EditDisable(role: Role): Result<RoleEdit, ServiceError> {
    if !role.status.ActiveRole? then Err(RoleInactive)
    else Ok(RoleEdit(role.(status := DisabledRole), Some(RoleDisabled)))
  }

  function EditSensitive(role: Role, flag: bool): Result<RoleEdit, ServiceError> {
    if !role.status.ActiveRole? then Err(RoleInactive)
    else if role.sensitive == flag then Ok(RoleEdit(role, None))
    else Ok(RoleEdit(role.(sensitive := flag), Some(SensitivityChanged)))
  }

  function EditAssignable(role: Role, flag: bool): Result<RoleEdit, ServiceError> {
    if !role.status.ActiveRole? then Err(RoleInactive)
    else if role.assignable == flag then Ok(RoleEdit(role, None))
    else Ok(RoleEdit(role.(assignable := flag), Some(AssignabilityChanged)))
  }

  function EditAddParent(role: Role, id: RoleId, parent: RoleId): Result<RoleEdit, ServiceError> {
    if !role.status.ActiveRole? then Err(RoleInactive)
    else if parent == id then Err(HierarchyError(Cycle))
    else if parent in role.parents then Ok(RoleEdit(role, None))
    else Ok(RoleEdit(role.(parents := role.parents + {parent}), Some(ParentAdded)))
  }

  function EditRemoveParent(role: Role, parent: RoleId): Result<RoleEdit, ServiceError> {
    if !role.status.ActiveRole? then Err(RoleInactive)
    else if parent !in role.parents then Ok(RoleEdit(role, None))
    else Ok(RoleEdit(role.(parents := role.parents - {parent}), Some(ParentRemoved)))
  }

  /** The copy is saved whether or not the edit recorded a change. */
  function SaveEdited(id: RoleId, edit: Result<RoleEdit, ServiceError>, now: Time): Outcome {
    match edit
    case Err(e) => Err(e)
    case Ok(RoleEdit(role, change)) =>
      Ok(Saved(SaveRole(id, role), if change.Some? then [RoleEvent(change.value, id, role.tenant, now)] else []))
  }

  function CreateRoleCall(id: RoleId, tenant: Option<TenantId>, assignable: bool, sensitive: bool, now: Time): Outcome {
    Ok(Saved(SaveRole(id, Role(tenant, ActiveRole, {}, {}, assignable, sensitive)),
             [RoleEvent(RoleCreated, id, tenant, now)]))
  }

  function AddPermissionCall(r: Repositories, id: RoleId, p: PermissionCode, now: Time): Outcome {
    if id !in r.roles then Err(RoleNotFound)
    else if p !in r.permissions then Err(PermissionNotFound)
    else SaveEdited(id, EditAddPermission(r.roles[id], p), now)
  }

  /** The first reason to refuse a parent, in the order the service checks. */
  function ParentProblem(c: Catalog, maxDepth: nat, id: RoleId, parent: RoleId): (problem: Option<ServiceError>)
    ensures problem.None? ==> id in c && parent in c
  {
    if id !in c || parent !in c then Some(RoleNotFound)
    else if !c[id].status.ActiveRole? || !c[parent].status.ActiveRole? then Some(HierarchyError(Unavailable))
    else if !EdgeValid(c[id].tenant, c[parent].tenant) then Some(HierarchyError(TenantMismatch))
    else if id == parent then Some(HierarchyError(Cycle))
    else
      match AncestorIds(c, maxDepth, parent)
      case Err(e) => Some(HierarchyError(e))
      case Ok(ancestors) => if id in ancestors then Some(HierarchyError(Cycle)) else None
  }

  function AddParentCall(r: Repositories, maxDepth: nat, id: RoleId, parent: RoleId, now: Time): Outcome {
    match ParentProblem(r.roles, maxDepth, id, parent)
    case Some(e) => Err(e)
    case None => SaveEdited(id, EditAddParent(r.roles[id], id, parent), now)
  }

  function RemoveParentCall(r: Repositories, id: RoleId, parent: RoleId, now: Time): Outcome {
    if id !in r.roles then Err(RoleNotFound)
    else if !r.roles[id].status.ActiveRole? then Err(HierarchyError(Unavailable))
    else SaveEdited(id, EditRemoveParent(r.roles[id], parent), now)
  }

  // ---------------------------------------------------------------- bindings

  function BindingById(bs: seq<RoleBinding>, id: BindingId): Option<RoleBinding> {
    if bs == [] then None else if bs[0].id == id then Some(bs[0]) else BindingById(bs[1..], id)
  }

  function BindingTransition(from: BindingStatus, c: BindingCommand): Option<(BindingStatus, BindingChange)> {
    match c
    case SuspendBinding =>
      if from.BindingActive? then Some((BindingStatus.BindingSuspended, BindingSuspension)) else None
    case ReactivateBinding => if from.BindingSuspended? then Some((BindingActive, BindingReactivated)) else None
    case RevokeBinding =>
      if from.BindingActive? || from.BindingSuspended? then Some((BindingStatus.BindingRevoked, BindingRevocation))
        else None
  }

  predicate AlreadyBound(bs: seq<RoleBinding>, role: RoleId, scope: TenantId) {
    exists i :: 0 <= i < |bs| && bs[i].role == role && bs[i].scope == scope
  }

  /** The first reason to refuse an assignment, in the order the service checks. */
  function AssignmentProblem(r: Repositories, maxDepth: nat, i: IdentityId, role: RoleId, t: TenantId, scope: TenantId,
                             until: Option<Time>, guarded: bool, now: Time): Option<ServiceError> {
    if i !in r.identities then Some(IdentityNotFound)
    else if r.identities[i] != Active then Some(InvalidRoleBinding)
    else if t !in r.tenants then Some(TenantNotFound)
    else if r.tenants[t] != Active then Some(TenantInactive)
    else if scope != t then Some(TenantMismatched)
    else if FindMembership(r.memberships, i, t).None? || !FindMembership(r.memberships, i, t).value.IsActive(now) then
      Some(InvalidRoleBinding)
    else if role !in r.roles then Some(RoleNotFound)
    else if !r.roles[role].status.ActiveRole? then Some(RoleInactive)
    else if !r.roles[role].assignable then Some(RoleNotAssignable)
    else if r.roles[role].tenant.Some? && r.roles[role].tenant.value != t then Some(RoleTenantMismatch)
    else if r.roles[role].sensitive && !guarded then Some(PrivilegedActionDenied)
    else
      var active := ActiveBindings(BindingsOf(r.bindings, i, t), now);
      if AlreadyBound(active, role, scope) then Some(RoleBindingAlreadyExists)
      else
        var refusal := AssignmentRefused(r.roles, maxDepth, StaticRulesFor(r.staticRules, t), RolesBound(active), role);
        if refusal.Some? then Some(StaticSodViolation(refusal.value))
        else if until.Some? && until.value <= now then Some(InvalidRoleBinding)
        else None
  }

  function AssignRoleCall(r: Repositories, maxDepth: nat, id: BindingId, i: IdentityId, role: RoleId, t: TenantId,
                          scope: TenantId, until: Option<Time>, guarded: bool, now: Time): Outcome {
    match AssignmentProblem(r, maxDepth, i, role, t, scope, until, guarded, now)
    case Some(e) => Err(e)
    case None =>
      Ok(Saved(SaveBinding(RoleBinding(id, i, role, t, scope, BindingActive, now, until)),
               [BindingEvent(RoleAssigned, id, i, t, now)]))
  }

  function BindingCall(r: Repositories, id: BindingId, c: BindingCommand, now: Time): Outcome {
    match BindingById(r.bindings, id)
    case None => Err(RoleBindingNotFound)
    case Some(b) =>
      match BindingTransition(b.status, c)
      case None => Err(InvalidTransition)
      case Some((to, change)) =>
        Ok(Saved(SaveBinding(b.(status := to)), [BindingEvent(change, id, b.identity, b.tenant, now)]))
  }

  // ---------------------------------------------------------------- governance

  predicate RuleRoleFits(role: Option<TenantId>, rule: Option<TenantId>) {
    !(rule.None? && role.Some?) && !(rule.Some? && role.Some? && role != rule)
  }

  function StaticRuleCall(r: Repositories, k: StaticRule, now: Time): Outcome {
    if k.first !in r.roles || k.second !in r.roles then Err(RoleNotFound)
    else if !RuleRoleFits(r.roles[k.first].tenant, k.tenant) || !RuleRoleFits(r.roles[k.second].tenant, k.tenant) then
      Err(InvalidGovernanceRule)
    else if k.first == k.second then Err(InvalidGovernanceRule)
    else Ok(Saved(SaveStaticRule(k), [GovernanceEvent(k.id, k.tenant, now)]))
  }

  // ---------------------------------------------------------------- every call

  /** One service call run to completion at `now`. */
  function Execute(r: Repositories, maxDepth: nat, now: Time, c: Command): Outcome {
    match c
    case CreateIdentity(i) => Ok(Saved(SaveIdentity(i, Pending), [IdentityEvent(IdentityCreated, i, now)]))
    case ChangeIdentity(i, change) => IdentityCall(r, i, change, now)
    case UpdateProfile(i) =>
      if i !in r.identities then Err(IdentityNotFound)
        else Ok(Saved(SaveIdentity(i, r.identities[i]), [UnrelatedEvent(now)]))
    case LinkExternalIdentity(i) =>
      if i !in r.identities then Err(IdentityNotFound)
        else Ok(Saved(SaveIdentity(i, r.identities[i]), [IdentityLinkEvent(i, now)]))
    case CreateTenant(t) => Ok(Saved(SaveTenant(t, Pending), [TenantEvent(TenantCreated, t, now)]))
    case ChangeTenant(t, change) => TenantCall(r, t, change, now)
    case CreateMembership(id, i, t, until) => CreateMembershipCall(r, id, i, t, until, now)
    case ChangeMembership(id, mc) => MembershipCall(r, id, mc, now)
    case RegisterPermission(p) =>
      if p in r.permissions then Err(PermissionAlreadyExists) else Ok(Saved(SavePermission(p), [PermissionEvent(now)]))
    case CreateRole(id, tenant, assignable, sensitive) => CreateRoleCall(id, tenant, assignable, sensitive, now)
    case AddPermission(id, p) => AddPermissionCall(r, id, p, now)
    case RemovePermission(id, p) =>
      if id !in r.roles then Err(RoleNotFound) else SaveEdited(id, EditRemovePermission(r.roles[id], p), now)
    case DisableRole(id) => if id !in r.roles then Err(RoleNotFound) else SaveEdited(id, EditDisable(r.roles[id]), now)
    case SetSensitive(id, flag) =>
      if id !in r.roles then Err(RoleNotFound) else SaveEdited(id, EditSensitive(r.roles[id], flag), now)
    case SetAssignable(id, flag) =>
      if id !in r.roles then Err(RoleNotFound) else SaveEdited(id, EditAssignable(r.roles[id], flag), now)
    case AddParent(id, parent) => AddParentCall(r, maxDepth, id, parent, now)
    case RemoveParent(id, parent) => RemoveParentCall(r, id, parent, now)
    case AssignRole(id, i, role, t, scope, until, guarded) =>
      AssignRoleCall(r, maxDepth, id, i, role, t, scope, until, guarded, now)
    case ChangeBinding(id, bc) => BindingCall(r, id, bc, now)
    case RegisterConstraint(k) =>
      if k.permission !in r.permissions then Err(PermissionNotFound)
        else Ok(Saved(SaveConstraint(k), [GovernanceEvent(k.id, k.tenant, now)]))
    case RegisterStaticRule(k) => StaticRuleCall(r, k, now)
    case RegisterDynamicRule(k) =>
      if k.permission !in r.permissions then Err(PermissionNotFound)
        else Ok(Saved(SaveDynamicRule(k), [GovernanceEvent(k.id, k.tenant, now)]))
  }

  /** New aggregates get identifiers no stored aggregate has. */
  predicate FreshIds(r: Repositories, c: Command) {
    match c
    case CreateIdentity(i) => i !in r.identities
    case CreateTenant(t) => t !in r.tenants
    case CreateMembership(id, _, _, _) => forall m :: m in r.memberships ==> m.id != id
    case CreateRole(id, _, _, _) => id !in r.roles
    case AssignRole(id, _, _, _, _, _, _) => forall b :: b in r.bindings ==> b.id != id
    case _ => true
  }

  // ---------------------------------------------------------------- calls as protocol steps

  lemma {:induction false} MembershipByIdFound(ms: seq<Membership>, id: MembershipId)
    ensures MembershipById(ms, id).Some? ==> MembershipById(ms, id).value in ms && MembershipById(ms, id).value.id == id
    ensures MembershipById(ms, id).None? ==> forall m :: m in ms ==> m.id != id
  {
    if ms != [] { MembershipByIdFound(ms[1..], id); }
  }

  lemma {:induction false} MembershipStays(ms: seq<Membership>, m: Membership, id: MembershipId)
    ensures MembershipById(PutMembership(ms, m), id) == if id == m.id then Some(m) else MembershipById(ms, id)
  {
    if ms != [] && ms[0].id != m.id { MembershipStays(ms[1..], m, id); }
  }

  lemma {:induction false} BindingByIdFound(bs: seq<RoleBinding>, id: BindingId)
    ensures BindingById(bs, id).Some? ==> BindingById(bs, id).value in bs && BindingById(bs, id).value.id == id
    ensures BindingById(bs, id).None? ==> forall b :: b in bs ==> b.id != id
  {
    if bs != [] { BindingByIdFound(bs[1..], id); }
  }

  /** Membership identifiers are unique, and so is the membership of an identity in a tenant. */
  ghost predicate UniqueMemberships(ms: seq<Membership>) {
    && (forall i, j :: 0 <= i < j < |ms| ==> ms[i].id != ms[j].id)
    && (forall i, j :: 0 <= i < j < |ms| ==> !(ms[i].identity == ms[j].identity && ms[i].tenant == ms[j].tenant))
  }

  ghost predicate Healthy(r: Repositories, now: Time) {
    Sound(r) && StartedBy(r, now) && UniqueMemberships(r.memberships) && Acyclic(r.roles)
  }

  lemma RoleCallPermitted(r: Repositories, maxDepth: nat, now: Time, c: Command)
    requires Healthy(r, now) && RoleCommand(c) && Execute(r, maxDepth, now, c).Ok?
    ensures Permitted(r, Execute(r, maxDepth, now, c).value.write, now)
  {
  }

  lemma MembershipCallPermitted(r: Repositories, maxDepth: nat, now: Time, c: Command)
    requires Healthy(r, now) && (c.CreateMembership? || c.ChangeMembership?) && FreshIds(r, c)
      && Execute(r, maxDepth, now, c).Ok?
    ensures Permitted(r, Execute(r, maxDepth, now, c).value.write, now)
  {
    if c.ChangeMembership? { MembershipByIdFound(r.memberships, c.membership); }
  }

  lemma BindingCallPermitted(r: Repositories, maxDepth: nat, now: Time, c: Command)
    requires Healthy(r, now) && (c.AssignRole? || c.ChangeBinding?) && FreshIds(r, c)
      && Execute(r, maxDepth, now, c).Ok?
    ensures Permitted(r, Execute(r, maxDepth, now, c).value.write, now)
  {
    if c.ChangeBinding? { BindingByIdFound(r.bindings, c.binding); }
  }

  /** Every successful call makes a permitted write. */
  lemma ExecutePermitted(r: Repositories, maxDepth: nat, now: Time, c: Command)
    requires Healthy(r, now) && FreshIds(r, c) && Execute(r, maxDepth, now, c).Ok?
    ensures Permitted(r, Execute(r, maxDepth, now, c).value.write, now)
  {
    if RoleCommand(c) { RoleCallPermitted(r, maxDepth, now, c); }
    else if c.CreateMembership? || c.ChangeMembership? { MembershipCallPermitted(r, maxDepth, now, c); }
    else if c.AssignRole? || c.ChangeBinding? { BindingCallPermitted(r, maxDepth, now, c); }
  }

  // ---------------------------------------------------------------- saves that come late

  predicate SameAggregate(w: Write, other: Write) {
    || (w.SaveMembership? && other.SaveMembership? && w.membership.id == other.membership.id)
    || (w.SaveRole? && other.SaveRole? && w.id == other.id)
    || (w.SaveBinding? && other.SaveBinding? && w.binding.id == other.binding.id)
  }

  /** The write saves an aggregate that is there already. */
  ghost predicate Known(r: Repositories, w: Write) {
    match w
    case SaveMembership(m) => exists x :: x in r.memberships && x.id == m.id
    case SaveRole(id, _) => id in r.roles
    case SaveBinding(b) => exists x :: x in r.bindings && x.id == b.id
    case _ => true
  }

  lemma {:induction false} PutMembershipMember(ms: seq<Membership>, m: Membership)
    ensures m in PutMembership(ms, m)
    ensures forall x :: x in PutMembership(ms, m) ==> x == m || x in ms
    ensures forall x :: x in ms ==> x.id == m.id || x in PutMembership(ms, m)
  {
    PutMembershipFields(ms, m);
    MembershipByIdFound(ms, m.id);
    var out := PutMembership(ms, m);
    if MembershipById(ms, m.id).Some? {
      var k :| 0 <= k < |ms| && ms[k].id == m.id && out == ms[k := m];
      assert out[k] == m;
      forall x | x in ms && x.id != m.id ensures x in out {
        var n :| 0 <= n < |ms| && ms[n] == x;
        assert out[n] == x;
      }
    }
  }

  /** A permitted write stays permitted under another one, unless both create the same aggregate. */
  lemma PermittedPersists(r: Repositories, w: Write, other: Write, clock: Time, later: Time)
    requires Sound(r) && clock <= later && Permitted(r, w, clock) && Permitted(r, other, later)
    requires Known(r, w) || !SameAggregate(w, other)
    ensures Permitted(ApplyWrite(r, other), w, later)
    ensures Known(r, w) ==> Known(ApplyWrite(r, other), w)
  {
    if other.SaveMembership? { PutMembershipMember(r.memberships, other.membership); }
    if other.SaveBinding? { PutBindingMember(r.bindings, other.binding); }
  }

  type TimedWrite = (Time, Write)

  function ApplyAll(r: Repositories, ws: seq<TimedWrite>): Repositories
    decreases |ws|
  {
    if ws == [] then r else ApplyAll(ApplyWrite(r, ws[0].1), ws[1..])
  }

  function LastAt(now: Time, ws: seq<TimedWrite>): Time
    decreases |ws|
  {
    if ws == [] then now else LastAt(ws[0].0, ws[1..])
  }

  ghost predicate AllPermitted(r: Repositories, now: Time, ws: seq<TimedWrite>)
    decreases |ws|
  {
    ws == []
    || (now <= ws[0].0 && Permitted(r, ws[0].1, ws[0].0) && AllPermitted(ApplyWrite(r, ws[0].1), ws[0].0, ws[1..]))
  }

  lemma {:induction false} PermittedThroughout(r: Repositories, w: Write, now: Time, ws: seq<TimedWrite>)
    requires Sound(r) && StartedBy(r, now) && Permitted(r, w, now) && AllPermitted(r, now, ws)
    requires Known(r, w) || forall n :: 0 <= n < |ws| ==> !SameAggregate(w, ws[n].1)
    ensures Permitted(ApplyAll(r, ws), w, LastAt(now, ws))
    decreases |ws|
  {
    if ws != [] {
      PermittedPersists(r, w, ws[0].1, now, ws[0].0);
      PermittedKeepsSound(r, ws[0].1, ws[0].0);
      PermittedThroughout(ApplyWrite(r, ws[0].1), w, ws[0].0, ws[1..]);
    }
  }

  /** What a service checked stays good: a call that loaded and checked at `now` may save after any permitted
  writes of others, so long as nobody else creates the aggregate that it creates. */
  lemma {:induction false} LateSavePermitted(r: Repositories, maxDepth: nat, now: Time, c: Command, ws: seq<TimedWrite>)
    requires Healthy(r, now) && FreshIds(r, c) && Execute(r, maxDepth, now, c).Ok?
    requires AllPermitted(r, now, ws)
    requires var w := Execute(r, maxDepth, now, c).value.write;
      Known(r, w) || forall n :: 0 <= n < |ws| ==> !SameAggregate(w, ws[n].1)
    ensures Permitted(ApplyAll(r, ws), Execute(r, maxDepth, now, c).value.write, LastAt(now, ws))
  {
    ExecutePermitted(r, maxDepth, now, c);
    PermittedThroughout(r, Execute(r, maxDepth, now, c).value.write, now, ws);
  }

  ghost predicate Announced(saved: Saved) {
    exists e :: e in saved.events && Advances(e).Some? && Covers(Advances(e).value, saved.write)
  }

  /** The first event's dimension is the write's own (for an external identity link, one that covers it). */
  ghost predicate FirstEventFits(saved: Saved) {
    && saved.events != [] && Advances(saved.events[0]).Some?
    && (Advances(saved.events[0]).value == DimensionOf(saved.write)
        || (saved.events[0].IdentityLinkEvent? && saved.write.SaveIdentity?
            && Advances(saved.events[0]).value == AuthenticationState(saved.write.identity)))
  }

  /** Linking an external identity saves the identity without changing its lifecycle. */
  ghost predicate LinkWritesBack(r: Repositories, saved: Saved) {
    saved.events != [] && saved.events[0].IdentityLinkEvent? ==> ApplyWrite(r, saved.write) == r
  }

  lemma FirstEventAnnounces(saved: Saved)
    requires FirstEventFits(saved)
    ensures Announced(saved)
  {
    var e := saved.events[0];
    assert e in saved.events && Covers(Advances(e).value, saved.write);
  }

  lemma EditedAnnounced(r: Repositories, id: RoleId, edit: Result<RoleEdit, ServiceError>, now: Time)
    requires id in r.roles && SaveEdited(id, edit, now).Ok?
    requires edit.Ok? ==>
      edit.value.role.tenant == r.roles[id].tenant && (edit.value.change.None? ==> edit.value.role == r.roles[id])
    ensures var saved := SaveEdited(id, edit, now).value;
      LinkWritesBack(r, saved) && (FirstEventFits(saved) || (saved.events == [] && ApplyWrite(r, saved.write) == r))
  {
    if edit.value.change.None? { assert r.roles[id := r.roles[id]] == r.roles; }
  }

  predicate RoleCommand(c: Command) {
    c.AddPermission? || c.RemovePermission? || c.DisableRole? || c.SetSensitive? || c.SetAssignable? || c.AddParent?
      || c.RemoveParent?
  }

  lemma RoleCallAnnounced(r: Repositories, maxDepth: nat, now: Time, c: Command)
    requires RoleCommand(c) && Execute(r, maxDepth, now, c).Ok?
    ensures var saved := Execute(r, maxDepth, now, c).value;
      LinkWritesBack(r, saved) && (FirstEventFits(saved) || (saved.events == [] && ApplyWrite(r, saved.write) == r))
  {
    var role := r.roles[c.role];
    match c
    case AddPermission(id, p) => EditedAnnounced(r, id, EditAddPermission(role, p), now);
    case RemovePermission(id, p) => EditedAnnounced(r, id, EditRemovePermission(role, p), now);
    case DisableRole(id) => EditedAnnounced(r, id, EditDisable(role), now);
    case SetSensitive(id, flag) => EditedAnnounced(r, id, EditSensitive(role, flag), now);
    case SetAssignable(id, flag) => EditedAnnounced(r, id, EditAssignable(role, flag), now);
    case AddParent(id, parent) => EditedAnnounced(r, id, EditAddParent(role, id, parent), now);
    case RemoveParent(id, parent) => EditedAnnounced(r, id, EditRemoveParent(role, parent), now);
  }

  predicate PartyCommand(c: Command) {
    c.CreateIdentity? || c.ChangeIdentity? || c.UpdateProfile? || c.LinkExternalIdentity? || c.CreateTenant?
      || c.ChangeTenant?
    || c.CreateMembership? || c.ChangeMembership?
  }

  lemma PartyCallAnnounced(r: Repositories, maxDepth: nat, now: Time, c: Command)
    requires PartyCommand(c) && Execute(r, maxDepth, now, c).Ok?
    ensures var saved := Execute(r, maxDepth, now, c).value;
      LinkWritesBack(r, saved)
        && (FirstEventFits(saved) || (saved.events == [UnrelatedEvent(now)] && ApplyWrite(r, saved.write) == r))
  {
    if c.UpdateProfile? || c.LinkExternalIdentity? {
      assert r.identities[c.identity := r.identities[c.identity]] == r.identities;
    }
    if c.ChangeMembership? { MembershipByIdFound(r.memberships, c.membership); }
  }

  lemma ChangeBindingAnnounced(r: Repositories, id: BindingId, bc: BindingCommand, now: Time)
    requires BindingCall(r, id, bc, now).Ok?
    ensures FirstEventFits(BindingCall(r, id, bc, now).value) && LinkWritesBack(r, BindingCall(r, id, bc, now).value)
  {
  }

  lemma AssignRoleAnnounced(r: Repositories, maxDepth: nat, id: BindingId, i: IdentityId, role: RoleId, t: TenantId,
                            scope: TenantId, until: Option<Time>, guarded: bool, now: Time)
    requires AssignRoleCall(r, maxDepth, id, i, role, t, scope, until, guarded, now).Ok?
    ensures FirstEventFits(AssignRoleCall(r, maxDepth, id, i, role, t, scope, until, guarded, now).value)
    ensures LinkWritesBack(r, AssignRoleCall(r, maxDepth, id, i, role, t, scope, until, guarded, now).value)
  {
  }

  lemma CatalogCallAnnounced(r: Repositories, maxDepth: nat, now: Time, c: Command)
    requires c.RegisterPermission? || c.CreateRole? || c.RegisterConstraint? || c.RegisterStaticRule?
      || c.RegisterDynamicRule?
    requires Execute(r, maxDepth, now, c).Ok?
    ensures FirstEventFits(Execute(r, maxDepth, now, c).value) && LinkWritesBack(r, Execute(r, maxDepth, now, c).value)
  {
  }

  /** Every successful call either announces a dimension that covers its write, or wrote back what it read. */
  lemma ExecuteAnnounced(r: Repositories, maxDepth: nat, now: Time, c: Command)
    requires Execute(r, maxDepth, now, c).Ok?
    ensures var saved := Execute(r, maxDepth, now, c).value;
      && LinkWritesBack(r, saved)
      && ((FirstEventFits(saved) && Announced(saved))
          || ((saved.events == [] || saved.events == [UnrelatedEvent(now)]) && ApplyWrite(r, saved.write) == r))
  {
    if RoleCommand(c) { RoleCallAnnounced(r, maxDepth, now, c); } else if PartyCommand(c) {
      PartyCallAnnounced(r, maxDepth, now, c);
    }
    else if c.ChangeBinding? { ChangeBindingAnnounced(r, c.binding, c.bindingCommand, now); }
    else if c.AssignRole? {
      AssignRoleAnnounced(r, maxDepth, c.binding, c.identity, c.role, c.tenant, c.scope, c.validUntil, c.guarded, now);
    } else { CatalogCallAnnounced(r, maxDepth, now, c); }
    var saved := Execute(r, maxDepth, now, c).value;
    if FirstEventFits(saved) { FirstEventAnnounces(saved); }
  }

  // ---------------------------------------------------------------- the hierarchy over all runs

  lemma {:induction false} FirstVisit(c: Catalog, c': Catalog, s: seq<RoleId>, r: RoleId) returns (t: seq<RoleId>)
    requires IsPath(c', s) && s[|s| - 1] == r
    requires forall v :: v != r && v in c' ==> v in c && c[v].parents == c'[v].parents
    ensures PathFrom(c, s[0], t) && t[|t| - 1] == r
    decreases |s|
  {
    if s[0] == r {
      t := [r];
    } else {
      assert IsPath(c', s[1..]);
      var rest := FirstVisit(c, c', s[1..], r);
      ExtendLeft(c, s[0], s[1], rest);
      t := [s[0]] + rest;
    }
  }

  /** A cycle that uses the edge from `r` to `p` makes a path from `p` to `r` without it. */
  lemma CycleUsesEdge(c: Catalog, c': Catalog, r: RoleId, p: RoleId, q: seq<RoleId>, i: nat)
    requires r in c && c' == c[r := c[r].(parents := c[r].parents + {p})] && r != p
    requires IsPath(c', q) && q[0] == q[|q| - 1] && i < |q| - 1 && q[i] == r && q[i + 1] == p
    ensures ProperlyReaches(c, p, r)
  {
    var tail, head := q[i + 1..], q[..i + 1];
    assert IsPath(c', tail) && IsPath(c', head);
    Concatenate(c', tail, head);
    var t := FirstVisit(c, c', tail + head[1..], r);
    assert PathFrom(c, p, t) && |t| >= 2;
  }

  /** Adding a parent that does not properly inherit the child makes no cycle anywhere. */
  lemma NewEdgeKeepsAcyclic(c: Catalog, r: RoleId, p: RoleId, c': Catalog)
    requires Acyclic(c) && r in c && r != p && !ProperlyReaches(c, p, r)
    requires c' == c[r := c[r].(parents := c[r].parents + {p})]
    ensures Acyclic(c')
  {
    forall v
      ensures !ProperlyReaches(c', v, v)
    {
      assert !ProperlyReaches(c, v, v);
      if ProperlyReaches(c', v, v) {
        var q :| PathFrom(c', v, q) && |q| >= 2 && q[|q| - 1] == v;
        if i :| 0 <= i < |q| - 1 && q[i] == r && q[i + 1] == p {
          CycleUsesEdge(c, c', r, p, q, i);
        } else {
          assert PathFrom(c, v, q);
        }
      }
    }
  }

  lemma FewerEdgesKeepAcyclic(c: Catalog, c': Catalog)
    requires Acyclic(c)
    requires forall v, p :: v in c' && p in c'[v].parents ==> v in c && p in c[v].parents
    ensures Acyclic(c')
  {
    forall v
      ensures !ProperlyReaches(c', v, v)
    {
      assert !ProperlyReaches(c, v, v);
      if ProperlyReaches(c', v, v) {
        var q :| PathFrom(c', v, q) && |q| >= 2 && q[|q| - 1] == v;
        forall i | 0 <= i < |q| - 1
          ensures q[i] in c && q[i + 1] in c[q[i]].parents
        {
          assert q[i] in c' && q[i + 1] in c'[q[i]].parents;
        }
        assert PathFrom(c, v, q);
      }
    }
  }

  /** What makes a parent acceptable. */
  ghost predicate ParentAcceptable(c: Catalog, id: RoleId, parent: RoleId) {
    && Available(c, id) && Available(c, parent) && EdgeValid(c[id].tenant, c[parent].tenant)
    && CleanBelow(c, parent) && !Reaches(c, parent, id)
  }

  /** A parent is accepted only if it is acceptable, and an acceptable one is refused only for depth: on a
  hierarchy within the limit, exactly the acceptable parents are accepted. */
  lemma AddParentExact(r: Repositories, maxDepth: nat, id: RoleId, parent: RoleId, now: Time)
    ensures var outcome := AddParentCall(r, maxDepth, id, parent, now);
      && (outcome.Ok? ==> ParentAcceptable(r.roles, id, parent))
      && (ParentAcceptable(r.roles, id, parent) && outcome.Err? ==>
            outcome.error == HierarchyError(DepthExceeded) && !DepthWithin(r.roles, parent, maxDepth))
      && (DepthWithin(r.roles, parent, maxDepth) ==> (outcome.Ok? <==> ParentAcceptable(r.roles, id, parent)))
  {
    var c := r.roles;
    if id in c && parent in c {
      ReachesSelf(c, parent);
      if AncestorIds(c, maxDepth, parent).Ok? {
        AncestorsExact(c, maxDepth, parent);
        ReachesOtherwise(c, parent, id);
      } else {
        AncestorsErrorGenuine(c, maxDepth, parent);
      }
    }
  }

  lemma ReachesOtherwise(c: Catalog, a: RoleId, b: RoleId)
    ensures Reaches(c, a, b) <==> a == b || ProperlyReaches(c, a, b)
  {
    ReachesSelf(c, a);
    if Reaches(c, a, b) {
      var p :| PathFrom(c, a, p) && p[|p| - 1] == b;
    }
  }

  lemma AddParentKeepsAcyclic(r: Repositories, maxDepth: nat, id: RoleId, parent: RoleId, now: Time)
    requires Acyclic(r.roles) && AddParentCall(r, maxDepth, id, parent, now).Ok?
    ensures Acyclic(ApplyWrite(r, AddParentCall(r, maxDepth, id, parent, now).value.write).roles)
  {
    var c' := ApplyWrite(r, AddParentCall(r, maxDepth, id, parent, now).value.write).roles;
    AncestorsExact(r.roles, maxDepth, parent);
    if parent in r.roles[id].parents {
      assert c' == r.roles;
    } else {
      NewEdgeKeepsAcyclic(r.roles, id, parent, c');
    }
  }

  lemma RoleCallKeepsAcyclic(r: Repositories, maxDepth: nat, now: Time, c: Command)
    requires Acyclic(r.roles) && RoleCommand(c) && Execute(r, maxDepth, now, c).Ok?
    ensures Acyclic(ApplyWrite(r, Execute(r, maxDepth, now, c).value.write).roles)
  {
    if c.AddParent? {
      AddParentKeepsAcyclic(r, maxDepth, c.role, c.parent, now);
    } else {
      FewerEdgesKeepAcyclic(r.roles, ApplyWrite(r, Execute(r, maxDepth, now, c).value.write).roles);
    }
  }

  lemma OtherKeepRoles(r: Repositories, maxDepth: nat, now: Time, c: Command)
    requires !RoleCommand(c) && !c.CreateRole? && Execute(r, maxDepth, now, c).Ok?
    ensures ApplyWrite(r, Execute(r, maxDepth, now, c).value.write).roles == r.roles
  {
  }

  lemma ExecuteKeepsAcyclic(r: Repositories, maxDepth: nat, now: Time, c: Command)
    requires Healthy(r, now) && FreshIds(r, c) && Execute(r, maxDepth, now, c).Ok?
    ensures Acyclic(ApplyWrite(r, Execute(r, maxDepth, now, c).value.write).roles)
  {
    if RoleCommand(c) {
      RoleCallKeepsAcyclic(r, maxDepth, now, c);
    } else if c.CreateRole? {
      FewerEdgesKeepAcyclic(r.roles, ApplyWrite(r, Execute(r, maxDepth, now, c).value.write).roles);
    } else {
      OtherKeepRoles(r, maxDepth, now, c);
    }
  }

  lemma {:induction false} PutMembershipFields(ms: seq<Membership>, m: Membership)
    ensures var out := PutMembership(ms, m);
      if MembershipById(ms, m.id).None? then out == ms + [m]
      else |out| == |ms| && exists k :: 0 <= k < |ms| && ms[k].id == m.id && out == ms[k := m]
  {
    if ms != [] && ms[0].id != m.id {
      PutMembershipFields(ms[1..], m);
      if MembershipById(ms, m.id).Some? {
        var out := PutMembership(ms[1..], m);
        var k :| 0 <= k < |ms[1..]| && ms[1..][k].id == m.id && out == ms[1..][k := m];
        assert [ms[0]] + out == ms[k + 1 := m];
      }
    } else if ms != [] {
      assert [m] + ms[1..] == ms[0 := m];
    }
  }

  lemma {:induction false} NotFoundInPair(ms: seq<Membership>, i: IdentityId, t: TenantId)
    requires FindMembership(ms, i, t).None?
    ensures forall m :: m in ms ==> !(m.identity == i && m.tenant == t)
  {
    if ms != [] { NotFoundInPair(ms[1..], i, t); }
  }

  lemma {:induction false} PutKeepsUnique(ms: seq<Membership>, m: Membership)
    requires UniqueMemberships(ms)
    requires forall x :: x in ms ==> (x.id == m.id <==> x.identity == m.identity && x.tenant == m.tenant)
    ensures UniqueMemberships(PutMembership(ms, m))
  {
    PutMembershipFields(ms, m);
    MembershipByIdFound(ms, m.id);
  }

  lemma ExecuteKeepsMemberships(r: Repositories, maxDepth: nat, now: Time, c: Command)
    requires Healthy(r, now) && FreshIds(r, c) && Execute(r, maxDepth, now, c).Ok?
    ensures UniqueMemberships(ApplyWrite(r, Execute(r, maxDepth, now, c).value.write).memberships)
  {
    if c.CreateMembership? {
      NotFoundInPair(r.memberships, c.identity, c.tenant);
      PutKeepsUnique(r.memberships, Execute(r, maxDepth, now, c).value.write.membership);
    } else if c.ChangeMembership? {
      MembershipByIdFound(r.memberships, c.membership);
      PutKeepsUnique(r.memberships, Execute(r, maxDepth, now, c).value.write.membership);
    } else {
      OtherKeepMemberships(r, maxDepth, now, c);
    }
  }

  lemma OtherKeepMemberships(r: Repositories, maxDepth: nat, now: Time, c: Command)
    requires !c.CreateMembership? && !c.ChangeMembership? && Execute(r, maxDepth, now, c).Ok?
    ensures ApplyWrite(r, Execute(r, maxDepth, now, c).value.write).memberships == r.memberships
  {
  }

  lemma ExecuteKeepsHealthy(r: Repositories, maxDepth: nat, now: Time, c: Command)
    requires Healthy(r, now) && FreshIds(r, c) && Execute(r, maxDepth, now, c).Ok?
    ensures Healthy(ApplyWrite(r, Execute(r, maxDepth, now, c).value.write), now)
  {
    ExecutePermitted(r, maxDepth, now, c);
    PermittedKeepsSound(r, Execute(r, maxDepth, now, c).value.write, now);
    ExecuteKeepsAcyclic(r, maxDepth, now, c);
    ExecuteKeepsMemberships(r, maxDepth, now, c);
  }

  const NoRepositories := Repositories(map[], map[], [], {}, map[], [], [], [], [])

  type Timed = (Time, Command)

  function ExecuteAll(r: Repositories, maxDepth: nat, calls: seq<Timed>): Repositories
    decreases |calls|
  {
    if calls == [] then r
    else
      match Execute(r, maxDepth, calls[0].0, calls[0].1)
      case Err(_) => ExecuteAll(r, maxDepth, calls[1..])
      case Ok(saved) => ExecuteAll(ApplyWrite(r, saved.write), maxDepth, calls[1..])
  }

  /** The clock does not go back, and identifiers of new aggregates are new. */
  ghost predicate Plausible(r: Repositories, maxDepth: nat, now: Time, calls: seq<Timed>)
    decreases |calls|
  {
    calls == [] ||
    (now <= calls[0].0 && FreshIds(r, calls[0].1) &&
     match Execute(r, maxDepth, calls[0].0, calls[0].1)
     case Err(_) => Plausible(r, maxDepth, calls[0].0, calls[1..])
     case Ok(saved) => Plausible(ApplyWrite(r, saved.write), maxDepth, calls[0].0, calls[1..]))
  }

  lemma {:induction false} RunKeepsHealthy(r: Repositories, maxDepth: nat, now: Time, calls: seq<Timed>)
    requires Healthy(r, now) && Plausible(r, maxDepth, now, calls)
    ensures exists later :: Healthy(ExecuteAll(r, maxDepth, calls), later)
    decreases |calls|
  {
    if calls == [] {
      assert Healthy(ExecuteAll(r, maxDepth, calls), now);
    } else {
      var at := calls[0].0;
      match Execute(r, maxDepth, at, calls[0].1)
      case Err(_) =>
        RunKeepsHealthy(r, maxDepth, at, calls[1..]);
        assert ExecuteAll(r, maxDepth, calls) == ExecuteAll(r, maxDepth, calls[1..]);
      case Ok(saved) =>
        ExecuteKeepsHealthy(r, maxDepth, at, calls[0].1);
        RunKeepsHealthy(ApplyWrite(r, saved.write), maxDepth, at, calls[1..]);
        assert ExecuteAll(r, maxDepth, calls) == ExecuteAll(ApplyWrite(r, saved.write), maxDepth, calls[1..]);
    }
  }

  /** From empty repositories, every sequence of service calls keeps the whole parent graph (disabled
  Roles included) acyclic, every edge and every binding within its tenant; so a resolution can only
  be refused for a disabled Role or for depth. */
  lemma {:induction false} ReachableCatalogs(maxDepth: nat, calls: seq<Timed>, now: Time)
    requires Plausible(NoRepositories, maxDepth, now, calls)
    ensures var r := ExecuteAll(NoRepositories, maxDepth, calls);
      && Acyclic(r.roles) && Sound(r) && UniqueMemberships(r.memberships)
      && forall root :: root in r.roles && ResolveRoles(r.roles, maxDepth, root).Err? ==>
           ResolveRoles(r.roles, maxDepth, root).error.Unavailable?
             || ResolveRoles(r.roles, maxDepth, root).error.DepthExceeded?
  {
    var none := NoRepositories;
    forall v ensures !ProperlyReaches(none.roles, v, v) {}
    RunKeepsHealthy(none, maxDepth, now, calls);
    var r := ExecuteAll(none, maxDepth, calls);
    forall root | root in r.roles && ResolveRoles(r.roles, maxDepth, root).Err?
      ensures ResolveRoles(r.roles, maxDepth, root).error.Unavailable?
        || ResolveRoles(r.roles, maxDepth, root).error.DepthExceeded?
    {
      ResolveErrorGenuine(r.roles, maxDepth, root);
    }
  }

  // ---------------------------------------------------------------- separation of duties

  /** A successful assignment leaves no applicable rule with both of its Roles inherited through the
  subject's active bindings together with the new one. */
  lemma {:induction false} AssignmentIsSodSafe(r: Repositories, maxDepth: nat, c: Command, now: Time)
    requires c.AssignRole? && Execute(r, maxDepth, now, c).Ok?
    ensures SodSafe(r.roles, StaticRulesFor(r.staticRules, c.tenant),
                    RolesBound(ActiveBindings(BindingsOf(r.bindings, c.identity, c.tenant), now)) + [c.role])
  {
    AssignmentExact(r.roles, maxDepth, StaticRulesFor(r.staticRules, c.tenant),
                    RolesBound(ActiveBindings(BindingsOf(r.bindings, c.identity, c.tenant), now)), c.role);
  }
}
