/** The default-deny authorization decision, as a function of what the repositories hold. */
module Authorization {
  import opened Prelude
  import opened RoleGraph
  import opened RoleHierarchy
  import opened Governance

  /** Lifecycle of an identity and of a tenant. */
  datatype Lifecycle = Pending | Active | Suspended | Disabled | Archived

  datatype MembershipStatus =
    | MembershipPending | MembershipActive | MembershipSuspended | MembershipExpired | MembershipRevoked

  datatype BindingStatus = BindingActive | BindingSuspended | BindingExpired | BindingRevoked

  predicate InWindow(validFrom: Time, validUntil: Option<Time>, at: Time) {
    validFrom <= at && (validUntil.None? || at < validUntil.value)
  }

  datatype Membership = Membership(id: MembershipId, identity: IdentityId, tenant: TenantId, status: MembershipStatus,
                                   validFrom: Time, validUntil: Option<Time>)
  {
    predicate IsActive(at: Time) { status.MembershipActive? && InWindow(validFrom, validUntil, at) }
  }

  datatype RoleBinding = RoleBinding(id: BindingId, identity: IdentityId, role: RoleId, tenant: TenantId,
                                     scope: TenantId, status: BindingStatus, validFrom: Time, validUntil: Option<Time>)
  {
    predicate IsActive(at: Time) { status.BindingActive? && InWindow(validFrom, validUntil, at) }
  }

  /** What the repositories hold; sequences are in the order of insertion. */
  datatype Repositories = Repositories(
    identities: map<IdentityId, Lifecycle>,
    tenants: map<TenantId, Lifecycle>,
    memberships: seq<Membership>,
    permissions: set<PermissionCode>,
    roles: Catalog,
    bindings: seq<RoleBinding>,
    constraints: seq<Constraint>,
    staticRules: seq<StaticRule>,
    dynamicRules: seq<DynamicRule>)

  datatype Reason =
    | AllowRolePermissionMatch | AllowInheritedRolePermissionMatch
    | DenySubjectNotFound | DenySubjectInactive | DenyTenantNotFound | DenyTenantInactive
    | DenyMembershipNotFound | DenyPermissionNotRegistered | DenyNoActiveBinding | DenyScopeMismatch
    | DenyRoleUnavailable | DenyRoleTenantMismatch | DenyRoleHierarchyInvalid | DenyPermissionNotGranted
    | DenyAuthenticationContextMissing | DenyStepUpRequired | DenyConstraintContextMissing | DenyConstraintViolation
    | DenySodContextMissing | DenySodDynamicConflict | DenySodStaticConflict

  datatype RevocationTarget = SessionTarget | IdentityTarget | MembershipTarget | BindingTarget | TenantTarget

  datatype Explanation =
    | ByBinding(binding: BindingId)
    | ByRole(role: RoleId)
    | ByRule(rule: RuleId)
    | ByGovernance(kind: ViolationKind)
    | ByHierarchyError(error: HierarchyError)
    | ByRevocation(target: RevocationTarget, id: nat)
    | ByRevocationReason(text: string)

  datatype Decision = Decision(
    allowed: bool,
    reason: Reason,
    subject: IdentityId,
    tenant: TenantId,
    permission: PermissionCode,
    scope: TenantId,
    evaluatedAt: Time,
    validUntil: Option<Time>,
    membership: Option<MembershipId>,
    boundRole: Option<RoleId>,
    binding: Option<BindingId>,
    role: Option<RoleId>,
    rule: Option<RuleId>,
    requiredLevel: Option<AssuranceLevel>,
    requiredMfa: Option<bool>,
    resource: Option<ResourceDescriptor>,
    correlation: Option<string>,
    explanation: seq<Explanation>)
  {
    /** What the constructor demands. */
    predicate WellFormed() { validUntil.Some? ==> validUntil.value > evaluatedAt }
  }

  function DenyWith(q: Request, at: Time, reason: Reason, explanation: seq<Explanation>, rule: Option<RuleId>,
                    requiredLevel: Option<AssuranceLevel>, requiredMfa: Option<bool>): Decision {
    Decision(false, reason, q.subject, q.tenant, q.permission, q.scope, at, None, None, None, None, None,
             rule, requiredLevel, requiredMfa, q.resource, q.correlation, explanation)
  }

  function Deny(q: Request, at: Time, reason: Reason, explanation: seq<Explanation> := []): Decision {
    DenyWith(q, at, reason, explanation, None, None, None)
  }

  function ReasonFor(kind: ViolationKind): Reason {
    match kind
    case AuthenticationContextMissing => DenyAuthenticationContextMissing
    case AssuranceStepUpRequired => DenyStepUpRequired
    case ConstraintContextMissing => DenyConstraintContextMissing
    case ConstraintViolated => DenyConstraintViolation
    case SodContextMissing => DenySodContextMissing
    case SodDynamicConflict => DenySodDynamicConflict
    case SodStaticConflict => DenySodStaticConflict
  }

  // ---------------------------------------------------------------- repository reads

  /** `find`: the first Membership stored for the pair. */
  function FindMembership(ms: seq<Membership>, subject: IdentityId, tenant: TenantId): Option<Membership> {
    if ms == [] then None
    else if ms[0].identity == subject && ms[0].tenant == tenant then Some(ms[0])
    else FindMembership(ms[1..], subject, tenant)
  }

  function BindingsOf(bs: seq<RoleBinding>, subject: IdentityId, tenant: TenantId): seq<RoleBinding> {
    if bs == [] then [] else
      (if bs[0].identity == subject && bs[0].tenant == tenant then [bs[0]] else [])
        + BindingsOf(bs[1..], subject, tenant)
  }

  function ActiveBindings(bs: seq<RoleBinding>, at: Time): seq<RoleBinding> {
    if bs == [] then [] else
      (if bs[0].IsActive(at) then [bs[0]] else []) + ActiveBindings(bs[1..], at)
  }

  function InScope(bs: seq<RoleBinding>, scope: TenantId): seq<RoleBinding> {
    if bs == [] then [] else
      (if bs[0].scope == scope then [bs[0]] else []) + InScope(bs[1..], scope)
  }

  function Insert(b: RoleBinding, bs: seq<RoleBinding>): seq<RoleBinding> {
    if bs == [] || b.id <= bs[0].id then [b] + bs else [bs[0]] + Insert(b, bs[1..])
  }

  /** The program's `sorted(bindings, key=str(id))`. */
  function SortById(bs: seq<RoleBinding>): seq<RoleBinding> {
    if bs == [] then [] else Insert(bs[0], SortById(bs[1..]))
  }

  function RolesBound(bs: seq<RoleBinding>): seq<RoleId> {
    seq(|bs|, i requires 0 <= i < |bs| => bs[i].role)
  }

  // ---------------------------------------------------------------- the evaluation

  function EvaluateGovernance(r: Repositories, maxDepth: nat, q: Request,
                              bindings: seq<RoleBinding>): Option<Violation> {
    var standing := DetectRuntime(r.roles, maxDepth, StaticRulesFor(r.staticRules, q.tenant), RolesBound(bindings));
    if standing.Some? then standing
    else
      var dynamic := FirstDynamicViolation(DynamicRulesFor(r.dynamicRules, q.permission, q.tenant), q);
      if dynamic.Some? then dynamic
      else FirstConstraintViolation(ConstraintsFor(r.constraints, q.permission, q.tenant), q)
  }

  function EarlierOf(a: Option<Time>, b: Option<Time>): Option<Time> {
    if b.Some? && (a.None? || b.value < a.value) then b else a
  }

  function Allow(q: Request, now: Time, m: Membership, b: RoleBinding, path: seq<RoleId>): Decision
    requires path != []
  {
    Decision(true, if |path| > 1 then AllowInheritedRolePermissionMatch else AllowRolePermissionMatch,
             q.subject, q.tenant, q.permission, q.scope, now, EarlierOf(m.validUntil, b.validUntil), Some(m.id),
             Some(b.role), Some(b.id), Some(path[|path| - 1]), None, None, None, q.resource, q.correlation,
             [ByBinding(b.id)] + seq(|path|, i requires 0 <= i < |path| => ByRole(path[i])))
  }

  /** What one binding decides; None when it is passed over. */
  function TryBinding(r: Repositories, maxDepth: nat, q: Request, now: Time, m: Membership,
                      bindings: seq<RoleBinding>, b: RoleBinding): Option<Decision> {
    if !Available(r.roles, b.role) then
      Some(Deny(q, now, DenyRoleUnavailable, [ByBinding(b.id)]))
    else if r.roles[b.role].tenant.Some? && r.roles[b.role].tenant.value != q.tenant then
      Some(Deny(q, now, DenyRoleTenantMismatch, [ByBinding(b.id), ByRole(b.role)]))
    else
      match PermissionPath(r.roles, maxDepth, b.role, q.permission)
      case Err(e) =>
        Some(Deny(q, now, DenyRoleHierarchyInvalid, [ByBinding(b.id), ByRole(b.role), ByHierarchyError(e)]))
      case Ok(None) => None
      case Ok(Some(path)) =>
        match EvaluateGovernance(r, maxDepth, q, bindings)
        case Some(v) =>
          Some(DenyWith(q, now, ReasonFor(v.kind),
                        [ByBinding(b.id), ByRole(b.role), ByRule(v.rule), ByGovernance(v.kind)],
                        Some(v.rule), v.requiredLevel, v.requiredMfa))
        case None =>
          assert path != [] by { PathAgreesWithClosure(r.roles, maxDepth, b.role, q.permission); }
          Some(Allow(q, now, m, b, path))
  }

  function TryBindings(r: Repositories, maxDepth: nat, q: Request, now: Time, m: Membership,
                       bindings: seq<RoleBinding>, candidates: seq<RoleBinding>): Decision {
    if candidates == [] then Deny(q, now, DenyPermissionNotGranted)
    else
      match TryBinding(r, maxDepth, q, now, m, bindings, candidates[0])
      case Some(d) => d
      case None => TryBindings(r, maxDepth, q, now, m, bindings, candidates[1..])
  }

  /** The checks made before any binding is tried, in order; None when all pass. */
  function Screen(r: Repositories, q: Request, now: Time): (refusal: Option<Reason>)
    ensures refusal.None? ==> FindMembership(r.memberships, q.subject, q.tenant).Some?
  {
    if q.subject !in r.identities then Some(DenySubjectNotFound)
    else if r.identities[q.subject] != Active then Some(DenySubjectInactive)
    else if q.tenant !in r.tenants then Some(DenyTenantNotFound)
    else if r.tenants[q.tenant] != Active then Some(DenyTenantInactive)
    else
      var m := FindMembership(r.memberships, q.subject, q.tenant);
      if m.None? || !m.value.IsActive(now) then Some(DenyMembershipNotFound)
      else if q.permission !in r.permissions then Some(DenyPermissionNotRegistered)
      else
        var bindings := ActiveBindings(BindingsOf(r.bindings, q.subject, q.tenant), now);
        if bindings == [] then Some(DenyNoActiveBinding)
        else if InScope(bindings, q.scope) == [] then Some(DenyScopeMismatch)
        else None
  }

  function Authorize(r: Repositories, maxDepth: nat, q: Request, now: Time): Decision {
    match Screen(r, q, now)
    case Some(reason) => Deny(q, now, reason)
    case None =>
      var bindings := ActiveBindings(BindingsOf(r.bindings, q.subject, q.tenant), now);
      TryBindings(r, maxDepth, q, now, FindMembership(r.memberships, q.subject, q.tenant).value, bindings,
                  SortById(InScope(bindings, q.scope)))
  }
}
