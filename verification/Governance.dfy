/** Authorization requests, governance rules and their evaluators: constraints, dynamic and
static separation of duties.  Every evaluator answers with the first violation it meets. */
module Governance {
  import opened Prelude
  import opened DecimalText
  import opened RoleGraph
  import opened RoleHierarchy

  datatype AssuranceLevel = AAL1 | AAL2 | AAL3

  function Rank(level: AssuranceLevel): nat {
    match level
    case AAL1 => 1
    case AAL2 => 2
    case AAL3 => 3
  }

  datatype AuthenticationEvidence = AuthenticationEvidence(level: AssuranceLevel, mfa: bool, authenticatedAt: Time)

  /** What reading an attribute's text as a decimal number yields. */
  datatype Number = Finite(value: real) | PositiveInfinity | NegativeInfinity

  /** A scalar resource attribute; `reading` is None when the text is not a number. */
  datatype Attribute =
    | NullAttribute
    | FlagAttribute(flag: bool)
    | WholeAttribute(whole: int)
    | TextAttribute(text: string, reading: Option<Number>)

  function AttributeText(a: Attribute): string {
    match a
    case NullAttribute => "None"
    case FlagAttribute(b) => if b then "True" else "False"
    case WholeAttribute(n) => IntText(n)
    case TextAttribute(t, _) => t
  }

  function AttributeNumber(a: Attribute): Option<Number> {
    match a
    case NullAttribute => None
    case FlagAttribute(_) => None
    case WholeAttribute(n) => Some(Finite(n as real))
    case TextAttribute(_, reading) => reading
  }

  /** Stands for the canonical UUID text of an identity. */
  function IdentityText(id: IdentityId): string {
    "uuid-" + NatText(id)
  }

  datatype ResourceDescriptor = ResourceDescriptor(
    kind: string, id: string, tenant: TenantId, owner: Option<IdentityId>, attributes: map<string, Attribute>)

  datatype Request = Request(
    subject: IdentityId,
    tenant: TenantId,
    permission: PermissionCode,
    scope: TenantId,
    resource: Option<ResourceDescriptor>,
    authentication: Option<AuthenticationEvidence>,
    correlation: Option<string>)
  {
    /** What the constructor demands. */
    predicate WellFormed() {
      scope == tenant && (resource.Some? ==> resource.value.tenant == tenant)
    }
  }

  datatype Constraint =
    | NumericMaximum(id: RuleId, permission: PermissionCode, attribute: string, maximum: real, tenant: Option<TenantId>)
    | AttributeEquals(id: RuleId, permission: PermissionCode, attribute: string, expected: string,
                      tenant: Option<TenantId>)
    | MinimumAssurance(id: RuleId, permission: PermissionCode, minimum: AssuranceLevel, requireMfa: bool,
                       tenant: Option<TenantId>)

  datatype StaticRule = StaticRule(id: RuleId, first: RoleId, second: RoleId, tenant: Option<TenantId>)
  datatype DynamicRule = DynamicRule(id: RuleId, permission: PermissionCode, attribute: string,
                                     tenant: Option<TenantId>)

  datatype ViolationKind =
    | AuthenticationContextMissing | AssuranceStepUpRequired | ConstraintContextMissing
    | ConstraintViolated | SodContextMissing | SodDynamicConflict | SodStaticConflict

  datatype Violation = Violation(kind: ViolationKind, rule: RuleId,
                                 requiredLevel: Option<AssuranceLevel>, requiredMfa: Option<bool>)

  function Plain(kind: ViolationKind, rule: RuleId): Violation {
    Violation(kind, rule, None, None)
  }

  predicate InTenant(scope: Option<TenantId>, tenant: TenantId) {
    scope.None? || scope.value == tenant
  }

  function ConstraintsFor(rules: seq<Constraint>, permission: PermissionCode, tenant: TenantId): seq<Constraint> {
    if rules == [] then [] else
      (if rules[0].permission == permission && InTenant(rules[0].tenant, tenant) then [rules[0]] else [])
      + ConstraintsFor(rules[1..], permission, tenant)
  }

  function StaticRulesFor(rules: seq<StaticRule>, tenant: TenantId): seq<StaticRule> {
    if rules == [] then [] else
      (if InTenant(rules[0].tenant, tenant) then [rules[0]] else []) + StaticRulesFor(rules[1..], tenant)
  }

  function DynamicRulesFor(rules: seq<DynamicRule>, permission: PermissionCode, tenant: TenantId): seq<DynamicRule> {
    if rules == [] then [] else
      (if rules[0].permission == permission && InTenant(rules[0].tenant, tenant) then [rules[0]] else [])
      + DynamicRulesFor(rules[1..], permission, tenant)
  }

  // ---------------------------------------------------------------- constraints

  function AssuranceViolation(rule: Constraint, q: Request): Option<Violation>
    requires rule.MinimumAssurance?
  {
    if q.authentication.None? then
      Some(Violation(AuthenticationContextMissing, rule.id, Some(rule.minimum), Some(rule.requireMfa)))
    else if Rank(q.authentication.value.level) < Rank(rule.minimum)
      || (rule.requireMfa && !q.authentication.value.mfa) then
      Some(Violation(AssuranceStepUpRequired, rule.id, Some(rule.minimum), Some(rule.requireMfa)))
    else None
  }

  function NumericViolation(rule: Constraint, raw: Attribute): Option<Violation>
    requires rule.NumericMaximum?
  {
    if raw.FlagAttribute? then Some(Plain(ConstraintContextMissing, rule.id))
    else
      match AttributeNumber(raw)
      case None => Some(Plain(ConstraintContextMissing, rule.id))
      case Some(PositiveInfinity) => Some(Plain(ConstraintViolated, rule.id))
      case Some(NegativeInfinity) => None
      case Some(Finite(v)) => if v > rule.maximum then Some(Plain(ConstraintViolated, rule.id)) else None
  }

  function ConstraintViolation(rule: Constraint, q: Request): Option<Violation> {
    if rule.MinimumAssurance? then AssuranceViolation(rule, q)
    else if q.resource.None? then Some(Plain(ConstraintContextMissing, rule.id))
    else if rule.attribute !in q.resource.value.attributes then Some(Plain(ConstraintContextMissing, rule.id))
    else
      var raw := q.resource.value.attributes[rule.attribute];
      if rule.NumericMaximum? then NumericViolation(rule, raw)
      else if AttributeText(raw) != rule.expected then Some(Plain(ConstraintViolated, rule.id))
      else None
  }

  function FirstConstraintViolation(rules: seq<Constraint>, q: Request): Option<Violation> {
    if rules == [] then None
    else if ConstraintViolation(rules[0], q).Some? then ConstraintViolation(rules[0], q)
    else FirstConstraintViolation(rules[1..], q)
  }

  // ---------------------------------------------------------------- dynamic separation of duties

  function DynamicViolation(rule: DynamicRule, q: Request): Option<Violation> {
    if q.resource.None? then Some(Plain(SodContextMissing, rule.id))
    else if rule.attribute !in q.resource.value.attributes then Some(Plain(SodContextMissing, rule.id))
    else if AttributeText(q.resource.value.attributes[rule.attribute]) == IdentityText(q.subject) then
      Some(Plain(SodDynamicConflict, rule.id))
    else None
  }

  function FirstDynamicViolation(rules: seq<DynamicRule>, q: Request): Option<Violation> {
    if rules == [] then None
    else if DynamicViolation(rules[0], q).Some? then DynamicViolation(rules[0], q)
    else FirstDynamicViolation(rules[1..], q)
  }

  // ---------------------------------------------------------------- static separation of duties

  /** The union of what the bound Roles resolve to; the first hierarchy error wins. */
  function EffectiveRoleIds(c: Catalog, maxDepth: nat, bound: seq<RoleId>,
                            effective: set<RoleId>): Result<set<RoleId>, HierarchyError> {
    if bound == [] then Ok(effective)
    else
      match ResolveRoles(c, maxDepth, bound[0])
      case Err(e) => Err(e)
      case Ok(roles) => EffectiveRoleIds(c, maxDepth, bound[1..], effective + set v | v in roles)
  }

  function FindConflict(rules: seq<StaticRule>, effective: set<RoleId>): Option<Violation> {
    if rules == [] then None
    else if rules[0].first in effective && rules[0].second in effective then Some(Plain(SodStaticConflict, rules[0].id))
    else FindConflict(rules[1..], effective)
  }

  /** `detect_runtime`, over the rules that apply to the tenant: a hierarchy that cannot be
  resolved counts as a conflict with the first rule. */
  function DetectRuntime(c: Catalog, maxDepth: nat, rules: seq<StaticRule>, bound: seq<RoleId>): Option<Violation> {
    if rules == [] then None
    else
      match EffectiveRoleIds(c, maxDepth, bound, {})
      case Err(_) => Some(Plain(SodStaticConflict, rules[0].id))
      case Ok(effective) => FindConflict(rules, effective)
  }

  datatype AssignmentRefusal = HierarchyRefusal(candidate: RoleId) | RuleRefusal(rule: RuleId)

  /** `ensure_assignment_allowed`: None when the candidate Role may be added to the bound ones. */
  function AssignmentRefused(c: Catalog, maxDepth: nat, rules: seq<StaticRule>, bound: seq<RoleId>,
                             candidate: RoleId): Option<AssignmentRefusal> {
    match EffectiveRoleIds(c, maxDepth, bound, {})
    case Err(_) => Some(HierarchyRefusal(candidate))
    case Ok(effective) =>
      match ResolveRoles(c, maxDepth, candidate)
      case Err(_) => Some(HierarchyRefusal(candidate))
      case Ok(roles) =>
        match FindConflict(rules, effective + set v | v in roles)
        case None => None
        case Some(v) => Some(RuleRefusal(v.rule))
  }

  // ---------------------------------------------------------------- what the scans decide

  lemma {:induction false} ConstraintScan(rules: seq<Constraint>, q: Request)
    ensures FirstConstraintViolation(rules, q).None? <==> forall k :: k in rules ==> ConstraintViolation(k, q).None?
  {
    if rules != [] {
      ConstraintScan(rules[1..], q);
      assert forall k :: k in rules <==> k == rules[0] || k in rules[1..];
    }
  }

  lemma {:induction false} DynamicScan(rules: seq<DynamicRule>, q: Request)
    ensures FirstDynamicViolation(rules, q).None? <==> forall k :: k in rules ==> DynamicViolation(k, q).None?
  {
    if rules != [] {
      DynamicScan(rules[1..], q);
      assert forall k :: k in rules <==> k == rules[0] || k in rules[1..];
    }
  }

  lemma {:induction false} ConflictScan(rules: seq<StaticRule>, effective: set<RoleId>)
    ensures FindConflict(rules, effective).None? <==>
      forall k :: k in rules ==> !(k.first in effective && k.second in effective)
  {
    if rules != [] {
      ConflictScan(rules[1..], effective);
      assert forall k :: k in rules <==> k == rules[0] || k in rules[1..];
    }
  }

  lemma {:induction false} ConstraintsForMember(rules: seq<Constraint>, permission: PermissionCode, tenant: TenantId)
    ensures forall k :: k in ConstraintsFor(rules, permission, tenant)
                   <==> k in rules && k.permission == permission && InTenant(k.tenant, tenant)
  {
    if rules != [] {
      ConstraintsForMember(rules[1..], permission, tenant);
      assert forall k :: k in rules <==> k == rules[0] || k in rules[1..];
    }
  }

  lemma {:induction false} StaticRulesForMember(rules: seq<StaticRule>, tenant: TenantId)
    ensures forall k :: k in StaticRulesFor(rules, tenant) <==> k in rules && InTenant(k.tenant, tenant)
  {
    if rules != [] {
      StaticRulesForMember(rules[1..], tenant);
      assert forall k :: k in rules <==> k == rules[0] || k in rules[1..];
    }
  }

  lemma {:induction false} DynamicRulesForMember(rules: seq<DynamicRule>, permission: PermissionCode, tenant: TenantId)
    ensures forall k :: k in DynamicRulesFor(rules, permission, tenant)
                   <==> k in rules && k.permission == permission && InTenant(k.tenant, tenant)
  {
    if rules != [] {
      DynamicRulesForMember(rules[1..], permission, tenant);
      assert forall k :: k in rules <==> k == rules[0] || k in rules[1..];
    }
  }

  /** `v` is inherited by (or is) one of the bound Roles. */
  ghost predicate Inherited(c: Catalog, bound: seq<RoleId>, v: RoleId) {
    exists b :: b in bound && Reaches(c, b, v)
  }

  lemma {:induction false} EffectiveExact(c: Catalog, maxDepth: nat, bound: seq<RoleId>, effective: set<RoleId>)
    ensures EffectiveRoleIds(c, maxDepth, bound, effective).Ok? <==>
      forall b :: b in bound ==> ResolveRoles(c, maxDepth, b).Ok?
    ensures EffectiveRoleIds(c, maxDepth, bound, effective).Ok? ==>
      forall v: RoleId :: v in EffectiveRoleIds(c, maxDepth, bound, effective).value <==>
        v in effective || Inherited(c, bound, v)
  {
    if bound != [] {
      assert forall b :: b in bound <==> b == bound[0] || b in bound[1..];
      if ResolveRoles(c, maxDepth, bound[0]).Ok? {
        var roles := ResolveRoles(c, maxDepth, bound[0]).value;
        ResolveExact(c, maxDepth, bound[0]);
        EffectiveExact(c, maxDepth, bound[1..], effective + set v | v in roles);
        forall v: RoleId
          ensures Inherited(c, bound, v) <==> v in roles || Inherited(c, bound[1..], v)
        {
          if Inherited(c, bound, v) {
            var b :| b in bound && Reaches(c, b, v);
            if b != bound[0] { assert b in bound[1..]; }
          }
        }
      }
    }
  }

  /** No rule has both of its Roles among those inherited by the bound Roles. */
  ghost predicate SodSafe(c: Catalog, rules: seq<StaticRule>, bound: seq<RoleId>) {
    forall k :: k in rules ==> !(Inherited(c, bound, k.first) && Inherited(c, bound, k.second))
  }

  /** The run-time check passes exactly when no rule applies, or every bound hierarchy resolves and
  no rule has both of its Roles inherited. */
  lemma DetectRuntimeExact(c: Catalog, maxDepth: nat, rules: seq<StaticRule>, bound: seq<RoleId>)
    ensures DetectRuntime(c, maxDepth, rules, bound).None? <==>
      rules == [] || ((forall b :: b in bound ==> ResolveRoles(c, maxDepth, b).Ok?) && SodSafe(c, rules, bound))
  {
    EffectiveExact(c, maxDepth, bound, {});
    if EffectiveRoleIds(c, maxDepth, bound, {}).Ok? {
      ConflictScan(rules, EffectiveRoleIds(c, maxDepth, bound, {}).value);
    }
  }

  /** An assignment passes exactly when every hierarchy involved resolves and the candidate together
  with the Roles already bound leaves no rule with both of its Roles inherited. */
  lemma AssignmentExact(c: Catalog, maxDepth: nat, rules: seq<StaticRule>, bound: seq<RoleId>, candidate: RoleId)
    ensures AssignmentRefused(c, maxDepth, rules, bound, candidate).None? <==>
      && (forall b :: b in bound + [candidate] ==> ResolveRoles(c, maxDepth, b).Ok?)
      && SodSafe(c, rules, bound + [candidate])
  {
    EffectiveExact(c, maxDepth, bound, {});
    AllResolve(c, maxDepth, bound, candidate);
    if EffectiveRoleIds(c, maxDepth, bound, {}).Ok? && ResolveRoles(c, maxDepth, candidate).Ok? {
      var effective := EffectiveRoleIds(c, maxDepth, bound, {}).value;
      InheritedByAll(c, maxDepth, bound, candidate, effective);
      ConflictIsUnsafe(c, rules, bound + [candidate],
                       effective + set v | v in ResolveRoles(c, maxDepth, candidate).value);
    }
  }

  lemma AllResolve(c: Catalog, maxDepth: nat, bound: seq<RoleId>, candidate: RoleId)
    ensures (forall b :: b in bound + [candidate] ==> ResolveRoles(c, maxDepth, b).Ok?)
      <==> (forall b :: b in bound ==> ResolveRoles(c, maxDepth, b).Ok?) && ResolveRoles(c, maxDepth, candidate).Ok?
  {
    assert forall b :: b in bound + [candidate] <==> b in bound || b == candidate;
  }

  lemma {:induction false} ConflictIsUnsafe(c: Catalog, rules: seq<StaticRule>, bound: seq<RoleId>,
                                            effective: set<RoleId>)
    requires forall v: RoleId :: v in effective <==> Inherited(c, bound, v)
    ensures FindConflict(rules, effective).None? <==> SodSafe(c, rules, bound)
  {
    ConflictScan(rules, effective);
  }

  lemma InheritedByAll(c: Catalog, maxDepth: nat, bound: seq<RoleId>, candidate: RoleId, effective: set<RoleId>)
    requires ResolveRoles(c, maxDepth, candidate).Ok? && forall v: RoleId :: v in effective <==> Inherited(c, bound, v)
    ensures forall v: RoleId :: v in effective || v in ResolveRoles(c, maxDepth, candidate).value <==>
      Inherited(c, bound + [candidate], v)
  {
    ResolveExact(c, maxDepth, candidate);
    var all := bound + [candidate];
    forall v: RoleId
      ensures v in effective || v in ResolveRoles(c, maxDepth, candidate).value <==> Inherited(c, all, v)
    {
      if v in ResolveRoles(c, maxDepth, candidate).value { assert candidate in all; }
      if Inherited(c, bound, v) { var b :| b in bound && Reaches(c, b, v); assert b in all; }
    }
  }
}
