/** Why the engine denies: every denial, read as the first thing in its order of checks that stands in the way,
with what it tells the caller. */
module Denials {
  import opened Prelude
  import opened RoleHierarchy
  import opened HierarchyFaults
  import opened Governance
  import opened Authorization
  import opened AuthorizationTheorems

  // ---------------------------------------------------------------- before any binding

  predicate SubjectActive(r: Repositories, q: Request) {
    q.subject in r.identities && r.identities[q.subject] == Active
  }

  predicate TenantActive(r: Repositories, q: Request) {
    q.tenant in r.tenants && r.tenants[q.tenant] == Active
  }

  predicate Member(r: Repositories, q: Request, now: Time) {
    var m := FindMembership(r.memberships, q.subject, q.tenant);
    m.Some? && m.value.status.MembershipActive? && m.value.validFrom <= now
    && (m.value.validUntil.Some? ==> now < m.value.validUntil.value)
  }

  /** The request is refused for this reason, everything that is checked before being in order. */
  ghost predicate Refused(r: Repositories, q: Request, now: Time, reason: Reason) {
    match reason
    case DenySubjectNotFound => q.subject !in r.identities
    case DenySubjectInactive => q.subject in r.identities && r.identities[q.subject] != Active
    case DenyTenantNotFound => SubjectActive(r, q) && q.tenant !in r.tenants
    case DenyTenantInactive => SubjectActive(r, q) && q.tenant in r.tenants && r.tenants[q.tenant] != Active
    case DenyMembershipNotFound => SubjectActive(r, q) && TenantActive(r, q) && !Member(r, q, now)
    case DenyPermissionNotRegistered =>
      SubjectActive(r, q) && TenantActive(r, q) && Member(r, q, now) && q.permission !in r.permissions
    case DenyNoActiveBinding => Admitted(r, q, now) && forall b :: !InForce(r, q, now, b)
    case DenyScopeMismatch =>
      Admitted(r, q, now) && (exists b :: InForce(r, q, now, b))
        && forall b :: InForce(r, q, now, b) ==> b.scope != q.scope
    case _ => false
  }

  lemma BindingsScreened(r: Repositories, q: Request, now: Time)
    requires UniqueIds(r.bindings)
    ensures Current(r, q, now) == [] <==> forall b :: !InForce(r, q, now, b)
    ensures InScope(Current(r, q, now), q.scope) == [] <==> forall b :: !Candidate(r, q, now, b)
  {
    CurrentMember(r, q, now);
    var bs := Current(r, q, now);
    var scoped := InScope(bs, q.scope);
    InScopeMember(bs, q.scope);
    if bs != [] { assert InForce(r, q, now, bs[0]); }
    if scoped != [] { assert scoped[0] in scoped && Candidate(r, q, now, scoped[0]); }
  }

  lemma ScreenExact(r: Repositories, q: Request, now: Time)
    requires UniqueIds(r.bindings)
    ensures Screen(r, q, now).None? <==> Admitted(r, q, now) && exists b :: Candidate(r, q, now, b)
    ensures forall reason :: Screen(r, q, now) == Some(reason) <==> Refused(r, q, now, reason)
  {
    BindingsScreened(r, q, now);
    var m := FindMembership(r.memberships, q.subject, q.tenant);
    assert Member(r, q, now) <==> m.Some? && m.value.IsActive(now);
    assert forall b :: Candidate(r, q, now, b) <==> InForce(r, q, now, b) && b.scope == q.scope;
  }

  // ---------------------------------------------------------------- what governance objects to

  predicate Conclusion(v: Violation, kind: ViolationKind, rule: RuleId) {
    v.kind == kind && v.rule == rule && v.requiredLevel.None? && v.requiredMfa.None?
  }

  predicate ConstraintObjects(k: Constraint, q: Request, v: Violation) {
    !Met(k, q) &&
    match k
    case NumericMaximum(id, _, name, _, _) =>
      var there := Attached(q, name) && Numeric(q.resource.value.attributes[name]);
      Conclusion(v, if there then ConstraintViolated else ConstraintContextMissing, id)
    case AttributeEquals(id, _, name, _, _) =>
      Conclusion(v, if Attached(q, name) then ConstraintViolated else ConstraintContextMissing, id)
    case MinimumAssurance(id, _, minimum, requireMfa, _) =>
      && v.kind == (if q.authentication.Some? then AssuranceStepUpRequired else AuthenticationContextMissing)
      && v.rule == id && v.requiredLevel == Some(minimum) && v.requiredMfa == Some(requireMfa)
  }

  predicate DynamicObjects(k: DynamicRule, q: Request, v: Violation) {
    !Separate(k, q) && Conclusion(v, if Attached(q, k.attribute) then SodDynamicConflict else SodContextMissing, k.id)
  }

  /** The first rule, in the order they were registered, that applies and is not met. */
  predicate ConstraintAt(rules: seq<Constraint>, q: Request, v: Violation, i: nat) {
    && i < |rules| && Applies(rules[i].tenant, rules[i].permission, q) && ConstraintObjects(rules[i], q, v)
    && forall j :: 0 <= j < i && Applies(rules[j].tenant, rules[j].permission, q) ==> Met(rules[j], q)
  }

  ghost predicate FirstConstraint(rules: seq<Constraint>, q: Request, v: Violation) {
    exists i: nat :: ConstraintAt(rules, q, v, i)
  }

  predicate DynamicAt(rules: seq<DynamicRule>, q: Request, v: Violation, i: nat) {
    && i < |rules| && Applies(rules[i].tenant, rules[i].permission, q) && DynamicObjects(rules[i], q, v)
    && forall j :: 0 <= j < i && Applies(rules[j].tenant, rules[j].permission, q) ==> Separate(rules[j], q)
  }

  ghost predicate FirstDynamic(rules: seq<DynamicRule>, q: Request, v: Violation) {
    exists i: nat :: DynamicAt(rules, q, v, i)
  }

  /** What counts as a conflict with the standing rule: both Roles inherited, or a hierarchy that does not
  resolve, which conflicts with every rule. */
  ghost predicate Conflicts(r: Repositories, maxDepth: nat, q: Request, now: Time, k: StaticRule) {
    || (InheritedInForce(r, q, now, k.first) && InheritedInForce(r, q, now, k.second))
    || exists b :: InForce(r, q, now, b) && ResolveRoles(r.roles, maxDepth, b.role).Err?
  }

  ghost predicate StandingAt(r: Repositories, maxDepth: nat, q: Request, now: Time, v: Violation, i: nat) {
    && i < |r.staticRules| && InTenant(r.staticRules[i].tenant, q.tenant)
    && Conflicts(r, maxDepth, q, now, r.staticRules[i]) && Conclusion(v, SodStaticConflict, r.staticRules[i].id)
    && forall j :: 0 <= j < i && InTenant(r.staticRules[j].tenant, q.tenant) ==>
         !Conflicts(r, maxDepth, q, now, r.staticRules[j])
  }

  ghost predicate FirstStanding(r: Repositories, maxDepth: nat, q: Request, now: Time, v: Violation) {
    exists i: nat :: StandingAt(r, maxDepth, q, now, v, i)
  }

  /** Standing rules are heard first, then the dynamic ones, then the constraints. */
  ghost predicate Objects(r: Repositories, maxDepth: nat, q: Request, now: Time, v: Violation) {
    if !StaticClean(r, maxDepth, q, now) then FirstStanding(r, maxDepth, q, now, v)
    else if exists k :: k in r.dynamicRules && Applies(k.tenant, k.permission, q) && !Separate(k, q) then
      FirstDynamic(r.dynamicRules, q, v)
    else FirstConstraint(r.constraints, q, v)
  }

  lemma ConstraintKind(k: Constraint, q: Request)
    ensures ConstraintViolation(k, q).Some? ==> ConstraintObjects(k, q, ConstraintViolation(k, q).value)
    ensures ConstraintViolation(k, q).None? <==> Met(k, q)
  {
  }

  lemma DynamicKind(k: DynamicRule, q: Request)
    ensures DynamicViolation(k, q).Some? ==> DynamicObjects(k, q, DynamicViolation(k, q).value)
    ensures DynamicViolation(k, q).None? <==> Separate(k, q)
  {
  }

  lemma {:induction false} ConstraintHeard(rules: seq<Constraint>, q: Request)
    ensures var v := FirstConstraintViolation(ConstraintsFor(rules, q.permission, q.tenant), q);
      v.Some? ==> FirstConstraint(rules, q, v.value)
  {
    if rules != [] {
      var tail := rules[1..];
      var mine := ConstraintsFor(rules, q.permission, q.tenant);
      ConstraintKind(rules[0], q);
      if Applies(rules[0].tenant, rules[0].permission, q) {
        assert mine[0] == rules[0] && mine[1..] == ConstraintsFor(tail, q.permission, q.tenant);
        if !Met(rules[0], q) {
          assert ConstraintAt(rules, q, ConstraintViolation(rules[0], q).value, 0);
          return;
        }
      } else {
        assert mine == ConstraintsFor(tail, q.permission, q.tenant);
      }
      ConstraintHeard(tail, q);
      var v := FirstConstraintViolation(ConstraintsFor(tail, q.permission, q.tenant), q);
      if v.Some? {
        var i: nat :| ConstraintAt(tail, q, v.value, i);
        assert rules[i + 1] == tail[i] && forall j :: 1 <= j < i + 1 ==> rules[j] == tail[j - 1];
        assert ConstraintAt(rules, q, v.value, i + 1);
      }
    }
  }

  lemma {:induction false} DynamicHeard(rules: seq<DynamicRule>, q: Request)
    ensures var v := FirstDynamicViolation(DynamicRulesFor(rules, q.permission, q.tenant), q);
      v.Some? ==> FirstDynamic(rules, q, v.value)
  {
    if rules != [] {
      var tail := rules[1..];
      var mine := DynamicRulesFor(rules, q.permission, q.tenant);
      DynamicKind(rules[0], q);
      if Applies(rules[0].tenant, rules[0].permission, q) {
        assert mine[0] == rules[0] && mine[1..] == DynamicRulesFor(tail, q.permission, q.tenant);
        if !Separate(rules[0], q) {
          assert DynamicAt(rules, q, DynamicViolation(rules[0], q).value, 0);
          return;
        }
      } else {
        assert mine == DynamicRulesFor(tail, q.permission, q.tenant);
      }
      DynamicHeard(tail, q);
      var v := FirstDynamicViolation(DynamicRulesFor(tail, q.permission, q.tenant), q);
      if v.Some? {
        var i: nat :| DynamicAt(tail, q, v.value, i);
        assert rules[i + 1] == tail[i] && forall j :: 1 <= j < i + 1 ==> rules[j] == tail[j - 1];
        assert DynamicAt(rules, q, v.value, i + 1);
      }
    }
  }

  /** The first applicable rule with both Roles in the set. */
  predicate BothAt(rules: seq<StaticRule>, t: TenantId, effective: set<RoleId>, v: Violation, i: nat) {
    && i < |rules| && InTenant(rules[i].tenant, t)
    && rules[i].first in effective && rules[i].second in effective && Conclusion(v, SodStaticConflict, rules[i].id)
    && forall j :: 0 <= j < i && InTenant(rules[j].tenant, t) ==>
         !(rules[j].first in effective && rules[j].second in effective)
  }

  ghost predicate FirstBoth(rules: seq<StaticRule>, t: TenantId, effective: set<RoleId>, v: Violation) {
    exists i: nat :: BothAt(rules, t, effective, v, i)
  }

  lemma {:induction false} ConflictHeard(rules: seq<StaticRule>, t: TenantId, effective: set<RoleId>)
    ensures var v := FindConflict(StaticRulesFor(rules, t), effective);
      v.Some? ==> FirstBoth(rules, t, effective, v.value)
  {
    if rules != [] {
      var tail := rules[1..];
      var mine := StaticRulesFor(rules, t);
      if InTenant(rules[0].tenant, t) {
        assert mine[0] == rules[0] && mine[1..] == StaticRulesFor(tail, t);
        if rules[0].first in effective && rules[0].second in effective {
          assert BothAt(rules, t, effective, FindConflict(mine, effective).value, 0);
          return;
        }
      } else {
        assert mine == StaticRulesFor(tail, t);
      }
      ConflictHeard(tail, t, effective);
      var v := FindConflict(StaticRulesFor(tail, t), effective);
      if v.Some? {
        var i: nat :| BothAt(tail, t, effective, v.value, i);
        assert rules[i + 1] == tail[i] && forall j :: 1 <= j < i + 1 ==> rules[j] == tail[j - 1];
        assert BothAt(rules, t, effective, v.value, i + 1);
      }
    }
  }

  lemma {:induction false} FirstApplicable(rules: seq<StaticRule>, t: TenantId) returns (i: nat)
    requires StaticRulesFor(rules, t) != []
    ensures i < |rules| && InTenant(rules[i].tenant, t) && StaticRulesFor(rules, t)[0] == rules[i]
    ensures forall j :: 0 <= j < i ==> !InTenant(rules[j].tenant, t)
  {
    if InTenant(rules[0].tenant, t) {
      i := 0;
    } else {
      var tail := rules[1..];
      var rest := FirstApplicable(tail, t);
      i := rest + 1;
      assert forall j :: 1 <= j < i ==> rules[j] == tail[j - 1];
    }
  }

  lemma StandingHeard(r: Repositories, maxDepth: nat, q: Request, now: Time)
    requires UniqueIds(r.bindings)
    ensures var v :=
      DetectRuntime(r.roles, maxDepth, StaticRulesFor(r.staticRules, q.tenant), RolesBound(Current(r, q, now)));
      v.Some? ==> FirstStanding(r, maxDepth, q, now, v.value)
  {
    var bound := RolesBound(Current(r, q, now));
    if StaticRulesFor(r.staticRules, q.tenant) != [] {
      match EffectiveRoleIds(r.roles, maxDepth, bound, {})
      case Err(_) => UnresolvedHeard(r, maxDepth, q, now);
      case Ok(effective) => ConflictingHeard(r, maxDepth, q, now, effective);
    }
  }

  lemma {:induction false} UnresolvedHeard(r: Repositories, maxDepth: nat, q: Request, now: Time)
    requires UniqueIds(r.bindings) && StaticRulesFor(r.staticRules, q.tenant) != []
    requires EffectiveRoleIds(r.roles, maxDepth, RolesBound(Current(r, q, now)), {}).Err?
    ensures FirstStanding(r, maxDepth, q, now, Plain(SodStaticConflict, StaticRulesFor(r.staticRules, q.tenant)[0].id))
  {
    EffectiveExact(r.roles, maxDepth, RolesBound(Current(r, q, now)), {});
    ResolvedInForce(r, maxDepth, q, now);
    var i := FirstApplicable(r.staticRules, q.tenant);
    assert Conflicts(r, maxDepth, q, now, r.staticRules[i]);
    assert StandingAt(r, maxDepth, q, now, Plain(SodStaticConflict, r.staticRules[i].id), i);
  }

  lemma BothIsStanding(r: Repositories, maxDepth: nat, q: Request, now: Time, effective: set<RoleId>, v: Violation,
                       i: nat)
    requires forall x: RoleId :: x in effective <==> InheritedInForce(r, q, now, x)
    requires forall b :: InForce(r, q, now, b) ==> ResolveRoles(r.roles, maxDepth, b.role).Ok?
    requires BothAt(r.staticRules, q.tenant, effective, v, i)
    ensures StandingAt(r, maxDepth, q, now, v, i)
  {
    assert forall k: StaticRule :: Conflicts(r, maxDepth, q, now, k) <==> k.first in effective && k.second in effective;
  }

  lemma {:induction false} ConflictingHeard(r: Repositories, maxDepth: nat, q: Request, now: Time,
                                            effective: set<RoleId>)
    requires UniqueIds(r.bindings)
    requires EffectiveRoleIds(r.roles, maxDepth, RolesBound(Current(r, q, now)), {}) == Ok(effective)
    ensures var v := FindConflict(StaticRulesFor(r.staticRules, q.tenant), effective);
      v.Some? ==> FirstStanding(r, maxDepth, q, now, v.value)
  {
    EffectiveExact(r.roles, maxDepth, RolesBound(Current(r, q, now)), {});
    ResolvedInForce(r, maxDepth, q, now);
    ConflictHeard(r.staticRules, q.tenant, effective);
    forall v: RoleId ensures v in effective <==> InheritedInForce(r, q, now, v) { InheritedIffInForce(r, q, now, v); }
    var v := FindConflict(StaticRulesFor(r.staticRules, q.tenant), effective);
    if v.Some? {
      var i: nat :| BothAt(r.staticRules, q.tenant, effective, v.value, i);
      BothIsStanding(r, maxDepth, q, now, effective, v.value, i);
    }
  }

  lemma ResolvedInForce(r: Repositories, maxDepth: nat, q: Request, now: Time)
    requires UniqueIds(r.bindings)
    ensures (forall x :: x in RolesBound(Current(r, q, now)) ==> ResolveRoles(r.roles, maxDepth, x).Ok?)
       <==> (forall b :: InForce(r, q, now, b) ==> ResolveRoles(r.roles, maxDepth, b.role).Ok?)
  {
    var bs := Current(r, q, now);
    CurrentMember(r, q, now);
    forall b | InForce(r, q, now, b)
      ensures b.role in RolesBound(bs)
    {
      BoundMember(bs, b.role);
    }
    forall x | x in RolesBound(bs)
      ensures exists b :: InForce(r, q, now, b) && b.role == x
    {
      BoundMember(bs, x);
    }
  }

  /** What governance answers with is the first objection. */
  lemma ObjectionExact(r: Repositories, maxDepth: nat, q: Request, now: Time)
    requires UniqueIds(r.bindings)
    ensures var v := EvaluateGovernance(r, maxDepth, q, Current(r, q, now));
      if v.Some? then Objects(r, maxDepth, q, now, v.value)
      else StaticClean(r, maxDepth, q, now) && RequestClean(r, q)
  {
    GovernanceExact(r, maxDepth, q, now);
    StandingHeard(r, maxDepth, q, now);
    StaticExact(r, maxDepth, q, now);
    DynamicHeard(r.dynamicRules, q);
    DynamicSilent(r, q);
    ConstraintHeard(r.constraints, q);
  }

  lemma {:induction false} DynamicSilent(r: Repositories, q: Request)
    ensures FirstDynamicViolation(DynamicRulesFor(r.dynamicRules, q.permission, q.tenant), q).None?
       <==> forall k :: k in r.dynamicRules && Applies(k.tenant, k.permission, q) ==> Separate(k, q)
  {
    DynamicRulesForMember(r.dynamicRules, q.permission, q.tenant);
    DynamicScan(DynamicRulesFor(r.dynamicRules, q.permission, q.tenant), q);
    forall k: DynamicRule ensures DynamicViolation(k, q).None? <==> Separate(k, q) { SeparateExact(k, q); }
  }

  // ---------------------------------------------------------------- every denial

  /** A denial of this request at this instant, which rests on nothing. */
  predicate DenialOf(d: Decision, q: Request, now: Time) {
    && !d.allowed && d.subject == q.subject && d.tenant == q.tenant && d.permission == q.permission
    && d.scope == q.scope && d.resource == q.resource && d.correlation == q.correlation && d.evaluatedAt == now
    && d.validUntil.None? && d.membership.None? && d.boundRole.None? && d.binding.None? && d.role.None?
  }

  predicate Bare(d: Decision, reason: Reason, explanation: seq<Explanation>) {
    d.reason == reason && d.explanation == explanation && d.rule.None? && d.requiredLevel.None? && d.requiredMfa.None?
  }

  predicate ReasonSays(reason: Reason, kind: ViolationKind) {
    || (kind.AuthenticationContextMissing? && reason.DenyAuthenticationContextMissing?)
    || (kind.AssuranceStepUpRequired? && reason.DenyStepUpRequired?)
    || (kind.ConstraintContextMissing? && reason.DenyConstraintContextMissing?)
    || (kind.ConstraintViolated? && reason.DenyConstraintViolation?)
    || (kind.SodContextMissing? && reason.DenySodContextMissing?)
    || (kind.SodDynamicConflict? && reason.DenySodDynamicConflict?)
    || (kind.SodStaticConflict? && reason.DenySodStaticConflict?)
  }

  predicate ObjectionTold(d: Decision, b: RoleBinding, v: Violation) {
    && ReasonSays(d.reason, v.kind) && d.rule == Some(v.rule)
    && d.requiredLevel == v.requiredLevel && d.requiredMfa == v.requiredMfa
    && d.explanation == [ByBinding(b.id), ByRole(b.role), ByRule(v.rule), ByGovernance(v.kind)]
  }

  /** The denial is what trying this binding led to. */
  ghost predicate StoppedAt(r: Repositories, maxDepth: nat, q: Request, now: Time, b: RoleBinding, d: Decision) {
    if !(b.role in r.roles && r.roles[b.role].status.ActiveRole?) then
      Bare(d, DenyRoleUnavailable, [ByBinding(b.id)])
    else if r.roles[b.role].tenant.Some? && r.roles[b.role].tenant != Some(q.tenant) then
      Bare(d, DenyRoleTenantMismatch, [ByBinding(b.id), ByRole(b.role)])
    else if Grants(r, maxDepth, q, b) then
      exists v :: Objects(r, maxDepth, q, now, v) && ObjectionTold(d, b, v)
    else
      exists path, parent, e :: FirstFault(r.roles, maxDepth, q.permission, b.role, path, parent, e, {}, 0)
        && Bare(d, DenyRoleHierarchyInvalid, [ByBinding(b.id), ByRole(b.role), ByHierarchyError(e)])
  }

  lemma StopExact(r: Repositories, maxDepth: nat, q: Request, now: Time, m: Membership, b: RoleBinding)
    requires UniqueIds(r.bindings)
    ensures var t := TryBinding(r, maxDepth, q, now, m, Current(r, q, now), b);
      t.Some? && !t.value.allowed ==> DenialOf(t.value, q, now) && StoppedAt(r, maxDepth, q, now, b, t.value)
  {
    if RoleUsable(r, q, b) {
      match PermissionPath(r.roles, maxDepth, b.role, q.permission)
      case Err(e) => FaultExact(r.roles, maxDepth, b.role, q.permission, e);
      case Ok(None) =>
      case Ok(Some(_)) => ObjectionStops(r, maxDepth, q, now, m, b);
    }
  }

  lemma ObjectionStops(r: Repositories, maxDepth: nat, q: Request, now: Time, m: Membership, b: RoleBinding)
    requires UniqueIds(r.bindings) && Grants(r, maxDepth, q, b)
    ensures var t := TryBinding(r, maxDepth, q, now, m, Current(r, q, now), b);
      t.Some? && !t.value.allowed ==>
        DenialOf(t.value, q, now) && exists v :: Objects(r, maxDepth, q, now, v) && ObjectionTold(t.value, b, v)
  {
    ObjectionExact(r, maxDepth, q, now);
    var v := EvaluateGovernance(r, maxDepth, q, Current(r, q, now));
    if v.Some? { assert ObjectionTold(TryBinding(r, maxDepth, q, now, m, Current(r, q, now), b).value, b, v.value); }
  }

  /** A denial and what it says: the first check that fails; or no candidate grants, each being a clean miss; or
  the first candidate that is not a clean miss, which is unusable, leads into an invalid hierarchy, or grants
  and meets an objection. */
  lemma DenialExact(r: Repositories, maxDepth: nat, q: Request, now: Time)
    requires UniqueIds(r.bindings) && !Authorize(r, maxDepth, q, now).allowed
    ensures var d := Authorize(r, maxDepth, q, now);
      && DenialOf(d, q, now)
      && (|| (Refused(r, q, now, d.reason) && Bare(d, d.reason, []))
          || (Bare(d, DenyPermissionNotGranted, []) && Admitted(r, q, now)
              && forall e :: Candidate(r, q, now, e) ==> CleanMiss(r, maxDepth, q, e))
          || (exists b :: Candidate(r, q, now, b) && Admitted(r, q, now) && StoppedAt(r, maxDepth, q, now, b, d)
                && forall e :: Candidate(r, q, now, e) && e.id < b.id ==> CleanMiss(r, maxDepth, q, e)))
  {
    ScreenExact(r, q, now);
    if Screen(r, q, now).None? {
      var m := FindMembership(r.memberships, q.subject, q.tenant).value;
      var bs := Current(r, q, now);
      var sorted := SortById(InScope(bs, q.scope));
      CurrentMember(r, q, now);
      var k := FirstDecides(r, maxDepth, q, now, m, bs, sorted);
      EarlierMiss(r, maxDepth, q, now, m, sorted, k);
      if k < |sorted| {
        assert sorted[k] in sorted;
        StopExact(r, maxDepth, q, now, m, sorted[k]);
      }
    }
  }

  lemma EarlierMiss(r: Repositories, maxDepth: nat, q: Request, now: Time, m: Membership, sorted: seq<RoleBinding>,
                    k: nat)
    requires UniqueIds(r.bindings) && Increasing(sorted) && forall e :: e in sorted <==> Candidate(r, q, now, e)
    requires k <= |sorted|
      && forall j :: 0 <= j < k ==> TryBinding(r, maxDepth, q, now, m, Current(r, q, now), sorted[j]).None?
    ensures forall e :: Candidate(r, q, now, e) && (k < |sorted| ==> e.id < sorted[k].id) ==>
      CleanMiss(r, maxDepth, q, e)
  {
    forall e | Candidate(r, q, now, e) && (k < |sorted| ==> e.id < sorted[k].id)
      ensures CleanMiss(r, maxDepth, q, e)
    {
      var j :| 0 <= j < |sorted| && sorted[j] == e;
      TryExact(r, maxDepth, q, now, m, e);
    }
  }

  // ---------------------------------------------------------------- what an ALLOW says

  /** The earlier of two ends, where there is one. */
  predicate EarlierEnd(a: Option<Time>, b: Option<Time>, end: Option<Time>) {
    && (end == a || end == b)
    && (a.Some? ==> end.Some? && end.value <= a.value) && (b.Some? ==> end.Some? && end.value <= b.value)
  }

  /** An ALLOW names the binding, the path and the membership it rests on, and ends with the first of them. */
  lemma AllowSays(r: Repositories, maxDepth: nat, q: Request, now: Time) returns (b: RoleBinding, path: seq<RoleId>)
    requires UniqueIds(r.bindings) && Authorize(r, maxDepth, q, now).allowed
    ensures AllowRestsAlong(r, maxDepth, q, now, b, path)
    ensures var d := Authorize(r, maxDepth, q, now);
      var m := FindMembership(r.memberships, q.subject, q.tenant).value;
      && d.reason == (if path == [b.role] then AllowRolePermissionMatch else AllowInheritedRolePermissionMatch)
      && d.subject == q.subject && d.tenant == q.tenant && d.permission == q.permission && d.scope == q.scope
      && d.resource == q.resource && d.correlation == q.correlation && d.evaluatedAt == now
      && d.membership == Some(m.id) && d.binding == Some(b.id) && d.boundRole == Some(b.role)
      && d.role == Some(path[|path| - 1]) && d.rule.None? && d.requiredLevel.None? && d.requiredMfa.None?
      && EarlierEnd(m.validUntil, b.validUntil, d.validUntil)
      && |d.explanation| == |path| + 1 && d.explanation[0] == ByBinding(b.id)
      && forall i :: 0 <= i < |path| ==> d.explanation[i + 1] == ByRole(path[i])
  {
    AllowPathExact(r, maxDepth, q, now);
    b, path :| AllowRestsAlong(r, maxDepth, q, now, b, path);
    assert path[0] == b.role;
  }
}
