/** The saves the application services make to the repositories, the stamp dimension each one's
event advances, and what a subject's decisions in a tenant can depend on. */
module Writes {
  import opened Prelude
  import opened RoleGraph
  import opened RoleHierarchy
  import opened Governance
  import opened Authorization
  import opened AuthorizationTheorems
  import opened SecurityState

  /** One aggregate (or rule) saved in its repository. */
  datatype Write =
    | SaveIdentity(identity: IdentityId, lifecycle: Lifecycle)
    | SaveTenant(tenant: TenantId, lifecycle: Lifecycle)
    | SaveMembership(membership: Membership)
    | SavePermission(permission: PermissionCode)
    | SaveRole(id: RoleId, role: Role)
    | SaveBinding(binding: RoleBinding)
    | SaveConstraint(constraint: Constraint)
    | SaveStaticRule(staticRule: StaticRule)
    | SaveDynamicRule(dynamicRule: DynamicRule)

  /** The dimension advanced by the event that follows the save. */
  function DimensionOf(w: Write): Dimension {
    match w
    case SaveIdentity(i, _) => IdentityState(i)
    case SaveTenant(t, _) => TenantState(t)
    case SaveMembership(m) => MembershipState(m.identity, m.tenant)
    case SavePermission(_) => GlobalAuthorization
    case SaveRole(_, role) => if role.tenant.None? then GlobalAuthorization else TenantAuthorization(role.tenant.value)
    case SaveBinding(b) => SubjectAuthorization(b.identity, b.tenant)
    case SaveConstraint(k) => if k.tenant.None? then RuntimeGeneration else GovernanceState(k.tenant.value)
    case SaveStaticRule(k) => if k.tenant.None? then RuntimeGeneration else GovernanceState(k.tenant.value)
    case SaveDynamicRule(k) => if k.tenant.None? then RuntimeGeneration else GovernanceState(k.tenant.value)
  }

  /** Every stamp the write should move contains the dimension `d`. */
  ghost predicate Covers(d: Dimension, w: Write) {
    forall i, t :: Touches(DimensionOf(w), i, t) ==> Touches(d, i, t)
  }

  function PutMembership(ms: seq<Membership>, m: Membership): seq<Membership> {
    if ms == [] then [m]
    else if ms[0].id == m.id then [m] + ms[1..]
    else [ms[0]] + PutMembership(ms[1..], m)
  }

  function PutBinding(bs: seq<RoleBinding>, b: RoleBinding): seq<RoleBinding> {
    if bs == [] then [b]
    else if bs[0].id == b.id then [b] + bs[1..]
    else [bs[0]] + PutBinding(bs[1..], b)
  }

  function ApplyWrite(r: Repositories, w: Write): Repositories {
    match w
    case SaveIdentity(i, lifecycle) => r.(identities := r.identities[i := lifecycle])
    case SaveTenant(t, lifecycle) => r.(tenants := r.tenants[t := lifecycle])
    case SaveMembership(m) => r.(memberships := PutMembership(r.memberships, m))
    case SavePermission(p) => r.(permissions := r.permissions + {p})
    case SaveRole(id, role) => r.(roles := r.roles[id := role])
    case SaveBinding(b) => r.(bindings := PutBinding(r.bindings, b))
    case SaveConstraint(k) => r.(constraints := r.constraints + [k])
    case SaveStaticRule(k) => r.(staticRules := r.staticRules + [k])
    case SaveDynamicRule(k) => r.(dynamicRules := r.dynamicRules + [k])
  }

  // ---------------------------------------------------------------- repository invariants

  ghost predicate EdgesValid(c: Catalog) {
    forall v, p :: v in c && p in c[v].parents ==> p in c && EdgeValid(c[v].tenant, c[p].tenant)
  }

  predicate RoleFits(c: Catalog, b: RoleBinding) {
    b.role in c && (c[b.role].tenant.None? || c[b.role].tenant.value == b.tenant)
  }

  /** What the services keep true of the repositories, whatever the interleaving of their saves. */
  ghost predicate Sound(r: Repositories) {
    && EdgesValid(r.roles)
    && UniqueIds(r.bindings)
    && (forall b :: b in r.bindings ==> RoleFits(r.roles, b) && b.scope == b.tenant)
  }

  ghost predicate StartedBy(r: Repositories, clock: Time) {
    forall b :: b in r.bindings ==> b.validFrom <= clock
  }

  /** What every service guarantees of the aggregate it saves: identifying fields never change,
  edges and bound Roles respect tenants, a new binding starts when it is created. */
  ghost predicate Permitted(r: Repositories, w: Write, clock: Time) {
    match w
    case SaveMembership(m) =>
      forall x :: x in r.memberships && x.id == m.id ==> x.identity == m.identity && x.tenant == m.tenant
    case SaveRole(id, role) =>
      && (id in r.roles ==> r.roles[id].tenant == role.tenant)
      && (forall p :: p in role.parents ==> p in r.roles && EdgeValid(role.tenant, r.roles[p].tenant))
    case SaveBinding(b) =>
      && b.scope == b.tenant && b.validFrom <= clock && RoleFits(r.roles, b)
      && (forall x :: x in r.bindings && x.id == b.id ==> x.identity == b.identity && x.tenant == b.tenant)
    case _ => true
  }

  lemma {:induction false} PutBindingMember(bs: seq<RoleBinding>, b: RoleBinding)
    requires UniqueIds(bs)
    ensures UniqueIds(PutBinding(bs, b))
    ensures forall x :: x in PutBinding(bs, b) <==> x == b || (x in bs && x.id != b.id)
  {
    if bs != [] {
      assert forall x :: x in bs <==> x == bs[0] || x in bs[1..];
      assert forall x :: x in bs[1..] ==> x.id != bs[0].id;
      if bs[0].id != b.id {
        PutBindingMember(bs[1..], b);
        var rest := PutBinding(bs[1..], b);
        assert forall x :: x in rest ==> x.id != bs[0].id;
      }
    }
  }

  lemma PermittedKeepsSound(r: Repositories, w: Write, clock: Time)
    requires Sound(r) && StartedBy(r, clock) && Permitted(r, w, clock)
    ensures Sound(ApplyWrite(r, w)) && StartedBy(ApplyWrite(r, w), clock)
  {
    if w.SaveBinding? {
      PutBindingMember(r.bindings, w.binding);
    }
  }

  // ---------------------------------------------------------------- what a decision depends on

  function ConstraintsIn(rules: seq<Constraint>, t: TenantId): seq<Constraint> {
    if rules == [] then [] else (if InTenant(rules[0].tenant, t) then [rules[0]] else []) + ConstraintsIn(rules[1..], t)
  }

  function DynamicRulesIn(rules: seq<DynamicRule>, t: TenantId): seq<DynamicRule> {
    if rules == [] then []
      else (if InTenant(rules[0].tenant, t) then [rules[0]] else []) + DynamicRulesIn(rules[1..], t)
  }

  function RolesIn(c: Catalog, t: TenantId): Catalog {
    map v | v in c && InTenant(c[v].tenant, t) :: c[v]
  }

  /** The part of the repositories that decisions about subject `s` in tenant `t` can depend on. */
  function View(r: Repositories, s: IdentityId, t: TenantId): Repositories {
    Repositories(
      map x | x in r.identities && x == s :: r.identities[x],
      map x | x in r.tenants && x == t :: r.tenants[x],
      match FindMembership(r.memberships, s, t) { case None => [] case Some(m) => [m] },
      r.permissions,
      RolesIn(r.roles, t),
      BindingsOf(r.bindings, s, t),
      ConstraintsIn(r.constraints, t),
      StaticRulesFor(r.staticRules, t),
      DynamicRulesIn(r.dynamicRules, t))
  }

  /** `part` is a piece of `c` that no parent edge leaves. */
  ghost predicate ClosedPart(part: Catalog, c: Catalog) {
    forall v :: v in part ==> v in c && part[v] == c[v] && forall p :: p in c[v].parents ==> (p in part <==> p in c)
  }

  lemma {:induction false} WalkInPart(part: Catalog, c: Catalog, maxDepth: nat, r: RoleId, w: Walked,
                                      stack: set<RoleId>, depth: nat)
    requires ClosedPart(part, c) && r in part
    ensures Walk(part, maxDepth, r, w, stack, depth) == Walk(c, maxDepth, r, w, stack, depth)
    decreases |c.Keys - stack|, 1, 0
  {
    if r !in stack {
      StackGrows(c, r, stack);
      WalkParentsInPart(part, c, maxDepth, r, Sorted(c[r].parents), Walked(w.resolved + [r], w.visited + {r}),
                        stack + {r}, depth);
    }
  }

  lemma {:induction false} WalkParentsInPart(part: Catalog, c: Catalog, maxDepth: nat, child: RoleId, ps: seq<RoleId>,
                                             w: Walked, nextStack: set<RoleId>, depth: nat)
    requires ClosedPart(part, c) && child in part && forall p :: p in ps ==> p in c[child].parents
    ensures WalkParents(part, maxDepth, child, ps, w, nextStack, depth)
      == WalkParents(c, maxDepth, child, ps, w, nextStack, depth)
    decreases |c.Keys - nextStack|, 2, |ps|
  {
    if ps != [] && EdgeError(c, child, ps[0], nextStack).None? {
      WalkInPart(part, c, maxDepth, ps[0], w, nextStack, depth + 1);
      match Walk(c, maxDepth, ps[0], w, nextStack, depth + 1)
      case Err(_) =>
      case Ok(w') => WalkParentsInPart(part, c, maxDepth, child, ps[1..], w', nextStack, depth);
    }
  }

  lemma {:induction false} FindInPart(part: Catalog, c: Catalog, maxDepth: nat, perm: PermissionCode, r: RoleId,
                                      stack: set<RoleId>, depth: nat)
    requires ClosedPart(part, c) && r in part
    ensures FindPermission(part, maxDepth, perm, r, stack, depth) == FindPermission(c, maxDepth, perm, r, stack, depth)
    decreases |c.Keys - stack|, 1, 0
  {
    if r !in stack {
      StackGrows(c, r, stack);
      FindParentsInPart(part, c, maxDepth, perm, r, Sorted(c[r].parents), stack + {r}, depth);
    }
  }

  lemma {:induction false} FindParentsInPart(part: Catalog, c: Catalog, maxDepth: nat, perm: PermissionCode,
                                             child: RoleId, ps: seq<RoleId>, nextStack: set<RoleId>, depth: nat)
    requires ClosedPart(part, c) && child in part && forall p :: p in ps ==> p in c[child].parents
    ensures FindInParents(part, maxDepth, perm, child, ps, nextStack, depth)
      == FindInParents(c, maxDepth, perm, child, ps, nextStack, depth)
    decreases |c.Keys - nextStack|, 2, |ps|
  {
    if ps != [] && EdgeError(c, child, ps[0], nextStack).None? {
      FindInPart(part, c, maxDepth, perm, ps[0], nextStack, depth + 1);
      FindParentsInPart(part, c, maxDepth, perm, child, ps[1..], nextStack, depth);
    }
  }

  lemma {:induction false} EffectiveInPart(part: Catalog, c: Catalog, maxDepth: nat, bound: seq<RoleId>,
                                           effective: set<RoleId>)
    requires ClosedPart(part, c) && forall b :: b in bound ==> b in part
    ensures EffectiveRoleIds(part, maxDepth, bound, effective) == EffectiveRoleIds(c, maxDepth, bound, effective)
  {
    if bound != [] {
      if Available(c, bound[0]) {
        WalkInPart(part, c, maxDepth, bound[0], Walked([], {}), {}, 0);
      }
      match ResolveRoles(c, maxDepth, bound[0])
      case Err(_) =>
      case Ok(roles) => EffectiveInPart(part, c, maxDepth, bound[1..], effective + set v | v in roles);
    }
  }

  lemma {:induction false} ConstraintsNarrow(rules: seq<Constraint>, permission: PermissionCode, t: TenantId)
    ensures ConstraintsFor(ConstraintsIn(rules, t), permission, t) == ConstraintsFor(rules, permission, t)
  {
    if rules != [] {
      ConstraintsNarrow(rules[1..], permission, t);
      if InTenant(rules[0].tenant, t) {
        assert ConstraintsIn(rules, t)[1..] == ConstraintsIn(rules[1..], t);
      } else {
        assert ConstraintsIn(rules, t) == ConstraintsIn(rules[1..], t);
      }
    }
  }

  lemma {:induction false} DynamicNarrow(rules: seq<DynamicRule>, permission: PermissionCode, t: TenantId)
    ensures DynamicRulesFor(DynamicRulesIn(rules, t), permission, t) == DynamicRulesFor(rules, permission, t)
  {
    if rules != [] {
      DynamicNarrow(rules[1..], permission, t);
      if InTenant(rules[0].tenant, t) {
        assert DynamicRulesIn(rules, t)[1..] == DynamicRulesIn(rules[1..], t);
      } else {
        assert DynamicRulesIn(rules, t) == DynamicRulesIn(rules[1..], t);
      }
    }
  }

  lemma {:induction false} StaticNarrow(rules: seq<StaticRule>, t: TenantId)
    ensures StaticRulesFor(StaticRulesFor(rules, t), t) == StaticRulesFor(rules, t)
  {
    if rules != [] {
      StaticNarrow(rules[1..], t);
      if InTenant(rules[0].tenant, t) {
        assert StaticRulesFor(rules, t)[1..] == StaticRulesFor(rules[1..], t);
      } else {
        assert StaticRulesFor(rules, t) == StaticRulesFor(rules[1..], t);
      }
    }
  }

  lemma {:induction false} BindingsNarrow(bs: seq<RoleBinding>, s: IdentityId, t: TenantId)
    ensures BindingsOf(BindingsOf(bs, s, t), s, t) == BindingsOf(bs, s, t)
  {
    if bs != [] {
      BindingsNarrow(bs[1..], s, t);
      if bs[0].identity == s && bs[0].tenant == t {
        assert BindingsOf(bs, s, t)[1..] == BindingsOf(bs[1..], s, t);
      } else {
        assert BindingsOf(bs, s, t) == BindingsOf(bs[1..], s, t);
      }
    }
  }

  lemma {:induction false} MembershipNarrow(ms: seq<Membership>, s: IdentityId, t: TenantId)
    ensures FindMembership(ms, s, t).Some? ==>
      FindMembership([FindMembership(ms, s, t).value], s, t) == FindMembership(ms, s, t)
  {
    if ms != [] {
      MembershipNarrow(ms[1..], s, t);
    }
  }

  lemma ViewRolesClosed(r: Repositories, t: TenantId)
    requires EdgesValid(r.roles)
    ensures ClosedPart(RolesIn(r.roles, t), r.roles)
  {
  }

  lemma GovernanceInView(r: Repositories, maxDepth: nat, q: Request, bindings: seq<RoleBinding>)
    requires Sound(r) && forall b :: b in bindings ==> b.role in RolesIn(r.roles, q.tenant)
    ensures EvaluateGovernance(View(r, q.subject, q.tenant), maxDepth, q, bindings)
      == EvaluateGovernance(r, maxDepth, q, bindings)
  {
    ViewRolesClosed(r, q.tenant);
    EffectiveInPart(RolesIn(r.roles, q.tenant), r.roles, maxDepth, RolesBound(bindings), {});
    ConstraintsNarrow(r.constraints, q.permission, q.tenant);
    DynamicNarrow(r.dynamicRules, q.permission, q.tenant);
    StaticNarrow(r.staticRules, q.tenant);
  }

  lemma TryOneInView(r: Repositories, maxDepth: nat, q: Request, now: Time, m: Membership,
                     bindings: seq<RoleBinding>, b: RoleBinding)
    requires Sound(r) && b.role in RolesIn(r.roles, q.tenant)
    requires EvaluateGovernance(View(r, q.subject, q.tenant), maxDepth, q, bindings)
      == EvaluateGovernance(r, maxDepth, q, bindings)
    ensures TryBinding(View(r, q.subject, q.tenant), maxDepth, q, now, m, bindings, b)
      == TryBinding(r, maxDepth, q, now, m, bindings, b)
  {
    ViewRolesClosed(r, q.tenant);
    FindInPart(RolesIn(r.roles, q.tenant), r.roles, maxDepth, q.permission, b.role, {}, 0);
  }

  lemma {:induction false} TryInView(r: Repositories, maxDepth: nat, q: Request, now: Time, m: Membership,
                                     bindings: seq<RoleBinding>, candidates: seq<RoleBinding>)
    requires Sound(r)
    requires EvaluateGovernance(View(r, q.subject, q.tenant), maxDepth, q, bindings)
      == EvaluateGovernance(r, maxDepth, q, bindings)
    requires forall b :: b in candidates ==> b.role in RolesIn(r.roles, q.tenant)
    ensures TryBindings(View(r, q.subject, q.tenant), maxDepth, q, now, m, bindings, candidates)
         == TryBindings(r, maxDepth, q, now, m, bindings, candidates)
  {
    if candidates != [] {
      TryOneInView(r, maxDepth, q, now, m, bindings, candidates[0]);
      TryInView(r, maxDepth, q, now, m, bindings, candidates[1..]);
    }
  }

  lemma {:induction false} SortedMember(bs: seq<RoleBinding>)
    requires UniqueIds(bs)
    ensures forall b :: b in SortById(bs) <==> b in bs
  {
    SortIsSorted(bs);
  }

  lemma ScreenInView(r: Repositories, q: Request, now: Time)
    ensures Screen(View(r, q.subject, q.tenant), q, now) == Screen(r, q, now)
    ensures Screen(r, q, now).None? ==>
      FindMembership(View(r, q.subject, q.tenant).memberships, q.subject, q.tenant)
        == FindMembership(r.memberships, q.subject, q.tenant)
  {
    BindingsNarrow(r.bindings, q.subject, q.tenant);
    MembershipNarrow(r.memberships, q.subject, q.tenant);
  }

  /** The bindings in force bind Roles of the view. */
  lemma CurrentInView(r: Repositories, q: Request, now: Time)
    requires Sound(r)
    ensures forall b :: b in Current(r, q, now) ==> b.role in RolesIn(r.roles, q.tenant)
    ensures forall b :: b in SortById(InScope(Current(r, q, now), q.scope)) ==> b.role in RolesIn(r.roles, q.tenant)
  {
    CurrentMember(r, q, now);
    InScopeMember(Current(r, q, now), q.scope);
    SortedMember(InScope(Current(r, q, now), q.scope));
  }

  /** A decision depends on nothing but the view of its subject and tenant. */
  lemma ViewDecides(r: Repositories, maxDepth: nat, q: Request, now: Time)
    requires Sound(r)
    ensures Authorize(View(r, q.subject, q.tenant), maxDepth, q, now) == Authorize(r, maxDepth, q, now)
  {
    ScreenInView(r, q, now);
    BindingsNarrow(r.bindings, q.subject, q.tenant);
    if Screen(r, q, now).None? {
      var bs := Current(r, q, now);
      CurrentInView(r, q, now);
      GovernanceInView(r, maxDepth, q, bs);
      TryInView(r, maxDepth, q, now, FindMembership(r.memberships, q.subject, q.tenant).value, bs,
                SortById(InScope(bs, q.scope)));
    }
  }

  // ---------------------------------------------------------------- stamp coverage

  lemma {:induction false} PutMembershipElsewhere(ms: seq<Membership>, m: Membership, s: IdentityId, t: TenantId)
    requires !(m.identity == s && m.tenant == t)
    requires forall x :: x in ms && x.id == m.id ==> x.identity == m.identity && x.tenant == m.tenant
    ensures FindMembership(PutMembership(ms, m), s, t) == FindMembership(ms, s, t)
  {
    if ms != [] {
      assert ms[0] in ms && forall x :: x in ms[1..] ==> x in ms;
      if ms[0].id != m.id {
        PutMembershipElsewhere(ms[1..], m, s, t);
      }
    }
  }

  lemma {:induction false} PutBindingElsewhere(bs: seq<RoleBinding>, b: RoleBinding, s: IdentityId, t: TenantId)
    requires !(b.identity == s && b.tenant == t)
    requires forall x :: x in bs && x.id == b.id ==> x.identity == b.identity && x.tenant == b.tenant
    ensures BindingsOf(PutBinding(bs, b), s, t) == BindingsOf(bs, s, t)
  {
    if bs != [] {
      assert bs[0] in bs && forall x :: x in bs[1..] ==> x in bs;
      if bs[0].id != b.id {
        PutBindingElsewhere(bs[1..], b, s, t);
      }
    }
  }

  lemma {:induction false} ConstraintAppended(rules: seq<Constraint>, k: Constraint, t: TenantId)
    requires !InTenant(k.tenant, t)
    ensures ConstraintsIn(rules + [k], t) == ConstraintsIn(rules, t)
  {
    if rules == [] { assert ConstraintsIn([k], t) == []; }
    else { ConstraintAppended(rules[1..], k, t); assert (rules + [k])[1..] == rules[1..] + [k]; }
  }

  lemma {:induction false} StaticAppended(rules: seq<StaticRule>, k: StaticRule, t: TenantId)
    requires !InTenant(k.tenant, t)
    ensures StaticRulesFor(rules + [k], t) == StaticRulesFor(rules, t)
  {
    if rules == [] { assert StaticRulesFor([k], t) == []; }
    else { StaticAppended(rules[1..], k, t); assert (rules + [k])[1..] == rules[1..] + [k]; }
  }

  lemma {:induction false} DynamicAppended(rules: seq<DynamicRule>, k: DynamicRule, t: TenantId)
    requires !InTenant(k.tenant, t)
    ensures DynamicRulesIn(rules + [k], t) == DynamicRulesIn(rules, t)
  {
    if rules == [] { assert DynamicRulesIn([k], t) == []; }
    else { DynamicAppended(rules[1..], k, t); assert (rules + [k])[1..] == rules[1..] + [k]; }
  }

  lemma PartyWriteElsewhere(r: Repositories, w: Write, s: IdentityId, t: TenantId)
    requires (w.SaveIdentity? || w.SaveTenant? || w.SavePermission?) && !Touches(DimensionOf(w), s, t)
    ensures View(ApplyWrite(r, w), s, t) == View(r, s, t)
  {
  }

  lemma RoleWriteElsewhere(c: Catalog, id: RoleId, role: Role, t: TenantId)
    requires !InTenant(role.tenant, t) && (id in c ==> c[id].tenant == role.tenant)
    ensures RolesIn(c[id := role], t) == RolesIn(c, t)
  {
  }

  lemma ListWriteElsewhere(r: Repositories, w: Write, clock: Time, s: IdentityId, t: TenantId)
    requires Permitted(r, w, clock) && !Touches(DimensionOf(w), s, t)
    requires w.SaveMembership? || w.SaveBinding? || w.SaveConstraint? || w.SaveStaticRule? || w.SaveDynamicRule?
    ensures View(ApplyWrite(r, w), s, t) == View(r, s, t)
  {
    match w
    case SaveMembership(m) => PutMembershipElsewhere(r.memberships, m, s, t);
    case SaveBinding(b) => PutBindingElsewhere(r.bindings, b, s, t);
    case SaveConstraint(k) => ConstraintAppended(r.constraints, k, t);
    case SaveStaticRule(k) => StaticAppended(r.staticRules, k, t);
    case SaveDynamicRule(k) => DynamicAppended(r.dynamicRules, k, t);
  }

  /** Stamp coverage: a save whose dimension is not in the stamp of (s, t) leaves the view of (s, t)
  untouched, so it can change no decision about s in t. */
  lemma UntouchedView(r: Repositories, w: Write, clock: Time, s: IdentityId, t: TenantId)
    requires Sound(r) && Permitted(r, w, clock) && !Touches(DimensionOf(w), s, t)
    ensures View(ApplyWrite(r, w), s, t) == View(r, s, t)
  {
    if w.SaveRole? {
      RoleWriteElsewhere(r.roles, w.id, w.role, t);
    } else if w.SaveIdentity? || w.SaveTenant? || w.SavePermission? {
      PartyWriteElsewhere(r, w, s, t);
    } else {
      ListWriteElsewhere(r, w, clock, s, t);
    }
  }

  lemma UntouchedDecision(r: Repositories, w: Write, clock: Time, maxDepth: nat, q: Request, now: Time)
    requires Sound(r) && StartedBy(r, clock) && Permitted(r, w, clock) && !Touches(DimensionOf(w), q.subject, q.tenant)
    ensures Authorize(ApplyWrite(r, w), maxDepth, q, now) == Authorize(r, maxDepth, q, now)
  {
    PermittedKeepsSound(r, w, clock);
    UntouchedView(r, w, clock, q.subject, q.tenant);
    ViewDecides(r, maxDepth, q, now);
    ViewDecides(ApplyWrite(r, w), maxDepth, q, now);
  }
}
