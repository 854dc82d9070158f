/** What the authorization decision means: a declarative reading of ALLOW, independence of the
repository's order, monotonicity of governance, and stability in time. */
module AuthorizationTheorems {
  import opened Prelude
  import opened DecimalText
  import opened RoleGraph
  import opened RoleHierarchy
  import opened Governance
  import opened Authorization

  // ---------------------------------------------------------------- sorting and filtering

  ghost predicate UniqueIds(bs: seq<RoleBinding>) {
    forall i, j :: 0 <= i < j < |bs| ==> bs[i].id != bs[j].id
  }

  ghost predicate Increasing(bs: seq<RoleBinding>) {
    forall i, j :: 0 <= i < j < |bs| ==> bs[i].id < bs[j].id
  }

  ghost predicate SameElements<T(!new)>(a: seq<T>, b: seq<T>) {
    forall x :: x in a <==> x in b
  }

  lemma {:induction false} InsertSorted(b: RoleBinding, bs: seq<RoleBinding>)
    requires Increasing(bs) && forall x :: x in bs ==> x.id != b.id
    ensures Increasing(Insert(b, bs))
    ensures forall x :: x in Insert(b, bs) <==> x == b || x in bs
  {
    if bs != [] && b.id > bs[0].id {
      InsertSorted(b, bs[1..]);
      var rest := Insert(b, bs[1..]);
      assert forall x :: x in bs <==> x == bs[0] || x in bs[1..];
      forall i, j | 0 <= i < j < |[bs[0]] + rest|
        ensures ([bs[0]] + rest)[i].id < ([bs[0]] + rest)[j].id
      {
        assert rest[j - 1] in rest;
      }
    } else if bs != [] {
      assert bs[0] in bs;
    }
  }

  lemma {:induction false} SortIsSorted(bs: seq<RoleBinding>)
    requires UniqueIds(bs)
    ensures Increasing(SortById(bs)) && SameElements(SortById(bs), bs)
  {
    if bs != [] {
      SortIsSorted(bs[1..]);
      assert forall x :: x in bs <==> x == bs[0] || x in bs[1..];
      InsertSorted(bs[0], SortById(bs[1..]));
    }
  }

  lemma {:induction false} IncreasingEqual(a: seq<RoleBinding>, b: seq<RoleBinding>)
    requires Increasing(a) && Increasing(b) && SameElements(a, b)
    ensures a == b
  {
    assert b != [] ==> b[0] in a;
    if a != [] {
      assert a[0] in b;
      assert a[0] == b[0];
      forall x
        ensures x in a[1..] <==> x in b[1..]
      {
        assert x in a <==> x == a[0] || x in a[1..];
        assert x in b <==> x == b[0] || x in b[1..];
      }
      IncreasingEqual(a[1..], b[1..]);
    }
  }

  lemma {:induction false} BindingsOfMember(bs: seq<RoleBinding>, subject: IdentityId, tenant: TenantId)
    ensures forall x :: x in BindingsOf(bs, subject, tenant) <==> x in bs && x.identity == subject && x.tenant == tenant
    ensures UniqueIds(bs) ==> UniqueIds(BindingsOf(bs, subject, tenant))
  {
    if bs != [] {
      BindingsOfMember(bs[1..], subject, tenant);
      assert forall x :: x in bs <==> x == bs[0] || x in bs[1..];
    }
  }

  lemma {:induction false} ActiveMember(bs: seq<RoleBinding>, at: Time)
    ensures forall x :: x in ActiveBindings(bs, at) <==> x in bs && x.IsActive(at)
    ensures UniqueIds(bs) ==> UniqueIds(ActiveBindings(bs, at))
  {
    if bs != [] {
      ActiveMember(bs[1..], at);
      assert forall x :: x in bs[1..] && UniqueIds(bs) ==> x.id != bs[0].id;
      assert forall x :: x in bs <==> x == bs[0] || x in bs[1..];
    }
  }

  lemma {:induction false} InScopeMember(bs: seq<RoleBinding>, scope: TenantId)
    ensures forall x :: x in InScope(bs, scope) <==> x in bs && x.scope == scope
    ensures UniqueIds(bs) ==> UniqueIds(InScope(bs, scope))
  {
    if bs != [] {
      InScopeMember(bs[1..], scope);
      assert forall x :: x in bs <==> x == bs[0] || x in bs[1..];
    }
  }

  // ---------------------------------------------------------------- a declarative reading

  /** The bindings in force for the subject in the tenant. */
  ghost predicate InForce(r: Repositories, q: Request, now: Time, b: RoleBinding) {
    b in r.bindings && b.identity == q.subject && b.tenant == q.tenant && b.IsActive(now)
  }

  ghost predicate Candidate(r: Repositories, q: Request, now: Time, b: RoleBinding) {
    InForce(r, q, now, b) && b.scope == q.scope
  }

  function Current(r: Repositories, q: Request, now: Time): seq<RoleBinding> {
    ActiveBindings(BindingsOf(r.bindings, q.subject, q.tenant), now)
  }

  lemma CurrentMember(r: Repositories, q: Request, now: Time)
    requires UniqueIds(r.bindings)
    ensures UniqueIds(Current(r, q, now)) && forall b :: b in Current(r, q, now) <==> InForce(r, q, now, b)
    ensures var sorted := SortById(InScope(Current(r, q, now), q.scope));
      Increasing(sorted) && forall b :: b in sorted <==> Candidate(r, q, now, b)
  {
    BindingsOfMember(r.bindings, q.subject, q.tenant);
    ActiveMember(BindingsOf(r.bindings, q.subject, q.tenant), now);
    InScopeMember(Current(r, q, now), q.scope);
    SortIsSorted(InScope(Current(r, q, now), q.scope));
  }

  ghost predicate Admitted(r: Repositories, q: Request, now: Time) {
    && q.subject in r.identities && r.identities[q.subject] == Active
    && q.tenant in r.tenants && r.tenants[q.tenant] == Active
    && FindMembership(r.memberships, q.subject, q.tenant).Some?
    && FindMembership(r.memberships, q.subject, q.tenant).value.IsActive(now)
    && q.permission in r.permissions
  }

  predicate RoleUsable(r: Repositories, q: Request, b: RoleBinding) {
    Available(r.roles, b.role) && (r.roles[b.role].tenant.None? || r.roles[b.role].tenant.value == q.tenant)
  }

  /** The binding's Role inherits nothing wrong and nothing that holds the permission. */
  ghost predicate CleanMiss(r: Repositories, maxDepth: nat, q: Request, b: RoleBinding) {
    && RoleUsable(r, q, b)
    && CleanBelow(r.roles, b.role) && DepthWithin(r.roles, b.role, maxDepth)
    && NoneBelowHolds(r.roles, b.role, q.permission)
  }

  ghost predicate Grants(r: Repositories, maxDepth: nat, q: Request, b: RoleBinding) {
    && RoleUsable(r, q, b)
    && PermissionPath(r.roles, maxDepth, b.role, q.permission).Ok?
    && PermissionPath(r.roles, maxDepth, b.role, q.permission).value.Some?
  }

  /** `v` is one of the Roles inherited through the bindings in force. */
  ghost predicate InheritedInForce(r: Repositories, q: Request, now: Time, v: RoleId) {
    exists b :: InForce(r, q, now, b) && Reaches(r.roles, b.role, v)
  }

  ghost predicate StaticClean(r: Repositories, maxDepth: nat, q: Request, now: Time) {
    forall k :: k in r.staticRules && InTenant(k.tenant, q.tenant) ==>
      && !(InheritedInForce(r, q, now, k.first) && InheritedInForce(r, q, now, k.second))
      && forall b :: InForce(r, q, now, b) ==> ResolveRoles(r.roles, maxDepth, b.role).Ok?
  }

  // ---------------------------------------------------------------- what the rules ask of a request

  predicate AsAssured(level: AssuranceLevel, minimum: AssuranceLevel) {
    level == minimum || level == AAL3 || minimum == AAL1
  }

  predicate Attached(q: Request, name: string) {
    q.resource.Some? && name in q.resource.value.attributes
  }

  /** The text the program gives the value: `str(value)`. */
  predicate ReadsAs(a: Attribute, text: string) {
    || (a.NullAttribute? && text == "None")
    || (a.FlagAttribute? && text == if a.flag then "True" else "False")
    || (a.WholeAttribute? && text == IntText(a.whole))
    || (a.TextAttribute? && text == a.text)
  }

  /** A number; flags do not count as numbers. */
  predicate Numeric(a: Attribute) {
    a.WholeAttribute? || (a.TextAttribute? && a.reading.Some?)
  }

  predicate AtMost(a: Attribute, maximum: real) {
    || (a.WholeAttribute? && a.whole as real <= maximum)
    || (a.TextAttribute? && a.reading.Some?
        && (a.reading.value.NegativeInfinity? || (a.reading.value.Finite? && a.reading.value.value <= maximum)))
  }

  predicate Met(k: Constraint, q: Request) {
    match k
    case NumericMaximum(_, _, name, maximum, _) =>
      Attached(q, name) && AtMost(q.resource.value.attributes[name], maximum)
    case AttributeEquals(_, _, name, expected, _) =>
      Attached(q, name) && ReadsAs(q.resource.value.attributes[name], expected)
    case MinimumAssurance(_, _, minimum, requireMfa, _) =>
      && q.authentication.Some? && AsAssured(q.authentication.value.level, minimum)
      && (requireMfa ==> q.authentication.value.mfa)
  }

  /** The attribute is there, and does not name the subject. */
  predicate Separate(k: DynamicRule, q: Request) {
    Attached(q, k.attribute) && !ReadsAs(q.resource.value.attributes[k.attribute], IdentityText(q.subject))
  }

  lemma MetExact(k: Constraint, q: Request)
    ensures ConstraintViolation(k, q).None? <==> Met(k, q)
  {
  }

  lemma SeparateExact(k: DynamicRule, q: Request)
    ensures DynamicViolation(k, q).None? <==> Separate(k, q)
  {
  }

  predicate Applies(scope: Option<TenantId>, permission: PermissionCode, q: Request) {
    permission == q.permission && InTenant(scope, q.tenant)
  }

  ghost predicate RequestClean(r: Repositories, q: Request) {
    && (forall k :: k in r.dynamicRules && Applies(k.tenant, k.permission, q) ==> Separate(k, q))
    && (forall k :: k in r.constraints && Applies(k.tenant, k.permission, q) ==> Met(k, q))
  }

  lemma GovernanceExact(r: Repositories, maxDepth: nat, q: Request, now: Time)
    requires UniqueIds(r.bindings)
    ensures EvaluateGovernance(r, maxDepth, q, Current(r, q, now)).None?
       <==> StaticClean(r, maxDepth, q, now) && RequestClean(r, q)
  {
    StaticExact(r, maxDepth, q, now);
    DynamicRulesForMember(r.dynamicRules, q.permission, q.tenant);
    DynamicScan(DynamicRulesFor(r.dynamicRules, q.permission, q.tenant), q);
    ConstraintsForMember(r.constraints, q.permission, q.tenant);
    ConstraintScan(ConstraintsFor(r.constraints, q.permission, q.tenant), q);
    forall k: Constraint ensures ConstraintViolation(k, q).None? <==> Met(k, q) { MetExact(k, q); }
    forall k: DynamicRule ensures DynamicViolation(k, q).None? <==> Separate(k, q) { SeparateExact(k, q); }
  }

  lemma BoundMember(bs: seq<RoleBinding>, v: RoleId)
    ensures v in RolesBound(bs) <==> exists b :: b in bs && b.role == v
  {
    var bound := RolesBound(bs);
    if v in bound {
      var i :| 0 <= i < |bound| && bound[i] == v;
      assert bs[i] in bs;
    }
    if b :| b in bs && b.role == v {
      var i :| 0 <= i < |bs| && bs[i] == b;
      assert bound[i] == v;
    }
  }

  lemma InheritedIffInForce(r: Repositories, q: Request, now: Time, v: RoleId)
    requires UniqueIds(r.bindings)
    ensures Inherited(r.roles, RolesBound(Current(r, q, now)), v) <==> InheritedInForce(r, q, now, v)
  {
    CurrentMember(r, q, now);
    var bs := Current(r, q, now);
    if Inherited(r.roles, RolesBound(bs), v) {
      var x :| x in RolesBound(bs) && Reaches(r.roles, x, v);
      BoundMember(bs, x);
    }
    if InheritedInForce(r, q, now, v) {
      var b :| InForce(r, q, now, b) && Reaches(r.roles, b.role, v);
      BoundMember(bs, b.role);
    }
  }

  lemma StaticExact(r: Repositories, maxDepth: nat, q: Request, now: Time)
    requires UniqueIds(r.bindings)
    ensures DetectRuntime(r.roles, maxDepth, StaticRulesFor(r.staticRules, q.tenant),
                          RolesBound(Current(r, q, now))).None?
       <==> StaticClean(r, maxDepth, q, now)
  {
    var bs := Current(r, q, now);
    var rules := StaticRulesFor(r.staticRules, q.tenant);
    CurrentMember(r, q, now);
    StaticRulesForMember(r.staticRules, q.tenant);
    DetectRuntimeExact(r.roles, maxDepth, rules, RolesBound(bs));
    forall v: RoleId
      ensures Inherited(r.roles, RolesBound(bs), v) <==> InheritedInForce(r, q, now, v)
    {
      InheritedIffInForce(r, q, now, v);
    }
    forall b | InForce(r, q, now, b)
      ensures b.role in RolesBound(bs)
    {
      BoundMember(bs, b.role);
    }
    forall x | x in RolesBound(bs)
      ensures exists b :: InForce(r, q, now, b) && b.role == x
    {
      BoundMember(bs, x);
    }
    if rules != [] { assert rules[0] in rules; }
  }

  lemma TryExact(r: Repositories, maxDepth: nat, q: Request, now: Time, m: Membership, b: RoleBinding)
    requires UniqueIds(r.bindings)
    ensures var t := TryBinding(r, maxDepth, q, now, m, Current(r, q, now), b);
      && (t.None? <==> CleanMiss(r, maxDepth, q, b))
      && (t.Some? && t.value.allowed <==>
            Grants(r, maxDepth, q, b) && StaticClean(r, maxDepth, q, now) && RequestClean(r, q))
  {
    MissExact(r.roles, maxDepth, b.role, q.permission);
    GovernanceExact(r, maxDepth, q, now);
  }

  lemma {:induction false} FirstDecides(r: Repositories, maxDepth: nat, q: Request, now: Time, m: Membership,
                                        bindings: seq<RoleBinding>, candidates: seq<RoleBinding>) returns (k: nat)
    ensures k <= |candidates|
    ensures forall j :: 0 <= j < k ==> TryBinding(r, maxDepth, q, now, m, bindings, candidates[j]).None?
    ensures k < |candidates| ==>
      TryBinding(r, maxDepth, q, now, m, bindings, candidates[k])
        == Some(TryBindings(r, maxDepth, q, now, m, bindings, candidates))
    ensures k == |candidates| ==>
      TryBindings(r, maxDepth, q, now, m, bindings, candidates) == Deny(q, now, DenyPermissionNotGranted)
  {
    if candidates == [] || TryBinding(r, maxDepth, q, now, m, bindings, candidates[0]).Some? {
      k := 0;
    } else {
      var rest := FirstDecides(r, maxDepth, q, now, m, bindings, candidates[1..]);
      k := rest + 1;
      assert forall j :: 1 <= j <= |candidates[1..]| ==> candidates[j] == candidates[1..][j - 1];
    }
  }

  /** `b` is the binding an ALLOW rests on: it grants, nothing in governance objects, and every
  candidate before it in identifier order is a clean miss. */
  ghost predicate AllowRestsOn(r: Repositories, maxDepth: nat, q: Request, now: Time, b: RoleBinding) {
    && Admitted(r, q, now)
    && Candidate(r, q, now, b)
    && Grants(r, maxDepth, q, b)
    && StaticClean(r, maxDepth, q, now) && RequestClean(r, q)
    && forall e :: Candidate(r, q, now, e) && e.id < b.id ==> CleanMiss(r, maxDepth, q, e)
  }

  ghost function AllowedThrough(r: Repositories, maxDepth: nat, q: Request, now: Time, b: RoleBinding): Decision
    requires Admitted(r, q, now) && Grants(r, maxDepth, q, b)
  {
    PathAgreesWithClosure(r.roles, maxDepth, b.role, q.permission);
    Allow(q, now, FindMembership(r.memberships, q.subject, q.tenant).value, b,
          PermissionPath(r.roles, maxDepth, b.role, q.permission).value.value)
  }

  /** ALLOW, declaratively: both directions, and which ALLOW it is. */
  lemma AllowExact(r: Repositories, maxDepth: nat, q: Request, now: Time)
    requires UniqueIds(r.bindings)
    ensures Authorize(r, maxDepth, q, now).allowed <==> exists b :: AllowRestsOn(r, maxDepth, q, now, b)
    ensures forall b :: AllowRestsOn(r, maxDepth, q, now, b) ==>
      Authorize(r, maxDepth, q, now) == AllowedThrough(r, maxDepth, q, now, b)
  {
    if Authorize(r, maxDepth, q, now).allowed {
      var _ := AllowRests(r, maxDepth, q, now);
    }
    forall b | AllowRestsOn(r, maxDepth, q, now, b)
      ensures Authorize(r, maxDepth, q, now) == AllowedThrough(r, maxDepth, q, now, b)
    {
      AllowFollows(r, maxDepth, q, now, b);
    }
  }

  /** The binding grants along `path`, the first granting path from its Role in the order of the search. */
  ghost predicate GrantsAlong(r: Repositories, maxDepth: nat, q: Request, b: RoleBinding, path: seq<RoleId>) {
    RoleUsable(r, q, b) && FirstHit(r.roles, maxDepth, q.permission, b.role, path, {}, 0)
  }

  lemma GrantsExact(r: Repositories, maxDepth: nat, q: Request, b: RoleBinding)
    ensures Grants(r, maxDepth, q, b) <==> exists path :: GrantsAlong(r, maxDepth, q, b, path)
    ensures forall path :: GrantsAlong(r, maxDepth, q, b, path) ==>
      PermissionPath(r.roles, maxDepth, b.role, q.permission) == Ok(Some(path))
  {
    if Grants(r, maxDepth, q, b) {
      var path := PermissionPath(r.roles, maxDepth, b.role, q.permission).value.value;
      HitExact(r.roles, maxDepth, b.role, q.permission, path);
      assert GrantsAlong(r, maxDepth, q, b, path);
    }
    forall path | GrantsAlong(r, maxDepth, q, b, path)
      ensures PermissionPath(r.roles, maxDepth, b.role, q.permission) == Ok(Some(path))
    {
      HitExact(r.roles, maxDepth, b.role, q.permission, path);
    }
  }

  /** ALLOW without a word about the search: the binding it rests on, and the path it names. */
  ghost predicate AllowRestsAlong(r: Repositories, maxDepth: nat, q: Request, now: Time, b: RoleBinding,
                                  path: seq<RoleId>) {
    && Admitted(r, q, now)
    && Candidate(r, q, now, b)
    && GrantsAlong(r, maxDepth, q, b, path)
    && StaticClean(r, maxDepth, q, now) && RequestClean(r, q)
    && forall e :: Candidate(r, q, now, e) && e.id < b.id ==> CleanMiss(r, maxDepth, q, e)
  }

  lemma AllowPathExact(r: Repositories, maxDepth: nat, q: Request, now: Time)
    requires UniqueIds(r.bindings)
    ensures Authorize(r, maxDepth, q, now).allowed <==> exists b, path :: AllowRestsAlong(r, maxDepth, q, now, b, path)
    ensures forall b, path :: AllowRestsAlong(r, maxDepth, q, now, b, path) ==>
      Authorize(r, maxDepth, q, now) == Allow(q, now, FindMembership(r.memberships, q.subject, q.tenant).value, b, path)
  {
    AllowExact(r, maxDepth, q, now);
    if b :| AllowRestsOn(r, maxDepth, q, now, b) {
      GrantsExact(r, maxDepth, q, b);
      var path :| GrantsAlong(r, maxDepth, q, b, path);
      assert AllowRestsAlong(r, maxDepth, q, now, b, path);
    }
    forall b, path | AllowRestsAlong(r, maxDepth, q, now, b, path)
      ensures AllowRestsOn(r, maxDepth, q, now, b)
      ensures Authorize(r, maxDepth, q, now)
        == Allow(q, now, FindMembership(r.memberships, q.subject, q.tenant).value, b, path)
    {
      GrantsExact(r, maxDepth, q, b);
    }
  }

  lemma AllowRests(r: Repositories, maxDepth: nat, q: Request, now: Time) returns (b: RoleBinding)
    requires UniqueIds(r.bindings) && Authorize(r, maxDepth, q, now).allowed
    ensures AllowRestsOn(r, maxDepth, q, now, b)
  {
    var m := FindMembership(r.memberships, q.subject, q.tenant).value;
    var bs := Current(r, q, now);
    var sorted := SortById(InScope(bs, q.scope));
    CurrentMember(r, q, now);
    var k := FirstDecides(r, maxDepth, q, now, m, bs, sorted);
    b := sorted[k];
    TryExact(r, maxDepth, q, now, m, b);
    assert b in sorted;
    forall e | Candidate(r, q, now, e) && e.id < b.id
      ensures CleanMiss(r, maxDepth, q, e)
    {
      var j :| 0 <= j < |sorted| && sorted[j] == e;
      assert j < k;
      TryExact(r, maxDepth, q, now, m, e);
    }
  }

  lemma AllowFollows(r: Repositories, maxDepth: nat, q: Request, now: Time, b: RoleBinding)
    requires UniqueIds(r.bindings) && AllowRestsOn(r, maxDepth, q, now, b)
    ensures Authorize(r, maxDepth, q, now) == AllowedThrough(r, maxDepth, q, now, b)
  {
    var m := FindMembership(r.memberships, q.subject, q.tenant).value;
    var bs := Current(r, q, now);
    var sorted := SortById(InScope(bs, q.scope));
    CurrentMember(r, q, now);
    InScopeMember(bs, q.scope);
    assert b in sorted && b in bs && b in InScope(bs, q.scope);
    var k := FirstDecides(r, maxDepth, q, now, m, bs, sorted);
    if k < |sorted| {
      assert TryBinding(r, maxDepth, q, now, m, bs, sorted[k]).Some?;
    }
    AllowUnique(r, maxDepth, q, now, m, sorted, k, b);
    GovernanceExact(r, maxDepth, q, now);
  }

  lemma AllowUnique(r: Repositories, maxDepth: nat, q: Request, now: Time, m: Membership, sorted: seq<RoleBinding>,
                    k: nat, b: RoleBinding)
    requires UniqueIds(r.bindings) && AllowRestsOn(r, maxDepth, q, now, b)
    requires Increasing(sorted) && b in sorted && forall e :: e in sorted <==> Candidate(r, q, now, e)
    requires k <= |sorted|
      && forall j :: 0 <= j < k ==> TryBinding(r, maxDepth, q, now, m, Current(r, q, now), sorted[j]).None?
    requires k < |sorted| ==> TryBinding(r, maxDepth, q, now, m, Current(r, q, now), sorted[k]).Some?
    ensures k < |sorted| && sorted[k] == b
  {
    var i :| 0 <= i < |sorted| && sorted[i] == b;
    RestingIsTried(r, maxDepth, q, now, m, b);
    assert i >= k;
    if k < i {
      assert sorted[k] in sorted && sorted[k].id < b.id;
      EarlierIsPassed(r, maxDepth, q, now, m, b, sorted[k]);
    }
  }

  lemma RestingIsTried(r: Repositories, maxDepth: nat, q: Request, now: Time, m: Membership, b: RoleBinding)
    requires UniqueIds(r.bindings) && AllowRestsOn(r, maxDepth, q, now, b)
    ensures TryBinding(r, maxDepth, q, now, m, Current(r, q, now), b).Some?
  {
    TryExact(r, maxDepth, q, now, m, b);
  }

  lemma EarlierIsPassed(r: Repositories, maxDepth: nat, q: Request, now: Time, m: Membership, b: RoleBinding,
                        e: RoleBinding)
    requires UniqueIds(r.bindings) && AllowRestsOn(r, maxDepth, q, now, b)
    requires Candidate(r, q, now, e) && e.id < b.id
    ensures TryBinding(r, maxDepth, q, now, m, Current(r, q, now), e).None?
  {
    TryExact(r, maxDepth, q, now, m, e);
  }

  /** The decision always meets its constructor's demand: `validUntil`, when set, is in the future. */
  lemma DecisionWellFormed(r: Repositories, maxDepth: nat, q: Request, now: Time)
    requires UniqueIds(r.bindings)
    ensures Authorize(r, maxDepth, q, now).WellFormed()
  {
    AllowExact(r, maxDepth, q, now);
    if Authorize(r, maxDepth, q, now).allowed {
      var b :| AllowRestsOn(r, maxDepth, q, now, b);
    } else if Admitted(r, q, now) {
      var _ := FirstDecides(r, maxDepth, q, now, FindMembership(r.memberships, q.subject, q.tenant).value,
                            Current(r, q, now), SortById(InScope(Current(r, q, now), q.scope)));
    }
  }

  // ---------------------------------------------------------------- order independence

  lemma GovernanceOrderless(r: Repositories, maxDepth: nat, q: Request, a: seq<RoleBinding>, b: seq<RoleBinding>)
    requires SameElements(a, b)
    ensures EvaluateGovernance(r, maxDepth, q, a) == EvaluateGovernance(r, maxDepth, q, b)
  {
    var x, y := RolesBound(a), RolesBound(b);
    forall v: RoleId
      ensures v in x <==> v in y
    {
      BoundMember(a, v);
      BoundMember(b, v);
    }
    EffectiveExact(r.roles, maxDepth, x, {});
    EffectiveExact(r.roles, maxDepth, y, {});
    forall v: RoleId
      ensures Inherited(r.roles, x, v) <==> Inherited(r.roles, y, v)
    {
      if Inherited(r.roles, x, v) { var w :| w in x && Reaches(r.roles, w, v); assert w in y; }
      if Inherited(r.roles, y, v) { var w :| w in y && Reaches(r.roles, w, v); assert w in x; }
    }
    if EffectiveRoleIds(r.roles, maxDepth, x, {}).Ok? {
      assert EffectiveRoleIds(r.roles, maxDepth, x, {}).value == EffectiveRoleIds(r.roles, maxDepth, y, {}).value;
    }
  }

  lemma {:induction false} TryOrderless(r: Repositories, other: seq<RoleBinding>, maxDepth: nat, q: Request, now: Time,
                                        m: Membership,
                                        a: seq<RoleBinding>, b: seq<RoleBinding>, candidates: seq<RoleBinding>)
    requires SameElements(a, b)
    ensures TryBindings(r, maxDepth, q, now, m, a, candidates)
      == TryBindings(r.(bindings := other), maxDepth, q, now, m, b, candidates)
  {
    if candidates != [] {
      GovernanceOrderless(r, maxDepth, q, a, b);
      assert EvaluateGovernance(r, maxDepth, q, b) == EvaluateGovernance(r.(bindings := other), maxDepth, q, b);
      TryOrderless(r, other, maxDepth, q, now, m, a, b, candidates[1..]);
    }
  }

  lemma {:induction false} SortOrderless(a: seq<RoleBinding>, b: seq<RoleBinding>)
    requires UniqueIds(a) && UniqueIds(b) && SameElements(a, b)
    ensures SortById(a) == SortById(b) && (a == [] <==> b == [])
  {
    SortIsSorted(a);
    SortIsSorted(b);
    IncreasingEqual(SortById(a), SortById(b));
    if a != [] { assert a[0] in b; }
    if b != [] { assert b[0] in a; }
  }

  lemma CurrentOrderless(r: Repositories, other: seq<RoleBinding>, q: Request, now: Time)
    requires UniqueIds(r.bindings) && UniqueIds(other) && SameElements(r.bindings, other)
    ensures var a, b := Current(r, q, now), Current(r.(bindings := other), q, now);
      && SameElements(a, b) && (a == [] <==> b == [])
      && (InScope(a, q.scope) == [] <==> InScope(b, q.scope) == [])
      && SortById(InScope(a, q.scope)) == SortById(InScope(b, q.scope))
  {
    var r' := r.(bindings := other);
    CurrentMember(r, q, now);
    CurrentMember(r', q, now);
    var a, b := Current(r, q, now), Current(r', q, now);
    assert forall x :: InForce(r, q, now, x) <==> InForce(r', q, now, x);
    InScopeMember(a, q.scope);
    InScopeMember(b, q.scope);
    SortOrderless(a, b);
    SortOrderless(InScope(a, q.scope), InScope(b, q.scope));
  }

  /** The decision, allow or deny with its whole explanation, does not depend on the order in which
  the repository keeps the bindings. */
  lemma OrderIndependent(r: Repositories, other: seq<RoleBinding>, maxDepth: nat, q: Request, now: Time)
    requires UniqueIds(r.bindings) && UniqueIds(other) && SameElements(r.bindings, other)
    ensures Authorize(r, maxDepth, q, now) == Authorize(r.(bindings := other), maxDepth, q, now)
  {
    CurrentOrderless(r, other, q, now);
    if Admitted(r, q, now) {
      var a, b := Current(r, q, now), Current(r.(bindings := other), q, now);
      TryOrderless(r, other, maxDepth, q, now, FindMembership(r.memberships, q.subject, q.tenant).value, a, b,
                   SortById(InScope(a, q.scope)));
    }
  }

  // ---------------------------------------------------------------- governance is monotone

  /** `more` holds at least the governance rules of `r`, and otherwise the same. */
  ghost predicate MoreGoverned(r: Repositories, more: Repositories) {
    && more == r.(constraints := more.constraints, staticRules := more.staticRules, dynamicRules := more.dynamicRules)
    && (forall k :: k in r.constraints ==> k in more.constraints)
    && (forall k :: k in r.staticRules ==> k in more.staticRules)
    && (forall k :: k in r.dynamicRules ==> k in more.dynamicRules)
  }

  /** Registering rules never turns DENY into ALLOW, and an ALLOW that survives is the same one. */
  lemma MoreRulesNeverAllow(r: Repositories, more: Repositories, maxDepth: nat, q: Request, now: Time)
    requires UniqueIds(r.bindings) && MoreGoverned(r, more)
    requires Authorize(more, maxDepth, q, now).allowed
    ensures Authorize(r, maxDepth, q, now) == Authorize(more, maxDepth, q, now)
  {
    AllowExact(r, maxDepth, q, now);
    AllowExact(more, maxDepth, q, now);
    var b :| AllowRestsOn(more, maxDepth, q, now, b);
    forall e
      ensures InForce(r, q, now, e) <==> InForce(more, q, now, e)
      ensures CleanMiss(r, maxDepth, q, e) <==> CleanMiss(more, maxDepth, q, e)
    {
    }
    forall v
      ensures InheritedInForce(r, q, now, v) ==> InheritedInForce(more, q, now, v)
    {
      if InheritedInForce(r, q, now, v) {
        var e :| InForce(r, q, now, e) && Reaches(r.roles, e.role, v);
        assert InForce(more, q, now, e);
      }
    }
    assert AllowRestsOn(r, maxDepth, q, now, b);
  }

  /** At least the assurance of `a`, and multi-factor wherever `a` had it. */
  predicate AtLeastAsStrong(a: Option<AuthenticationEvidence>, b: Option<AuthenticationEvidence>) {
    a.Some? ==> b.Some? && AsAssured(b.value.level, a.value.level) && (a.value.mfa ==> b.value.mfa)
  }

  lemma RequestCleanWhenStronger(r: Repositories, q: Request, stronger: Option<AuthenticationEvidence>)
    requires RequestClean(r, q) && AtLeastAsStrong(q.authentication, stronger)
    ensures RequestClean(r, q.(authentication := stronger))
  {
    var q' := q.(authentication := stronger);
    forall k | k in r.constraints && Applies(k.tenant, k.permission, q')
      ensures Met(k, q')
    {
      assert Applies(k.tenant, k.permission, q) && Met(k, q);
    }
    forall k | k in r.dynamicRules && Applies(k.tenant, k.permission, q')
      ensures Separate(k, q')
    {
      assert Applies(k.tenant, k.permission, q) && Separate(k, q);
    }
  }

  /** Stronger authentication evidence never turns ALLOW into DENY. */
  lemma StrongerEvidenceKeepsAllow(r: Repositories, maxDepth: nat, q: Request, stronger: Option<AuthenticationEvidence>,
                                   now: Time)
    requires UniqueIds(r.bindings) && AtLeastAsStrong(q.authentication, stronger)
    requires Authorize(r, maxDepth, q, now).allowed
    ensures Authorize(r, maxDepth, q.(authentication := stronger), now) == Authorize(r, maxDepth, q, now)
  {
    var q' := q.(authentication := stronger);
    var b := AllowRests(r, maxDepth, q, now);
    RequestCleanWhenStronger(r, q, stronger);
    assert forall e :: InForce(r, q, now, e) <==> InForce(r, q', now, e);
    assert forall v :: InheritedInForce(r, q', now, v) ==> InheritedInForce(r, q, now, v);
    assert forall e :: Candidate(r, q', now, e) ==> Candidate(r, q, now, e);
    assert forall e :: CleanMiss(r, maxDepth, q, e) ==> CleanMiss(r, maxDepth, q', e);
    assert StaticClean(r, maxDepth, q', now);
    AllowFollows(r, maxDepth, q, now, b);
    AllowFollows(r, maxDepth, q', now, b);
  }

  /** An ALLOW is safe for separation of duties: no applicable rule has both of its Roles among
  those inherited through all the bindings in force. */
  lemma AllowIsSodSafe(r: Repositories, maxDepth: nat, q: Request, now: Time)
    requires UniqueIds(r.bindings) && Authorize(r, maxDepth, q, now).allowed
    ensures forall k :: k in r.staticRules && InTenant(k.tenant, q.tenant) ==>
      !(InheritedInForce(r, q, now, k.first) && InheritedInForce(r, q, now, k.second))
  {
    AllowExact(r, maxDepth, q, now);
  }

  // ---------------------------------------------------------------- stability in time

  /** No stored binding of the subject in the tenant starts after `now`: bindings start when they are created. */
  ghost predicate NothingPostdated(r: Repositories, q: Request, now: Time) {
    forall b :: b in r.bindings && b.identity == q.subject && b.tenant == q.tenant ==> b.validFrom <= now
  }

  /** An ALLOW holds, unchanged but for its time stamp, until its own `validUntil`, even while other
  bindings of the subject expire in between. */
  lemma AllowIsStable(r: Repositories, maxDepth: nat, q: Request, now: Time, later: Time)
    requires UniqueIds(r.bindings) && NothingPostdated(r, q, now)
    requires var d := Authorize(r, maxDepth, q, now);
      d.allowed && now <= later && (d.validUntil.Some? ==> later < d.validUntil.value)
    ensures Authorize(r, maxDepth, q, later) == Authorize(r, maxDepth, q, now).(evaluatedAt := later)
  {
    AllowExact(r, maxDepth, q, now);
    AllowExact(r, maxDepth, q, later);
    var b :| AllowRestsOn(r, maxDepth, q, now, b);
    forall e | InForce(r, q, later, e)
      ensures InForce(r, q, now, e)
    {
    }
    forall v | InheritedInForce(r, q, later, v)
      ensures InheritedInForce(r, q, now, v)
    {
      var e :| InForce(r, q, later, e) && Reaches(r.roles, e.role, v);
      assert InForce(r, q, now, e);
    }
    assert AllowRestsOn(r, maxDepth, q, later, b);
  }
}
