/** What each service call demands and what it leaves: exactly when it succeeds, why it is refused, the one thing it
changes and the one event it publishes. */
module ServiceTheorems {
  import opened Prelude
  import opened RoleGraph
  import opened RoleHierarchy
  import opened Governance
  import opened Authorization
  import opened AuthorizationTheorems
  import opened Writes
  import opened Mutations
  import opened Services

  /** The call succeeds, leaves these repositories and publishes this event. */
  predicate Leaves(r: Repositories, o: Outcome, after: Repositories, e: DomainEvent) {
    o.Ok? && ApplyWrite(r, o.value.write) == after && o.value.events == [e]
  }

  /** The call succeeds, changes nothing and publishes nothing. */
  predicate LeavesAll(r: Repositories, o: Outcome) {
    o.Ok? && ApplyWrite(r, o.value.write) == r && o.value.events == []
  }

  // ---------------------------------------------------------------- identities and tenants

  /** From which state a lifecycle change is allowed, and to which it leads. */
  predicate LifecycleLeads(from: Lifecycle, change: LifecycleChange, to: Lifecycle) {
    || (change == Activate && from == Pending && to == Active)
    || (change == Suspend && from == Active && to == Suspended)
    || (change == Reactivate && from == Suspended && to == Active)
    || (change == Disable && (from == Active || from == Suspended) && to == Disabled)
    || (change == Archive && from == Disabled && to == Archived)
  }

  predicate IdentityTold(change: LifecycleChange, c: IdentityChange) {
    || (change == Activate && c == IdentityActivated) || (change == Suspend && c == IdentitySuspended)
    || (change == Reactivate && c == IdentityReactivated) || (change == Disable && c == IdentityDisabled)
    || (change == Archive && c == IdentityArchived)
  }

  predicate TenantTold(change: LifecycleChange, c: TenantChange) {
    || (change == Activate && c == TenantActivated) || (change == Suspend && c == TenantSuspended)
    || (change == Reactivate && c == TenantReactivated) || (change == Disable && c == TenantDisabled)
    || (change == Archive && c == TenantArchived)
  }

  lemma ChangeIdentityExact(r: Repositories, maxDepth: nat, now: Time, i: IdentityId, change: LifecycleChange)
    ensures var o := Execute(r, maxDepth, now, ChangeIdentity(i, change));
      if i !in r.identities then o == Err(IdentityNotFound)
      else if forall to :: !LifecycleLeads(r.identities[i], change, to) then o == Err(InvalidTransition)
      else exists to, c :: LifecycleLeads(r.identities[i], change, to) && IdentityTold(change, c)
             && Leaves(r, o, r.(identities := r.identities[i := to]), IdentityEvent(c, i, now))
  {
    if i in r.identities {
      TransitionExact(r.identities[i], change);
      assert IdentityTold(change, IdentityChangeOf(change));
    }
  }

  lemma TransitionExact(from: Lifecycle, change: LifecycleChange)
    ensures forall to :: Transition(from, change) == Some(to) <==> LifecycleLeads(from, change, to)
  {
  }

  lemma ChangeTenantExact(r: Repositories, maxDepth: nat, now: Time, t: TenantId, change: LifecycleChange)
    ensures var o := Execute(r, maxDepth, now, ChangeTenant(t, change));
      if t !in r.tenants then o == Err(TenantNotFound)
      else if forall to :: !LifecycleLeads(r.tenants[t], change, to) then o == Err(InvalidTransition)
      else exists to, c :: LifecycleLeads(r.tenants[t], change, to) && TenantTold(change, c)
             && Leaves(r, o, r.(tenants := r.tenants[t := to]), TenantEvent(c, t, now))
  {
    if t in r.tenants {
      TransitionExact(r.tenants[t], change);
      assert TenantTold(change, TenantChangeOf(change));
    }
  }

  /** New identities and tenants are pending; updating a profile or linking an identity changes no lifecycle. */
  lemma PartyCallsExact(r: Repositories, maxDepth: nat, now: Time, i: IdentityId, t: TenantId)
    ensures Leaves(r, Execute(r, maxDepth, now, CreateIdentity(i)), r.(identities := r.identities[i := Pending]),
                   IdentityEvent(IdentityCreated, i, now))
    ensures Leaves(r, Execute(r, maxDepth, now, CreateTenant(t)), r.(tenants := r.tenants[t := Pending]),
                   TenantEvent(TenantCreated, t, now))
    ensures var o := Execute(r, maxDepth, now, UpdateProfile(i));
      if i in r.identities then Leaves(r, o, r, UnrelatedEvent(now)) else o == Err(IdentityNotFound)
    ensures var o := Execute(r, maxDepth, now, LinkExternalIdentity(i));
      if i in r.identities then Leaves(r, o, r, IdentityLinkEvent(i, now)) else o == Err(IdentityNotFound)
  {
    if i in r.identities { assert r.identities[i := r.identities[i]] == r.identities; }
  }

  // ---------------------------------------------------------------- memberships and bindings

  predicate MembershipLeads(from: MembershipStatus, c: MembershipCommand, to: MembershipStatus,
                            told: MembershipChange) {
    || (c == ActivateMembership && from.MembershipPending? && to.MembershipActive? && told == MembershipActivated)
    || (c == SuspendMembership && from.MembershipActive? && to.MembershipSuspended? && told == MembershipSuspension)
    || (c == ReactivateMembership && from.MembershipSuspended? && to.MembershipActive? && told == MembershipReactivated)
    || (c == RevokeMembership && (from.MembershipPending? || from.MembershipActive? || from.MembershipSuspended?)
        && to.MembershipRevoked? && told == MembershipRevocation)
  }

  predicate BindingLeads(from: BindingStatus, c: BindingCommand, to: BindingStatus, told: BindingChange) {
    || (c == SuspendBinding && from.BindingActive? && to.BindingSuspended? && told == BindingSuspension)
    || (c == ReactivateBinding && from.BindingSuspended? && to.BindingActive? && told == BindingReactivated)
    || (c == RevokeBinding && (from.BindingActive? || from.BindingSuspended?) && to.BindingRevoked?
        && told == BindingRevocation)
  }

  /** The membership has this identifier, and no other has. */
  ghost predicate TheMembership(r: Repositories, id: MembershipId, m: Membership) {
    m in r.memberships && m.id == id
  }

  /** The list with one element in the place of another. */
  ghost predicate Swapped<T>(before: seq<T>, after: seq<T>, x: T, y: T) {
    exists k :: 0 <= k < |before| && before[k] == x && after == before[k := y]
  }

  /** Changing a membership: activation needs an active identity and tenant. */
  lemma ChangeMembershipExact(r: Repositories, maxDepth: nat, now: Time, id: MembershipId, c: MembershipCommand)
    requires UniqueMemberships(r.memberships)
    ensures var o := Execute(r, maxDepth, now, ChangeMembership(id, c));
      && ((forall m :: !TheMembership(r, id, m)) ==> o == Err(MembershipNotFound))
      && forall m :: TheMembership(r, id, m) ==>
           if c == ActivateMembership && !(m.identity in r.identities && r.identities[m.identity] == Active) then
             o == Err(MembershipInactive)
           else if c == ActivateMembership && m.tenant !in r.tenants then o == Err(TenantNotFound)
           else if c == ActivateMembership && r.tenants[m.tenant] != Active then o == Err(TenantInactive)
           else if forall to, told :: !MembershipLeads(m.status, c, to, told) then o == Err(InvalidTransition)
           else exists to, told :: MembershipLeads(m.status, c, to, told) && o.Ok?
                  && o.value.events == [MembershipEvent(told, id, m.identity, m.tenant, now)]
                  && (var r' := ApplyWrite(r, o.value.write);
                      r' == r.(memberships := r'.memberships)
                      && Swapped(r.memberships, r'.memberships, m, m.(status := to)))
  {
    MembershipByIdFound(r.memberships, id);
    forall m | TheMembership(r, id, m)
      ensures MembershipById(r.memberships, id) == Some(m)
    {
      OneMembership(r.memberships, m);
    }
    var found := MembershipById(r.memberships, id);
    if found.Some? {
      var m := found.value;
      assert TheMembership(r, id, m);
      MembershipMoves(m.status, c);
      var moved := MembershipTransition(m.status, c);
      if moved.Some? { MembershipSwapped(r.memberships, m, m.(status := moved.value.0)); }
    }
  }

  lemma MembershipMoves(from: MembershipStatus, c: MembershipCommand)
    ensures forall to, told :: MembershipTransition(from, c) == Some((to, told)) <==> MembershipLeads(from, c, to, told)
  {
  }

  lemma {:induction false} OneMembership(ms: seq<Membership>, m: Membership)
    requires UniqueMemberships(ms) && m in ms
    ensures MembershipById(ms, m.id) == Some(m)
  {
    if ms[0] != m {
      var k :| 0 <= k < |ms| && ms[k] == m;
      assert ms[1..][k - 1] == m;
      OneMembership(ms[1..], m);
    }
  }

  lemma {:induction false} MembershipSwapped(ms: seq<Membership>, m: Membership, m': Membership)
    requires UniqueMemberships(ms) && MembershipById(ms, m.id) == Some(m) && m'.id == m.id
    ensures Swapped(ms, PutMembership(ms, m'), m, m')
  {
    PutMembershipFields(ms, m');
    MembershipByIdFound(ms, m.id);
    var k :| 0 <= k < |ms| && ms[k].id == m'.id && PutMembership(ms, m') == ms[k := m'];
    var j :| 0 <= j < |ms| && ms[j] == m;
    assert k == j;
  }

  ghost predicate TheBinding(r: Repositories, id: BindingId, b: RoleBinding) {
    b in r.bindings && b.id == id
  }

  lemma ChangeBindingExact(r: Repositories, maxDepth: nat, now: Time, id: BindingId, c: BindingCommand)
    requires UniqueIds(r.bindings)
    ensures var o := Execute(r, maxDepth, now, ChangeBinding(id, c));
      && ((forall b :: !TheBinding(r, id, b)) ==> o == Err(RoleBindingNotFound))
      && forall b :: TheBinding(r, id, b) ==>
           if forall to, told :: !BindingLeads(b.status, c, to, told) then o == Err(InvalidTransition)
           else exists to, told :: BindingLeads(b.status, c, to, told) && o.Ok?
                  && o.value.events == [BindingEvent(told, id, b.identity, b.tenant, now)]
                  && (var r' := ApplyWrite(r, o.value.write);
                      r' == r.(bindings := r'.bindings) && Swapped(r.bindings, r'.bindings, b, b.(status := to)))
  {
    BindingByIdFound(r.bindings, id);
    forall b | TheBinding(r, id, b)
      ensures BindingById(r.bindings, id) == Some(b)
    {
      OneBinding(r.bindings, b);
    }
    var found := BindingById(r.bindings, id);
    if found.Some? {
      var b := found.value;
      assert TheBinding(r, id, b);
      BindingMoves(b.status, c);
      var moved := BindingTransition(b.status, c);
      if moved.Some? { BindingSwapped(r.bindings, b, b.(status := moved.value.0)); }
    }
  }

  lemma BindingMoves(from: BindingStatus, c: BindingCommand)
    ensures forall to, told :: BindingTransition(from, c) == Some((to, told)) <==> BindingLeads(from, c, to, told)
  {
  }

  lemma {:induction false} OneBinding(bs: seq<RoleBinding>, b: RoleBinding)
    requires UniqueIds(bs) && b in bs
    ensures BindingById(bs, b.id) == Some(b)
  {
    if bs[0] != b {
      var k :| 0 <= k < |bs| && bs[k] == b;
      assert bs[1..][k - 1] == b;
      OneBinding(bs[1..], b);
    }
  }

  lemma {:induction false} BindingSwapped(bs: seq<RoleBinding>, b: RoleBinding, b': RoleBinding)
    requires UniqueIds(bs) && b in bs && b'.id == b.id
    ensures Swapped(bs, PutBinding(bs, b'), b, b')
  {
    var k :| 0 <= k < |bs| && bs[k] == b;
    PutBindingAt(bs, k, b');
  }

  lemma {:induction false} PutBindingAt(bs: seq<RoleBinding>, k: nat, b: RoleBinding)
    requires UniqueIds(bs) && k < |bs| && bs[k].id == b.id
    ensures PutBinding(bs, b) == bs[k := b]
  {
    if k > 0 {
      assert bs[0].id != bs[k].id;
      PutBindingAt(bs[1..], k - 1, b);
      assert bs[k := b] == [bs[0]] + bs[1..][k - 1 := b];
    }
  }

  /** A new membership is pending, from now on; the pair must not have one yet. */
  lemma CreateMembershipExact(r: Repositories, maxDepth: nat, now: Time, id: MembershipId, i: IdentityId, t: TenantId,
                              until: Option<Time>)
    requires forall m :: m in r.memberships ==> m.id != id
    ensures var o := Execute(r, maxDepth, now, CreateMembership(id, i, t, until));
      if i !in r.identities then o == Err(IdentityNotFound)
      else if t !in r.tenants then o == Err(TenantNotFound)
      else if (exists m :: m in r.memberships && m.identity == i && m.tenant == t)
        || (until.Some? && until.value <= now) then
        o == Err(InvalidMembership)
      else Leaves(r, o, r.(memberships := r.memberships + [Membership(id, i, t, MembershipPending, now, until)]),
                  MembershipEvent(MembershipCreated, id, i, t, now))
  {
    PairFound(r.memberships, i, t);
    PutMembershipFields(r.memberships, Membership(id, i, t, MembershipPending, now, until));
    MembershipByIdFound(r.memberships, id);
  }

  lemma {:induction false} PairFound(ms: seq<Membership>, i: IdentityId, t: TenantId)
    ensures FindMembership(ms, i, t).Some? <==> exists m :: m in ms && m.identity == i && m.tenant == t
  {
    if ms != [] {
      PairFound(ms[1..], i, t);
      assert forall m :: m in ms <==> m == ms[0] || m in ms[1..];
    }
  }

  // ---------------------------------------------------------------- roles

  /** The Role is stored and active. */
  predicate Usable(r: Repositories, id: RoleId) {
    id in r.roles && r.roles[id].status.ActiveRole?
  }

  function With(r: Repositories, id: RoleId, role: Role): Repositories {
    r.(roles := r.roles[id := role])
  }

  /** Adding and removing a permission of an active Role; a change that would change nothing is refused. */
  lemma PermissionCallsExact(r: Repositories, maxDepth: nat, now: Time, id: RoleId, p: PermissionCode)
    ensures var o := Execute(r, maxDepth, now, AddPermission(id, p));
      if id !in r.roles then o == Err(RoleNotFound)
      else if p !in r.permissions then o == Err(PermissionNotFound)
      else if !Usable(r, id) then o == Err(RoleInactive)
      else if p in r.roles[id].permissions then o == Err(PermissionAlreadyAssigned)
      else Leaves(r, o, With(r, id, r.roles[id].(permissions := r.roles[id].permissions + {p})),
                  RoleEvent(PermissionAdded, id, r.roles[id].tenant, now))
    ensures var o := Execute(r, maxDepth, now, RemovePermission(id, p));
      if id !in r.roles then o == Err(RoleNotFound)
      else if !Usable(r, id) then o == Err(RoleInactive)
      else if p !in r.roles[id].permissions then o == Err(PermissionNotAssigned)
      else Leaves(r, o, With(r, id, r.roles[id].(permissions := r.roles[id].permissions - {p})),
                  RoleEvent(PermissionRemoved, id, r.roles[id].tenant, now))
  {
  }

  /** Disabling a Role and setting its flags; a flag that is set already is saved and nothing is published. */
  lemma RoleFlagsExact(r: Repositories, maxDepth: nat, now: Time, id: RoleId, flag: bool)
    ensures var o := Execute(r, maxDepth, now, DisableRole(id));
      if id !in r.roles then o == Err(RoleNotFound)
      else if !Usable(r, id) then o == Err(RoleInactive)
      else Leaves(r, o, With(r, id, r.roles[id].(status := DisabledRole)),
                  RoleEvent(RoleDisabled, id, r.roles[id].tenant, now))
    ensures var o := Execute(r, maxDepth, now, SetSensitive(id, flag));
      if id !in r.roles then o == Err(RoleNotFound)
      else if !Usable(r, id) then o == Err(RoleInactive)
      else if r.roles[id].sensitive == flag then LeavesAll(r, o)
      else Leaves(r, o, With(r, id, r.roles[id].(sensitive := flag)),
                  RoleEvent(SensitivityChanged, id, r.roles[id].tenant, now))
    ensures var o := Execute(r, maxDepth, now, SetAssignable(id, flag));
      if id !in r.roles then o == Err(RoleNotFound)
      else if !Usable(r, id) then o == Err(RoleInactive)
      else if r.roles[id].assignable == flag then LeavesAll(r, o)
      else Leaves(r, o, With(r, id, r.roles[id].(assignable := flag)),
                  RoleEvent(AssignabilityChanged, id, r.roles[id].tenant, now))
  {
    if id in r.roles { assert r.roles[id := r.roles[id]] == r.roles; }
  }

  /** An accepted parent is there afterwards, with an event if it was not before; a removed one is not. */
  lemma ParentCallsExact(r: Repositories, maxDepth: nat, now: Time, id: RoleId, parent: RoleId)
    ensures var o := Execute(r, maxDepth, now, AddParent(id, parent));
      && (o.Ok? ==> Usable(r, id))
      && (o.Ok? && parent in r.roles[id].parents ==> LeavesAll(r, o))
      && (o.Ok? && parent !in r.roles[id].parents ==>
            Leaves(r, o, With(r, id, r.roles[id].(parents := r.roles[id].parents + {parent})),
                   RoleEvent(ParentAdded, id, r.roles[id].tenant, now)))
    ensures var o := Execute(r, maxDepth, now, RemoveParent(id, parent));
      if id !in r.roles then o == Err(RoleNotFound)
      else if !Usable(r, id) then o == Err(HierarchyError(Unavailable))
      else if parent !in r.roles[id].parents then LeavesAll(r, o)
      else Leaves(r, o, With(r, id, r.roles[id].(parents := r.roles[id].parents - {parent})),
                  RoleEvent(ParentRemoved, id, r.roles[id].tenant, now))
  {
    if id in r.roles { assert r.roles[id := r.roles[id]] == r.roles; }
  }

  /** Why a parent is refused: the first of these that holds. */
  lemma ParentRefusals(r: Repositories, maxDepth: nat, now: Time, id: RoleId, parent: RoleId)
    ensures var o := Execute(r, maxDepth, now, AddParent(id, parent));
      if id !in r.roles || parent !in r.roles then o == Err(RoleNotFound)
      else if !Usable(r, id) || !Usable(r, parent) then o == Err(HierarchyError(Unavailable))
      else if !EdgeValid(r.roles[id].tenant, r.roles[parent].tenant) then o == Err(HierarchyError(TenantMismatch))
      else if id == parent then o == Err(HierarchyError(Cycle))
      else if AncestorIds(r.roles, maxDepth, parent).Err? then
        exists e :: Genuine(r.roles, maxDepth, e, parent, {}, 0) && o == Err(HierarchyError(e))
      else if ProperlyReaches(r.roles, parent, id) then o == Err(HierarchyError(Cycle))
      else o.Ok?
  {
    if parent in r.roles {
      if AncestorIds(r.roles, maxDepth, parent).Ok? { AncestorsExact(r.roles, maxDepth, parent); }
      else { AncestorsErrorGenuine(r.roles, maxDepth, parent); }
    }
  }

  lemma CreateRoleExact(r: Repositories, maxDepth: nat, now: Time, id: RoleId, t: Option<TenantId>, assignable: bool,
                        sensitive: bool)
    ensures Leaves(r, Execute(r, maxDepth, now, CreateRole(id, t, assignable, sensitive)),
                   With(r, id, Role(t, ActiveRole, {}, {}, assignable, sensitive)), RoleEvent(RoleCreated, id, t, now))
  {
  }

  // ---------------------------------------------------------------- what is registered

  /** A constraint or a dynamic rule must name a registered permission. */
  lemma RegisterCallsExact(r: Repositories, maxDepth: nat, now: Time, p: PermissionCode, k: Constraint, d: DynamicRule)
    ensures var o := Execute(r, maxDepth, now, RegisterPermission(p));
      if p in r.permissions then o == Err(PermissionAlreadyExists)
      else Leaves(r, o, r.(permissions := r.permissions + {p}), PermissionEvent(now))
    ensures var o := Execute(r, maxDepth, now, RegisterConstraint(k));
      if k.permission !in r.permissions then o == Err(PermissionNotFound)
      else Leaves(r, o, r.(constraints := r.constraints + [k]), GovernanceEvent(k.id, k.tenant, now))
    ensures var o := Execute(r, maxDepth, now, RegisterDynamicRule(d));
      if d.permission !in r.permissions then o == Err(PermissionNotFound)
      else Leaves(r, o, r.(dynamicRules := r.dynamicRules + [d]), GovernanceEvent(d.id, d.tenant, now))
  {
  }

  /** A standing rule must name two different Roles that its own scope may see. */
  lemma RegisterStaticRuleExact(r: Repositories, maxDepth: nat, now: Time, s: StaticRule)
    ensures var o := Execute(r, maxDepth, now, RegisterStaticRule(s));
      if s.first !in r.roles || s.second !in r.roles then o == Err(RoleNotFound)
      else if !InRuleScope(r.roles[s.first].tenant, s.tenant) || !InRuleScope(r.roles[s.second].tenant, s.tenant)
        || s.first == s.second then o == Err(InvalidGovernanceRule)
      else Leaves(r, o, r.(staticRules := r.staticRules + [s]), GovernanceEvent(s.id, s.tenant, now))
  {
  }

  /** A global Role may be in any rule, and a tenant's Role in the rules of that tenant. */
  predicate InRuleScope(role: Option<TenantId>, rule: Option<TenantId>) {
    role.Some? ==> rule == role
  }

  // ---------------------------------------------------------------- assignments

  /** The first membership of the pair in the repository; services keep it the only one. */
  ghost predicate FirstOfPair(ms: seq<Membership>, k: nat, i: IdentityId, t: TenantId) {
    && k < |ms| && ms[k].identity == i && ms[k].tenant == t
    && forall j :: 0 <= j < k ==> !(ms[j].identity == i && ms[j].tenant == t)
  }

  predicate MembershipInForce(m: Membership, now: Time) {
    m.status.MembershipActive? && m.validFrom <= now && (m.validUntil.Some? ==> now < m.validUntil.value)
  }

  ghost predicate MemberOf(r: Repositories, i: IdentityId, t: TenantId, now: Time) {
    exists k: nat :: FirstOfPair(r.memberships, k, i, t) && MembershipInForce(r.memberships[k], now)
  }

  lemma {:induction false} FirstFound(ms: seq<Membership>, i: IdentityId, t: TenantId)
    ensures var found := FindMembership(ms, i, t);
      if found.None? then forall k: nat :: !FirstOfPair(ms, k, i, t)
      else forall k: nat :: FirstOfPair(ms, k, i, t) ==> ms[k] == found.value
    ensures FindMembership(ms, i, t).Some? ==> exists k: nat :: FirstOfPair(ms, k, i, t)
  {
    if ms != [] && !(ms[0].identity == i && ms[0].tenant == t) {
      FirstFound(ms[1..], i, t);
      forall k: nat | k > 0 && FirstOfPair(ms, k, i, t)
        ensures FirstOfPair(ms[1..], k - 1, i, t)
      {
        assert forall j :: 0 <= j < k - 1 ==> ms[1..][j] == ms[j + 1];
      }
      forall k: nat | FirstOfPair(ms[1..], k, i, t)
        ensures FirstOfPair(ms, k + 1, i, t)
      {
        assert forall j :: 1 <= j < k + 1 ==> ms[j] == ms[1..][j - 1];
      }
    } else if ms != [] {
      assert FirstOfPair(ms, 0, i, t);
    }
  }

  /** The binding is in force for the identity in the tenant. */
  predicate Bound(r: Repositories, i: IdentityId, t: TenantId, now: Time, b: RoleBinding) {
    && b in r.bindings && b.identity == i && b.tenant == t && b.status.BindingActive? && b.validFrom <= now
    && (b.validUntil.Some? ==> now < b.validUntil.value)
  }

  /** The Role is inherited through a binding in force, or through the candidate Role. */
  ghost predicate Held(r: Repositories, c: Command, now: Time, v: RoleId)
    requires c.AssignRole?
  {
    || Reaches(r.roles, c.role, v)
    || exists b :: Bound(r, c.identity, c.tenant, now, b) && Reaches(r.roles, b.role, v)
  }

  /** Every hierarchy involved resolves, and no rule of the tenant would have both its Roles held. */
  ghost predicate Separated(r: Repositories, maxDepth: nat, c: Command, now: Time)
    requires c.AssignRole?
  {
    && ResolveRoles(r.roles, maxDepth, c.role).Ok?
    && (forall b :: Bound(r, c.identity, c.tenant, now, b) ==> ResolveRoles(r.roles, maxDepth, b.role).Ok?)
    && forall k :: k in r.staticRules && InTenant(k.tenant, c.tenant) ==>
         !(Held(r, c, now, k.first) && Held(r, c, now, k.second))
  }

  /** The pair has no binding in force to this Role in this scope. */
  ghost predicate Unbound(r: Repositories, c: Command, now: Time)
    requires c.AssignRole?
  {
    forall b :: Bound(r, c.identity, c.tenant, now, b) ==> !(b.role == c.role && b.scope == c.scope)
  }

  /** All that an assignment demands. */
  ghost predicate Assignable(r: Repositories, maxDepth: nat, c: Command, now: Time)
    requires c.AssignRole?
  {
    && c.identity in r.identities && r.identities[c.identity] == Active
    && c.tenant in r.tenants && r.tenants[c.tenant] == Active
    && c.scope == c.tenant
    && MemberOf(r, c.identity, c.tenant, now)
    && Usable(r, c.role) && r.roles[c.role].assignable
    && (r.roles[c.role].tenant.Some? ==> r.roles[c.role].tenant.value == c.tenant)
    && (r.roles[c.role].sensitive ==> c.guarded)
    && Unbound(r, c, now)
    && Separated(r, maxDepth, c, now)
    && (c.validUntil.Some? ==> now < c.validUntil.value)
  }

  /** An assignment succeeds exactly when all it demands is there, and leaves one active binding that starts now. */
  lemma AssignRoleExact(r: Repositories, maxDepth: nat, now: Time, c: Command)
    requires c.AssignRole? && forall b :: b in r.bindings ==> b.id != c.binding
    ensures var o := Execute(r, maxDepth, now, c);
      && (o.Ok? <==> Assignable(r, maxDepth, c, now))
      && (o.Ok? ==>
            Leaves(r, o, r.(bindings := r.bindings + [RoleBinding(c.binding, c.identity, c.role, c.tenant, c.scope,
                                                                  BindingActive, now, c.validUntil)]),
                   BindingEvent(RoleAssigned, c.binding, c.identity, c.tenant, now)))
  {
    AssignRoleRefusals(r, maxDepth, now, c);
    if Execute(r, maxDepth, now, c).Ok? { AssignRoleLeaves(r, maxDepth, now, c); }
  }

  lemma AssignRoleLeaves(r: Repositories, maxDepth: nat, now: Time, c: Command)
    requires c.AssignRole? && (forall b :: b in r.bindings ==> b.id != c.binding) && Execute(r, maxDepth, now, c).Ok?
    ensures Leaves(r, Execute(r, maxDepth, now, c),
                   r.(bindings := r.bindings + [RoleBinding(c.binding, c.identity, c.role, c.tenant, c.scope,
                                                            BindingActive, now, c.validUntil)]),
                   BindingEvent(RoleAssigned, c.binding, c.identity, c.tenant, now))
  {
    PutNewBinding(r.bindings, RoleBinding(c.binding, c.identity, c.role, c.tenant, c.scope, BindingActive, now,
                                          c.validUntil));
  }

  /** Why an assignment is refused: the first of these that holds. */
  lemma AssignRoleRefusals(r: Repositories, maxDepth: nat, now: Time, c: Command)
    requires c.AssignRole?
    ensures var o := Execute(r, maxDepth, now, c);
      if c.identity !in r.identities then o == Err(IdentityNotFound)
      else if r.identities[c.identity] != Active then o == Err(InvalidRoleBinding)
      else if c.tenant !in r.tenants then o == Err(TenantNotFound)
      else if r.tenants[c.tenant] != Active then o == Err(TenantInactive)
      else if c.scope != c.tenant then o == Err(TenantMismatched)
      else if !MemberOf(r, c.identity, c.tenant, now) then o == Err(InvalidRoleBinding)
      else if c.role !in r.roles then o == Err(RoleNotFound)
      else if !Usable(r, c.role) then o == Err(RoleInactive)
      else if !r.roles[c.role].assignable then o == Err(RoleNotAssignable)
      else if r.roles[c.role].tenant.Some? && r.roles[c.role].tenant.value != c.tenant then o == Err(RoleTenantMismatch)
      else if r.roles[c.role].sensitive && !c.guarded then o == Err(PrivilegedActionDenied)
      else if !Unbound(r, c, now) then o == Err(RoleBindingAlreadyExists)
      else if !Separated(r, maxDepth, c, now) then o.Err? && o.error.StaticSodViolation?
      else if c.validUntil.Some? && c.validUntil.value <= now then o == Err(InvalidRoleBinding)
      else o.Ok?
  {
    FirstFound(r.memberships, c.identity, c.tenant);
    BoundExact(r, c, now);
    SeparatedExact(r, maxDepth, c, now);
  }

  lemma {:induction false} PutNewBinding(bs: seq<RoleBinding>, b: RoleBinding)
    requires forall x :: x in bs ==> x.id != b.id
    ensures PutBinding(bs, b) == bs + [b]
  {
    if bs != [] {
      PutNewBinding(bs[1..], b);
      assert bs + [b] == [bs[0]] + (bs[1..] + [b]);
    }
  }

  function BoundList(r: Repositories, c: Command, now: Time): seq<RoleBinding>
    requires c.AssignRole?
  {
    ActiveBindings(BindingsOf(r.bindings, c.identity, c.tenant), now)
  }

  function Refusal(r: Repositories, maxDepth: nat, c: Command, now: Time): Option<AssignmentRefusal>
    requires c.AssignRole?
  {
    AssignmentRefused(r.roles, maxDepth, StaticRulesFor(r.staticRules, c.tenant), RolesBound(BoundList(r, c, now)),
                      c.role)
  }

  lemma BoundExact(r: Repositories, c: Command, now: Time)
    requires c.AssignRole?
    ensures forall b :: b in BoundList(r, c, now) <==> Bound(r, c.identity, c.tenant, now, b)
    ensures AlreadyBound(BoundList(r, c, now), c.role, c.scope) <==> !Unbound(r, c, now)
  {
    InBindingsOf(r.bindings, c.identity, c.tenant);
    InActive(BindingsOf(r.bindings, c.identity, c.tenant), now);
    var bs := BoundList(r, c, now);
    if !Unbound(r, c, now) {
      var b :| Bound(r, c.identity, c.tenant, now, b) && b.role == c.role && b.scope == c.scope;
      var k :| 0 <= k < |bs| && bs[k] == b;
    }
  }

  lemma {:induction false} InBindingsOf(bs: seq<RoleBinding>, i: IdentityId, t: TenantId)
    ensures forall b :: b in BindingsOf(bs, i, t) <==> b in bs && b.identity == i && b.tenant == t
  {
    if bs != [] {
      InBindingsOf(bs[1..], i, t);
      assert forall b :: b in bs <==> b == bs[0] || b in bs[1..];
    }
  }

  lemma {:induction false} InActive(bs: seq<RoleBinding>, at: Time)
    ensures forall b :: b in ActiveBindings(bs, at) <==> b in bs && b.IsActive(at)
  {
    if bs != [] {
      InActive(bs[1..], at);
      assert forall b :: b in bs <==> b == bs[0] || b in bs[1..];
    }
  }

  lemma SeparatedExact(r: Repositories, maxDepth: nat, c: Command, now: Time)
    requires c.AssignRole?
    ensures Refusal(r, maxDepth, c, now).None? <==> Separated(r, maxDepth, c, now)
  {
    var bs := BoundList(r, c, now);
    var all := RolesBound(bs) + [c.role];
    BoundExact(r, c, now);
    StaticRulesForMember(r.staticRules, c.tenant);
    AssignmentExact(r.roles, maxDepth, StaticRulesFor(r.staticRules, c.tenant), RolesBound(bs), c.role);
    forall x ensures x in all <==> x == c.role || exists b :: b in bs && b.role == x { BoundMember(bs, x); }
    forall v ensures Inherited(r.roles, all, v) <==> Held(r, c, now, v) { HeldExact(r, c, now, all, v); }
  }

  lemma HeldExact(r: Repositories, c: Command, now: Time, all: seq<RoleId>, v: RoleId)
    requires c.AssignRole?
    requires forall x :: x in all <==> x == c.role || exists b :: Bound(r, c.identity, c.tenant, now, b) && b.role == x
    ensures Inherited(r.roles, all, v) <==> Held(r, c, now, v)
  {
    if Held(r, c, now, v) && !Reaches(r.roles, c.role, v) {
      var b :| Bound(r, c.identity, c.tenant, now, b) && Reaches(r.roles, b.role, v);
      assert b.role in all;
    } else if Held(r, c, now, v) {
      assert c.role in all;
    }
  }
}
