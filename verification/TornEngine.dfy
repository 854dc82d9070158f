/** The authorization engine read by read.  Between two of its reads any service may save, so each read is
made from a state of its own: the tape holds one state of the repositories for each read the engine makes,
in order, and the decision is a function of what was read. */
module TornEngine {
  import opened Prelude
  import opened RoleGraph
  import opened RoleHierarchy
  import opened Governance
  import opened Authorization
  import opened AuthorizationTheorems
  import opened Writes
  import opened KeptAllows

  type Reads = seq<Repositories>

  /** What a piece of the engine comes to, and the reads it leaves; or it needs more of them. */
  datatype Torn<+T> = Starved | Got(value: T, rest: Reads)

  type TornPath = Torn<PathResult>

  type TornWalk = Torn<WalkResult>

  function ReadRole(tape: Reads, id: RoleId): Torn<Option<Role>> {
    if tape == [] then Starved else Got(if id in tape[0].roles then Some(tape[0].roles[id]) else None, tape[1..])
  }

  /** The checks on the parent just read. */
  function EdgeProblem(child: Role, id: RoleId, parent: Option<Role>, nextStack: set<RoleId>): Option<HierarchyError> {
    if parent.None? || !parent.value.status.ActiveRole? then Some(Unavailable)
    else if !EdgeValid(child.tenant, parent.value.tenant) then Some(TenantMismatch)
    else if id in nextStack then Some(Cycle)
    else None
  }

  /** `_find_permission` on the Role object that was read. */
  function FindTorn(maxDepth: nat, perm: PermissionCode, id: RoleId, role: Role, stack: set<RoleId>, depth: nat,
                    tape: Reads): (x: TornPath)
    requires depth <= maxDepth + 1
    ensures x.Got? && x.value.Ok? && x.value.value.Some? ==> x.value.value.value != []
    decreases maxDepth + 1 - depth, 1, 0
  {
    if depth > maxDepth then Got(Err(DepthExceeded), tape)
    else if id in stack then Got(Err(Cycle), tape)
    else if perm in role.permissions then Got(Ok(Some([id])), tape)
    else FindParentsTorn(maxDepth, perm, id, role, Sorted(role.parents), stack + {id}, depth, tape)
  }

  function FindParentsTorn(maxDepth: nat, perm: PermissionCode, id: RoleId, role: Role, ps: seq<RoleId>,
                           nextStack: set<RoleId>, depth: nat, tape: Reads): (x: TornPath)
    requires depth <= maxDepth
    ensures x.Got? && x.value.Ok? && x.value.value.Some? ==> x.value.value.value != []
    decreases maxDepth + 1 - depth, 0, |ps|
  {
    if ps == [] then Got(Ok(None), tape)
    else
      match ReadRole(tape, ps[0])
      case Starved => Starved
      case Got(parent, rest) =>
        match EdgeProblem(role, ps[0], parent, nextStack)
        case Some(e) => Got(Err(e), rest)
        case None =>
          match FindTorn(maxDepth, perm, ps[0], parent.value, nextStack, depth + 1, rest)
          case Starved => Starved
          case Got(Err(e), rest') => Got(Err(e), rest')
          case Got(Ok(Some(path)), rest') => Got(Ok(Some([id] + path)), rest')
          case Got(Ok(None), rest') => FindParentsTorn(maxDepth, perm, id, role, ps[1..], nextStack, depth, rest')
  }

  /** `permission_path`. */
  function PathTorn(maxDepth: nat, root: RoleId, perm: PermissionCode, tape: Reads): TornPath {
    match ReadRole(tape, root)
    case Starved => Starved
    case Got(role, rest) =>
      if role.None? || !role.value.status.ActiveRole? then Got(Err(Unavailable), rest)
      else FindTorn(maxDepth, perm, root, role.value, {}, 0, rest)
  }

  /** `_walk` on the Role object that was read. */
  function WalkTorn(maxDepth: nat, id: RoleId, role: Role, w: Walked, stack: set<RoleId>, depth: nat,
                    tape: Reads): TornWalk
    requires depth <= maxDepth + 1
    decreases maxDepth + 1 - depth, 1, 0
  {
    if depth > maxDepth then Got(Err(DepthExceeded), tape)
    else if id in stack then Got(Err(Cycle), tape)
    else if id in w.visited then Got(Ok(w), tape)
    else
      var w' := Walked(w.resolved + [id], w.visited + {id});
      WalkParentsTorn(maxDepth, id, role, Sorted(role.parents), w', stack + {id}, depth, tape)
  }

  function WalkParentsTorn(maxDepth: nat, id: RoleId, role: Role, ps: seq<RoleId>, w: Walked, nextStack: set<RoleId>,
                           depth: nat, tape: Reads): TornWalk
    requires depth <= maxDepth
    decreases maxDepth + 1 - depth, 0, |ps|
  {
    if ps == [] then Got(Ok(w), tape)
    else
      match ReadRole(tape, ps[0])
      case Starved => Starved
      case Got(parent, rest) =>
        match EdgeProblem(role, ps[0], parent, nextStack)
        case Some(e) => Got(Err(e), rest)
        case None =>
          match WalkTorn(maxDepth, ps[0], parent.value, w, nextStack, depth + 1, rest)
          case Starved => Starved
          case Got(Err(e), rest') => Got(Err(e), rest')
          case Got(Ok(w'), rest') => WalkParentsTorn(maxDepth, id, role, ps[1..], w', nextStack, depth, rest')
  }

  /** `resolve_roles`. */
  function ResolveTorn(maxDepth: nat, root: RoleId, tape: Reads): Torn<Result<seq<RoleId>, HierarchyError>> {
    match ReadRole(tape, root)
    case Starved => Starved
    case Got(role, rest) =>
      if role.None? || !role.value.status.ActiveRole? then Got(Err(Unavailable), rest)
      else
        match WalkTorn(maxDepth, root, role.value, Walked([], {}), {}, 0, rest)
        case Starved => Starved
        case Got(Err(e), rest') => Got(Err(e), rest')
        case Got(Ok(w), rest') => Got(Ok(w.resolved), rest')
  }

  function EffectiveTorn(maxDepth: nat, bound: seq<RoleId>, effective: set<RoleId>, tape: Reads)
    : Torn<Result<set<RoleId>, HierarchyError>>
    decreases |bound|
  {
    if bound == [] then Got(Ok(effective), tape)
    else
      match ResolveTorn(maxDepth, bound[0], tape)
      case Starved => Starved
      case Got(Err(e), rest) => Got(Err(e), rest)
      case Got(Ok(roles), rest) => EffectiveTorn(maxDepth, bound[1..], effective + (set v | v in roles), rest)
  }

  /** `detect_runtime`: the rules are listed once to see whether there are any, and again to be applied. */
  function DetectTorn(maxDepth: nat, tenant: TenantId, bound: seq<RoleId>, tape: Reads): Torn<Option<Violation>> {
    if tape == [] then Starved
    else
      var rules := StaticRulesFor(tape[0].staticRules, tenant);
      if rules == [] then Got(None, tape[1..])
      else
        match EffectiveTorn(maxDepth, bound, {}, tape[1..])
        case Starved => Starved
        case Got(Err(_), rest) => Got(Some(Plain(SodStaticConflict, rules[0].id)), rest)
        case Got(Ok(effective), rest) =>
          if rest == [] then Starved
          else Got(FindConflict(StaticRulesFor(rest[0].staticRules, tenant), effective), rest[1..])
  }

  function GovernanceTorn(maxDepth: nat, q: Request, bound: seq<RoleId>, tape: Reads): Torn<Option<Violation>> {
    match DetectTorn(maxDepth, q.tenant, bound, tape)
    case Starved => Starved
    case Got(Some(v), rest) => Got(Some(v), rest)
    case Got(None, rest) =>
      if rest == [] then Starved
      else
        var dynamic := FirstDynamicViolation(DynamicRulesFor(rest[0].dynamicRules, q.permission, q.tenant), q);
        if dynamic.Some? then Got(dynamic, rest[1..])
        else if |rest| == 1 then Starved
        else Got(FirstConstraintViolation(ConstraintsFor(rest[1].constraints, q.permission, q.tenant), q), rest[2..])
  }

  /** What one binding decides; None when it is passed over. */
  function TryTorn(maxDepth: nat, q: Request, now: Time, m: Membership, bindings: seq<RoleBinding>, b: RoleBinding,
                   tape: Reads): Torn<Option<Decision>>
  {
    match ReadRole(tape, b.role)
    case Starved => Starved
    case Got(role, rest) =>
      if role.None? || !role.value.status.ActiveRole? then
        Got(Some(Deny(q, now, DenyRoleUnavailable, [ByBinding(b.id)])), rest)
      else if role.value.tenant.Some? && role.value.tenant.value != q.tenant then
        Got(Some(Deny(q, now, DenyRoleTenantMismatch, [ByBinding(b.id), ByRole(b.role)])), rest)
      else
        match PathTorn(maxDepth, b.role, q.permission, rest)
        case Starved => Starved
        case Got(Err(e), rest') =>
          Got(Some(Deny(q, now, DenyRoleHierarchyInvalid, [ByBinding(b.id), ByRole(b.role), ByHierarchyError(e)])),
              rest')
        case Got(Ok(None), rest') => Got(None, rest')
        case Got(Ok(Some(path)), rest') =>
          match GovernanceTorn(maxDepth, q, RolesBound(bindings), rest')
          case Starved => Starved
          case Got(Some(v), end) => Got(Some(Objected(q, now, b, v)), end)
          case Got(None, end) => Got(Some(Allow(q, now, m, b, path)), end)
  }

  function Objected(q: Request, now: Time, b: RoleBinding, v: Violation): Decision {
    DenyWith(q, now, ReasonFor(v.kind), [ByBinding(b.id), ByRole(b.role), ByRule(v.rule), ByGovernance(v.kind)],
             Some(v.rule), v.requiredLevel, v.requiredMfa)
  }

  function TriesTorn(maxDepth: nat, q: Request, now: Time, m: Membership, bindings: seq<RoleBinding>,
                     candidates: seq<RoleBinding>, tape: Reads): Torn<Decision>
    decreases |candidates|
  {
    if candidates == [] then Got(Deny(q, now, DenyPermissionNotGranted), tape)
    else
      match TryTorn(maxDepth, q, now, m, bindings, candidates[0], tape)
      case Starved => Starved
      case Got(Some(d), rest) => Got(d, rest)
      case Got(None, rest) => TriesTorn(maxDepth, q, now, m, bindings, candidates[1..], rest)
  }

  /** The bindings and what hangs on them: tape from the fifth on. */
  function BindingsTorn(maxDepth: nat, q: Request, now: Time, m: Membership, tape: Reads): Torn<Decision> {
    if tape == [] then Starved
    else
      var bindings := ActiveBindings(BindingsOf(tape[0].bindings, q.subject, q.tenant), now);
      if bindings == [] then Got(Deny(q, now, DenyNoActiveBinding), tape[1..])
      else if InScope(bindings, q.scope) == [] then Got(Deny(q, now, DenyScopeMismatch), tape[1..])
      else TriesTorn(maxDepth, q, now, m, bindings, SortById(InScope(bindings, q.scope)), tape[1..])
  }

  /** The first four tape: identity, tenant, membership, permission. */
  function AuthorizeTorn(maxDepth: nat, q: Request, now: Time, tape: Reads): Torn<Decision> {
    if tape == [] then Starved
    else if q.subject !in tape[0].identities then Got(Deny(q, now, DenySubjectNotFound), tape[1..])
    else if tape[0].identities[q.subject] != Active then Got(Deny(q, now, DenySubjectInactive), tape[1..])
    else if |tape| == 1 then Starved
    else if q.tenant !in tape[1].tenants then Got(Deny(q, now, DenyTenantNotFound), tape[2..])
    else if tape[1].tenants[q.tenant] != Active then Got(Deny(q, now, DenyTenantInactive), tape[2..])
    else if |tape| == 2 then Starved
    else
      var m := FindMembership(tape[2].memberships, q.subject, q.tenant);
      if m.None? || !m.value.IsActive(now) then Got(Deny(q, now, DenyMembershipNotFound), tape[3..])
      else if |tape| == 3 then Starved
      else if q.permission !in tape[3].permissions then Got(Deny(q, now, DenyPermissionNotRegistered), tape[4..])
      else BindingsTorn(maxDepth, q, now, m.value, tape[4..])
  }

  // ---------------------------------------------------------------- tape that one state keeps

  /** `v` was read, and `cur` keeps what it says about the subject in the tenant. */
  ghost predicate Leads(still: bool, v: Repositories, cur: Repositories, s: IdentityId, t: TenantId) {
    RolesPersist(v.roles, cur.roles) && Keeps(still, View(v, s, t), View(cur, s, t))
  }

  ghost predicate AllLead(still: bool, tape: Reads, cur: Repositories, s: IdentityId, t: TenantId) {
    forall v :: v in tape ==> Leads(still, v, cur, s, t)
  }

  lemma LeadTail(still: bool, tape: Reads, n: nat, cur: Repositories, s: IdentityId, t: TenantId)
    requires AllLead(still, tape, cur, s, t) && n <= |tape|
    ensures AllLead(still, tape[n..], cur, s, t)
    ensures n < |tape| ==> Leads(still, tape[n], cur, s, t)
  {
  }

  /** The Role as it was read stands for the Role as it is. */
  ghost predicate StandsFor(still: bool, role: Option<Role>, cur: Catalog, id: RoleId) {
    && id in cur
    && (still ==> role == Some(cur[id]))
    && (role.Some? && role.value.status.ActiveRole? ==> Alike(role.value, cur[id]))
  }

  /** A Role of the tenant, read from any of the states, stands for what it is now. */
  lemma RoleRead(still: bool, tape: Reads, cur: Repositories, s: IdentityId, t: TenantId, id: RoleId)
    requires AllLead(still, tape, cur, s, t) && id in cur.roles && InTenant(cur.roles[id].tenant, t)
    ensures var x := ReadRole(tape, id);
      x.Got? ==> StandsFor(still, x.value, cur.roles, id) && AllLead(still, x.rest, cur, s, t)
  {
    if tape != [] {
      LeadTail(still, tape, 0, cur, s, t);
      LeadTail(still, tape, 1, cur, s, t);
      assert id in RolesIn(cur.roles, t);
      if still { assert id in View(tape[0], s, t).roles; }
    }
  }

  /** The edge checks on what was read agree with those on what is. */
  lemma EdgeRead(still: bool, cur: Catalog, child: RoleId, role: Role, id: RoleId, parent: Option<Role>,
                 nextStack: set<RoleId>)
    requires child in cur && Alike(role, cur[child]) && StandsFor(still, parent, cur, id)
    ensures still || EdgeProblem(role, id, parent, nextStack).None? ==>
      EdgeProblem(role, id, parent, nextStack) == EdgeError(cur, child, id, nextStack)
    ensures EdgeProblem(role, id, parent, nextStack).None? ==> Alike(parent.value, cur[id])
  {
  }

  /** A result that an ALLOW can rest on, or any result when the tape agree. */
  predicate Telling<T, E>(still: bool, r: Result<T, E>) { still || r.Ok? }

  lemma {:induction false} FindTornExact(still: bool, cur: Repositories, s: IdentityId, t: TenantId, maxDepth: nat,
                                         perm: PermissionCode, id: RoleId, role: Role, stack: set<RoleId>, depth: nat,
                                           tape: Reads)
    requires Sound(cur) && AllLead(still, tape, cur, s, t) && depth <= maxDepth + 1
    requires id in cur.roles && InTenant(cur.roles[id].tenant, t) && Alike(role, cur.roles[id])
    ensures var x := FindTorn(maxDepth, perm, id, role, stack, depth, tape);
      x.Got? ==>
        && AllLead(still, x.rest, cur, s, t)
        && (Telling(still, x.value) ==> x.value == FindPermission(cur.roles, maxDepth, perm, id, stack, depth))
    decreases maxDepth + 1 - depth, 1, 0
  {
    if depth <= maxDepth && id !in stack && perm !in role.permissions {
      FindParentsTornExact(still, cur, s, t, maxDepth, perm, id, role, Sorted(role.parents), stack + {id}, depth, tape);
    }
  }

  lemma {:induction false} FindParentsTornExact(still: bool, cur: Repositories, s: IdentityId, t: TenantId,
                                                maxDepth: nat,
                                                perm: PermissionCode, id: RoleId, role: Role, ps: seq<RoleId>,
                                                nextStack: set<RoleId>, depth: nat, tape: Reads)
    requires Sound(cur) && AllLead(still, tape, cur, s, t) && depth <= maxDepth
    requires id in cur.roles && InTenant(cur.roles[id].tenant, t) && Alike(role, cur.roles[id])
    requires forall p :: p in ps ==> p in role.parents
    ensures var x := FindParentsTorn(maxDepth, perm, id, role, ps, nextStack, depth, tape);
      x.Got? ==>
        && AllLead(still, x.rest, cur, s, t)
        && (Telling(still, x.value) ==> x.value == FindInParents(cur.roles, maxDepth, perm, id, ps, nextStack, depth))
    decreases maxDepth + 1 - depth, 0, |ps|
  {
    if ps != [] && tape != [] {
      var p := ps[0];
      RoleRead(still, tape, cur, s, t, p);
      var Got(parent, rest) := ReadRole(tape, p);
      EdgeRead(still, cur.roles, id, role, p, parent, nextStack);
      if EdgeProblem(role, p, parent, nextStack).None? {
        FindTornExact(still, cur, s, t, maxDepth, perm, p, parent.value, nextStack, depth + 1, rest);
        var f := FindTorn(maxDepth, perm, p, parent.value, nextStack, depth + 1, rest);
        if f.Got? && f.value.Ok? && f.value.value.None? {
          FindParentsTornExact(still, cur, s, t, maxDepth, perm, id, role, ps[1..], nextStack, depth, f.rest);
        }
      }
    }
  }

  lemma {:induction false} WalkTornExact(still: bool, cur: Repositories, s: IdentityId, t: TenantId, maxDepth: nat,
                                         id: RoleId, role: Role, w: Walked, stack: set<RoleId>, depth: nat, tape: Reads)
    requires Sound(cur) && AllLead(still, tape, cur, s, t) && depth <= maxDepth + 1
    requires id in cur.roles && InTenant(cur.roles[id].tenant, t) && Alike(role, cur.roles[id])
    ensures var x := WalkTorn(maxDepth, id, role, w, stack, depth, tape);
      x.Got? ==>
        && AllLead(still, x.rest, cur, s, t)
        && (Telling(still, x.value) ==> x.value == Walk(cur.roles, maxDepth, id, w, stack, depth))
    decreases maxDepth + 1 - depth, 1, 0
  {
    if depth <= maxDepth && id !in stack && id !in w.visited {
      var w' := Walked(w.resolved + [id], w.visited + {id});
      WalkParentsTornExact(still, cur, s, t, maxDepth, id, role, Sorted(role.parents), w', stack + {id}, depth, tape);
    }
  }

  lemma {:induction false} WalkParentsTornExact(still: bool, cur: Repositories, s: IdentityId, t: TenantId,
                                                maxDepth: nat, id: RoleId, role: Role, ps: seq<RoleId>, w: Walked,
                                                  nextStack: set<RoleId>, depth: nat, tape: Reads)
    requires Sound(cur) && AllLead(still, tape, cur, s, t) && depth <= maxDepth
    requires id in cur.roles && InTenant(cur.roles[id].tenant, t) && Alike(role, cur.roles[id])
    requires forall p :: p in ps ==> p in role.parents
    ensures var x := WalkParentsTorn(maxDepth, id, role, ps, w, nextStack, depth, tape);
      x.Got? ==>
        && AllLead(still, x.rest, cur, s, t)
        && (Telling(still, x.value) ==> x.value == WalkParents(cur.roles, maxDepth, id, ps, w, nextStack, depth))
    decreases maxDepth + 1 - depth, 0, |ps|
  {
    if ps != [] && tape != [] {
      var p := ps[0];
      RoleRead(still, tape, cur, s, t, p);
      var Got(parent, rest) := ReadRole(tape, p);
      EdgeRead(still, cur.roles, id, role, p, parent, nextStack);
      if EdgeProblem(role, p, parent, nextStack).None? {
        WalkTornExact(still, cur, s, t, maxDepth, p, parent.value, w, nextStack, depth + 1, rest);
        var f := WalkTorn(maxDepth, p, parent.value, w, nextStack, depth + 1, rest);
        if f.Got? && f.value.Ok? {
          WalkParentsTornExact(still, cur, s, t, maxDepth, id, role, ps[1..], f.value.value, nextStack, depth, f.rest);
        }
      }
    }
  }

  lemma PathTornExact(still: bool, cur: Repositories, s: IdentityId, t: TenantId, maxDepth: nat, root: RoleId,
                      perm: PermissionCode, tape: Reads)
    requires Sound(cur) && AllLead(still, tape, cur, s, t) && root in RolesIn(cur.roles, t)
    ensures var x := PathTorn(maxDepth, root, perm, tape);
      x.Got? ==>
        && AllLead(still, x.rest, cur, s, t)
        && (Telling(still, x.value) ==> x.value == PermissionPath(cur.roles, maxDepth, root, perm))
  {
    RoleRead(still, tape, cur, s, t, root);
    var x := ReadRole(tape, root);
    if x.Got? && x.value.Some? && x.value.value.status.ActiveRole? {
      FindTornExact(still, cur, s, t, maxDepth, perm, root, x.value.value, {}, 0, x.rest);
    }
  }

  lemma ResolveTornExact(still: bool, cur: Repositories, s: IdentityId, t: TenantId, maxDepth: nat, root: RoleId,
                         tape: Reads)
    requires Sound(cur) && AllLead(still, tape, cur, s, t) && root in RolesIn(cur.roles, t)
    ensures var x := ResolveTorn(maxDepth, root, tape);
      x.Got? ==>
        && AllLead(still, x.rest, cur, s, t)
        && (Telling(still, x.value) ==> x.value == ResolveRoles(cur.roles, maxDepth, root))
  {
    RoleRead(still, tape, cur, s, t, root);
    var x := ReadRole(tape, root);
    if x.Got? && x.value.Some? && x.value.value.status.ActiveRole? {
      WalkTornExact(still, cur, s, t, maxDepth, root, x.value.value, Walked([], {}), {}, 0, x.rest);
    }
  }

  lemma {:induction false} EffectiveTornExact(still: bool, cur: Repositories, s: IdentityId, t: TenantId, maxDepth: nat,
                                              bound: seq<RoleId>, effective: set<RoleId>, tape: Reads)
    requires Sound(cur) && AllLead(still, tape, cur, s, t) && forall b :: b in bound ==> b in RolesIn(cur.roles, t)
    ensures var x := EffectiveTorn(maxDepth, bound, effective, tape);
      x.Got? ==>
        && AllLead(still, x.rest, cur, s, t)
        && (Telling(still, x.value) ==> x.value == EffectiveRoleIds(cur.roles, maxDepth, bound, effective))
    decreases |bound|
  {
    if bound != [] {
      ResolveTornExact(still, cur, s, t, maxDepth, bound[0], tape);
      var x := ResolveTorn(maxDepth, bound[0], tape);
      if x.Got? && x.value.Ok? {
        EffectiveTornExact(still, cur, s, t, maxDepth, bound[1..], effective + (set v | v in x.value.value), x.rest);
      }
    }
  }

  /** The rule lists as they were read are the rule lists as they are. */
  lemma RulesRead(still: bool, v: Repositories, cur: Repositories, q: Request)
    requires Leads(still, v, cur, q.subject, q.tenant)
    ensures StaticRulesFor(v.staticRules, q.tenant) == StaticRulesFor(cur.staticRules, q.tenant)
    ensures DynamicRulesFor(v.dynamicRules, q.permission, q.tenant)
      == DynamicRulesFor(cur.dynamicRules, q.permission, q.tenant)
    ensures ConstraintsFor(v.constraints, q.permission, q.tenant)
      == ConstraintsFor(cur.constraints, q.permission, q.tenant)
  {
    DynamicNarrow(v.dynamicRules, q.permission, q.tenant);
    DynamicNarrow(cur.dynamicRules, q.permission, q.tenant);
    ConstraintsNarrow(v.constraints, q.permission, q.tenant);
    ConstraintsNarrow(cur.constraints, q.permission, q.tenant);
  }

  lemma NextRules(still: bool, tape: Reads, cur: Repositories, q: Request)
    requires AllLead(still, tape, cur, q.subject, q.tenant)
    ensures tape != [] ==>
      && AllLead(still, tape[1..], cur, q.subject, q.tenant)
      && StaticRulesFor(tape[0].staticRules, q.tenant) == StaticRulesFor(cur.staticRules, q.tenant)
  {
    if tape != [] {
      LeadTail(still, tape, 0, cur, q.subject, q.tenant);
      LeadTail(still, tape, 1, cur, q.subject, q.tenant);
      RulesRead(still, tape[0], cur, q);
    }
  }

  lemma DetectTornExact(still: bool, cur: Repositories, maxDepth: nat, q: Request, bound: seq<RoleId>, tape: Reads)
    requires Sound(cur) && AllLead(still, tape, cur, q.subject, q.tenant)
    requires forall b :: b in bound ==> b in RolesIn(cur.roles, q.tenant)
    ensures var x := DetectTorn(maxDepth, q.tenant, bound, tape);
      x.Got? ==>
        && AllLead(still, x.rest, cur, q.subject, q.tenant)
        && (still || x.value.None? ==>
              x.value == DetectRuntime(cur.roles, maxDepth, StaticRulesFor(cur.staticRules, q.tenant), bound))
  {
    NextRules(still, tape, cur, q);
    if tape != [] {
      EffectiveTornExact(still, cur, q.subject, q.tenant, maxDepth, bound, {}, tape[1..]);
      var x := EffectiveTorn(maxDepth, bound, {}, tape[1..]);
      if x.Got? { NextRules(still, x.rest, cur, q); }
    }
  }

  lemma GovernanceTornExact(still: bool, cur: Repositories, maxDepth: nat, q: Request, bindings: seq<RoleBinding>,
                            tape: Reads)
    requires Sound(cur) && AllLead(still, tape, cur, q.subject, q.tenant)
    requires forall b :: b in bindings ==> b.role in RolesIn(cur.roles, q.tenant)
    ensures var x := GovernanceTorn(maxDepth, q, RolesBound(bindings), tape);
      x.Got? ==>
        && AllLead(still, x.rest, cur, q.subject, q.tenant)
        && (still || x.value.None? ==> x.value == EvaluateGovernance(cur, maxDepth, q, bindings))
  {
    DetectTornExact(still, cur, maxDepth, q, RolesBound(bindings), tape);
    var x := DetectTorn(maxDepth, q.tenant, RolesBound(bindings), tape);
    if x.Got? && x.value.None? && x.rest != [] {
      LeadTail(still, x.rest, 0, cur, q.subject, q.tenant);
      LeadTail(still, x.rest, 1, cur, q.subject, q.tenant);
      RulesRead(still, x.rest[0], cur, q);
      if |x.rest| > 1 {
        LeadTail(still, x.rest, 2, cur, q.subject, q.tenant);
        RulesRead(still, x.rest[1], cur, q);
      }
    }
  }

  /** A decision that the tape settle: any, when they agree; otherwise a pass or an ALLOW. */
  predicate Settled(still: bool, d: Option<Decision>) { still || d.None? || d.value.allowed }

  lemma TryTornExact(still: bool, cur: Repositories, maxDepth: nat, q: Request, now: Time, m: Membership,
                     bindings: seq<RoleBinding>, b: RoleBinding, tape: Reads)
    requires Sound(cur) && AllLead(still, tape, cur, q.subject, q.tenant) && b.role in RolesIn(cur.roles, q.tenant)
    requires forall e :: e in bindings ==> e.role in RolesIn(cur.roles, q.tenant)
    ensures var x := TryTorn(maxDepth, q, now, m, bindings, b, tape);
      x.Got? ==>
        && AllLead(still, x.rest, cur, q.subject, q.tenant)
        && (Settled(still, x.value) ==> x.value == TryBinding(cur, maxDepth, q, now, m, bindings, b))
  {
    RoleRead(still, tape, cur, q.subject, q.tenant, b.role);
    var x := ReadRole(tape, b.role);
    if x.Got? {
      PathTornExact(still, cur, q.subject, q.tenant, maxDepth, b.role, q.permission, x.rest);
      FoundPathNotEmpty(cur.roles, maxDepth, b.role, q.permission);
      var p := PathTorn(maxDepth, b.role, q.permission, x.rest);
      if p.Got? { GovernanceTornExact(still, cur, maxDepth, q, bindings, p.rest); }
    }
  }

  lemma FoundPathNotEmpty(c: Catalog, maxDepth: nat, root: RoleId, perm: PermissionCode)
    ensures PermissionPath(c, maxDepth, root, perm).Ok? && PermissionPath(c, maxDepth, root, perm).value.Some? ==>
      PermissionPath(c, maxDepth, root, perm).value.value != []
  {
    PathAgreesWithClosure(c, maxDepth, root, perm);
  }

  lemma {:induction false} TriesTornExact(still: bool, cur: Repositories, maxDepth: nat, q: Request, now: Time,
                                          m: Membership,
                                          bindings: seq<RoleBinding>, candidates: seq<RoleBinding>, tape: Reads)
    requires Sound(cur) && AllLead(still, tape, cur, q.subject, q.tenant)
    requires forall e :: e in bindings || e in candidates ==> e.role in RolesIn(cur.roles, q.tenant)
    ensures var x := TriesTorn(maxDepth, q, now, m, bindings, candidates, tape);
      x.Got? && (still || x.value.allowed) ==> x.value == TryBindings(cur, maxDepth, q, now, m, bindings, candidates)
    decreases |candidates|
  {
    if candidates != [] {
      TryTornExact(still, cur, maxDepth, q, now, m, bindings, candidates[0], tape);
      var x := TryTorn(maxDepth, q, now, m, bindings, candidates[0], tape);
      if x.Got? && x.value.None? { TriesTornExact(still, cur, maxDepth, q, now, m, bindings, candidates[1..], x.rest); }
    }
  }

  lemma {:induction false} BindingsTornExact(still: bool, cur: Repositories, maxDepth: nat, q: Request, now: Time,
                                             m: Membership, tape: Reads)
    requires Sound(cur) && AllLead(still, tape, cur, q.subject, q.tenant)
    ensures var x := BindingsTorn(maxDepth, q, now, m, tape);
      var bs := Current(cur, q, now);
      x.Got? && (still || x.value.allowed) ==>
        x.value == (if bs == [] then Deny(q, now, DenyNoActiveBinding)
                    else if InScope(bs, q.scope) == [] then Deny(q, now, DenyScopeMismatch)
                    else TryBindings(cur, maxDepth, q, now, m, bs, SortById(InScope(bs, q.scope))))
  {
    if tape != [] {
      LeadTail(still, tape, 0, cur, q.subject, q.tenant);
      LeadTail(still, tape, 1, cur, q.subject, q.tenant);
      assert BindingsOf(tape[0].bindings, q.subject, q.tenant) == BindingsOf(cur.bindings, q.subject, q.tenant);
      CurrentInView(cur, q, now);
      var bs := Current(cur, q, now);
      TriesTornExact(still, cur, maxDepth, q, now, m, bs, SortById(InScope(bs, q.scope)), tape[1..]);
    }
  }

  /** The four single tape as they were made and as they would be made now. */
  lemma FirstReads(still: bool, cur: Repositories, q: Request, tape: Reads)
    requires AllLead(still, tape, cur, q.subject, q.tenant)
    ensures |tape| > 0 ==>
      && (still ==> (q.subject in cur.identities <==> q.subject in tape[0].identities))
      && (still && q.subject in cur.identities ==> cur.identities[q.subject] == tape[0].identities[q.subject])
      && (q.subject in tape[0].identities && tape[0].identities[q.subject] == Active ==>
            q.subject in cur.identities && cur.identities[q.subject] == Active)
    ensures |tape| > 1 ==>
      && (q.tenant in tape[1].tenants <==> q.tenant in cur.tenants)
      && (q.tenant in cur.tenants ==> tape[1].tenants[q.tenant] == cur.tenants[q.tenant])
    ensures |tape| > 2 ==>
      FindMembership(tape[2].memberships, q.subject, q.tenant) == FindMembership(cur.memberships, q.subject, q.tenant)
    ensures |tape| > 3 ==> tape[3].permissions == cur.permissions
  {
    if |tape| > 0 { IdentityRead(still, tape[0], cur, q); }
    if |tape| > 1 { OtherRead(still, tape[1], cur, q); }
    if |tape| > 2 { OtherRead(still, tape[2], cur, q); }
    if |tape| > 3 { OtherRead(still, tape[3], cur, q); }
  }

  lemma IdentityRead(still: bool, v: Repositories, cur: Repositories, q: Request)
    requires Leads(still, v, cur, q.subject, q.tenant)
    ensures still ==> (q.subject in cur.identities <==> q.subject in v.identities)
    ensures still && q.subject in cur.identities ==> cur.identities[q.subject] == v.identities[q.subject]
    ensures q.subject in v.identities && v.identities[q.subject] == Active ==>
      q.subject in cur.identities && cur.identities[q.subject] == Active
  {
    var a, b := View(v, q.subject, q.tenant).identities, View(cur, q.subject, q.tenant).identities;
    assert q.subject in a <==> q.subject in v.identities;
    assert q.subject in b <==> q.subject in cur.identities;
  }

  lemma OtherRead(still: bool, v: Repositories, cur: Repositories, q: Request)
    requires Leads(still, v, cur, q.subject, q.tenant)
    ensures q.tenant in v.tenants <==> q.tenant in cur.tenants
    ensures q.tenant in cur.tenants ==> v.tenants[q.tenant] == cur.tenants[q.tenant]
    ensures FindMembership(v.memberships, q.subject, q.tenant) == FindMembership(cur.memberships, q.subject, q.tenant)
    ensures v.permissions == cur.permissions
  {
    var a, b := View(v, q.subject, q.tenant), View(cur, q.subject, q.tenant);
    assert a.tenants == b.tenants && a.memberships == b.memberships;
    assert q.tenant in a.tenants <==> q.tenant in v.tenants;
    assert q.tenant in b.tenants <==> q.tenant in cur.tenants;
  }

  /** Whatever states the tape were made from, if `cur` keeps them all, an ALLOW that came of them is
  the ALLOW of `cur`; and if they all agree with it, so is every decision. */
  lemma TornIsCurrent(still: bool, cur: Repositories, maxDepth: nat, q: Request, now: Time, tape: Reads)
    requires Sound(cur) && AllLead(still, tape, cur, q.subject, q.tenant)
    ensures var x := AuthorizeTorn(maxDepth, q, now, tape);
      x.Got? && (still || x.value.allowed) ==> x.value == Authorize(cur, maxDepth, q, now)
  {
    FirstReads(still, cur, q, tape);
    var m := FindMembership(cur.memberships, q.subject, q.tenant);
    if |tape| > 3 && m.Some? {
      LeadTail(still, tape, 4, cur, q.subject, q.tenant);
      BindingsTornExact(still, cur, maxDepth, q, now, m.value, tape[4..]);
    }
  }

  // ---------------------------------------------------------------- an undisturbed evaluation

  /** Every read was made from `r`. */
  predicate AllFrom(fed: Reads, r: Repositories) {
    forall i :: 0 <= i < |fed| ==> fed[i] == r
  }

  lemma Feed(r: Repositories, fed: Reads, tape: Reads)
    ensures ([r] + fed + tape)[0] == r && ([r] + fed + tape)[1..] == fed + tape
    ensures [r] + fed + tape != []
  {
  }

  lemma Refeed(a: Reads, b: Reads, tape: Reads)
    ensures a + b + tape == a + (b + tape)
    ensures [] + tape == tape
  {
  }

  /** Fed from one state, the search comes to an answer and leaves the reads it does not need. */
  lemma {:induction false} FindFed(r: Repositories, maxDepth: nat, perm: PermissionCode, id: RoleId, role: Role,
                                   stack: set<RoleId>, depth: nat) returns (fed: Reads, v: PathResult)
    requires depth <= maxDepth + 1
    ensures AllFrom(fed, r)
    ensures forall tape: Reads :: FindTorn(maxDepth, perm, id, role, stack, depth, fed + tape) == Got(v, tape)
    decreases maxDepth + 1 - depth, 1, 0
  {
    if depth <= maxDepth && id !in stack && perm !in role.permissions {
      fed, v := FindParentsFed(r, maxDepth, perm, id, role, Sorted(role.parents), stack + {id}, depth);
    } else {
      fed := [];
      v := if depth > maxDepth then Err(DepthExceeded) else if id in stack then Err(Cycle) else Ok(Some([id]));
      forall tape: Reads ensures [] + tape == tape { Refeed([], [], tape); }
    }
  }

  lemma {:induction false} FindParentsFed(r: Repositories, maxDepth: nat, perm: PermissionCode, id: RoleId, role: Role,
                                          ps: seq<RoleId>, nextStack: set<RoleId>, depth: nat)
    returns (fed: Reads, v: PathResult)
    requires depth <= maxDepth
    ensures AllFrom(fed, r)
    ensures forall tape: Reads ::
      FindParentsTorn(maxDepth, perm, id, role, ps, nextStack, depth, fed + tape) == Got(v, tape)
    decreases maxDepth + 1 - depth, 0, |ps|
  {
    if ps == [] {
      fed, v := [], Ok(None);
      forall tape: Reads ensures [] + tape == tape { Refeed([], [], tape); }
    } else {
      var p := ps[0];
      var parent := if p in r.roles then Some(r.roles[p]) else None;
      var problem := EdgeProblem(role, p, parent, nextStack);
      var first: Reads, second: Reads := [], [];
      if problem.Some? {
        v := Err(problem.value);
      } else {
        var w;
        first, w := FindFed(r, maxDepth, perm, p, parent.value, nextStack, depth + 1);
        v := match w case Err(e) => Err(e) case Ok(Some(path)) => Ok(Some([id] + path)) case Ok(None) => Ok(None);
        if w == Ok(None) { second, v := FindParentsFed(r, maxDepth, perm, id, role, ps[1..], nextStack, depth); }
      }
      fed := [r] + (first + second);
      forall tape: Reads
        ensures FindParentsTorn(maxDepth, perm, id, role, ps, nextStack, depth, fed + tape) == Got(v, tape)
      {
        Feed(r, first + second, tape);
        Refeed(first, second, tape);
      }
    }
  }

  lemma {:induction false} WalkFed(r: Repositories, maxDepth: nat, id: RoleId, role: Role, w: Walked,
                                   stack: set<RoleId>, depth: nat) returns (fed: Reads, v: WalkResult)
    requires depth <= maxDepth + 1
    ensures AllFrom(fed, r)
    ensures forall tape: Reads :: WalkTorn(maxDepth, id, role, w, stack, depth, fed + tape) == Got(v, tape)
    decreases maxDepth + 1 - depth, 1, 0
  {
    if depth <= maxDepth && id !in stack && id !in w.visited {
      var w' := Walked(w.resolved + [id], w.visited + {id});
      fed, v := WalkParentsFed(r, maxDepth, id, role, Sorted(role.parents), w', stack + {id}, depth);
    } else {
      fed := [];
      v := if depth > maxDepth then Err(DepthExceeded) else if id in stack then Err(Cycle) else Ok(w);
      forall tape: Reads ensures [] + tape == tape { Refeed([], [], tape); }
    }
  }

  lemma {:induction false} WalkParentsFed(r: Repositories, maxDepth: nat, id: RoleId, role: Role, ps: seq<RoleId>,
                                          w: Walked, nextStack: set<RoleId>, depth: nat)
    returns (fed: Reads, v: WalkResult)
    requires depth <= maxDepth
    ensures AllFrom(fed, r)
    ensures forall tape: Reads ::
      WalkParentsTorn(maxDepth, id, role, ps, w, nextStack, depth, fed + tape) == Got(v, tape)
    decreases maxDepth + 1 - depth, 0, |ps|
  {
    if ps == [] {
      fed, v := [], Ok(w);
      forall tape: Reads ensures [] + tape == tape { Refeed([], [], tape); }
    } else {
      var p := ps[0];
      var parent := if p in r.roles then Some(r.roles[p]) else None;
      var problem := EdgeProblem(role, p, parent, nextStack);
      var first: Reads, second: Reads := [], [];
      if problem.Some? {
        v := Err(problem.value);
      } else {
        first, v := WalkFed(r, maxDepth, p, parent.value, w, nextStack, depth + 1);
        if v.Ok? { second, v := WalkParentsFed(r, maxDepth, id, role, ps[1..], v.value, nextStack, depth); }
      }
      fed := [r] + (first + second);
      forall tape: Reads
        ensures WalkParentsTorn(maxDepth, id, role, ps, w, nextStack, depth, fed + tape) == Got(v, tape)
      {
        Feed(r, first + second, tape);
        Refeed(first, second, tape);
        Refeed([], second, tape);
        assert ReadRole(fed + tape, p) == Got(parent, first + (second + tape));
      }
    }
  }

  lemma PathFed(r: Repositories, maxDepth: nat, root: RoleId, perm: PermissionCode) returns (fed: Reads, v: PathResult)
    ensures AllFrom(fed, r)
    ensures forall tape: Reads :: PathTorn(maxDepth, root, perm, fed + tape) == Got(v, tape)
  {
    var more: Reads := [];
    v := Err(Unavailable);
    if Available(r.roles, root) { more, v := FindFed(r, maxDepth, perm, root, r.roles[root], {}, 0); }
    fed := [r] + more;
    forall tape: Reads
      ensures PathTorn(maxDepth, root, perm, fed + tape) == Got(v, tape)
    {
      Feed(r, more, tape);
      Refeed(more, [], tape);
    }
  }

  lemma ResolveFed(r: Repositories, maxDepth: nat, root: RoleId)
    returns (fed: Reads, v: Result<seq<RoleId>, HierarchyError>)
    ensures AllFrom(fed, r)
    ensures forall tape: Reads :: ResolveTorn(maxDepth, root, fed + tape) == Got(v, tape)
  {
    var more: Reads := [];
    v := Err(Unavailable);
    if Available(r.roles, root) {
      var w;
      more, w := WalkFed(r, maxDepth, root, r.roles[root], Walked([], {}), {}, 0);
      v := match w case Err(e) => Err(e) case Ok(walked) => Ok(walked.resolved);
    }
    fed := [r] + more;
    forall tape: Reads
      ensures ResolveTorn(maxDepth, root, fed + tape) == Got(v, tape)
    {
      Feed(r, more, tape);
      Refeed(more, [], tape);
    }
  }

  lemma {:induction false} EffectiveFed(r: Repositories, maxDepth: nat, bound: seq<RoleId>, effective: set<RoleId>)
    returns (fed: Reads, v: Result<set<RoleId>, HierarchyError>)
    ensures AllFrom(fed, r)
    ensures forall tape: Reads :: EffectiveTorn(maxDepth, bound, effective, fed + tape) == Got(v, tape)
    decreases |bound|
  {
    if bound == [] {
      fed, v := [], Ok(effective);
      forall tape: Reads ensures [] + tape == tape { Refeed([], [], tape); }
    } else {
      var first, roles := ResolveFed(r, maxDepth, bound[0]);
      var second: Reads := [];
      if roles.Ok? {
        second, v := EffectiveFed(r, maxDepth, bound[1..], effective + set x | x in roles.value);
      } else {
        v := Err(roles.error);
      }
      fed := first + second;
      forall tape: Reads
        ensures EffectiveTorn(maxDepth, bound, effective, fed + tape) == Got(v, tape)
      {
        Refeed(first, second, tape);
        Refeed([], [], tape);
      }
    }
  }

  lemma DetectFed(r: Repositories, maxDepth: nat, tenant: TenantId, bound: seq<RoleId>)
    returns (fed: Reads, v: Option<Violation>)
    ensures AllFrom(fed, r)
    ensures forall tape: Reads :: DetectTorn(maxDepth, tenant, bound, fed + tape) == Got(v, tape)
  {
    var rules := StaticRulesFor(r.staticRules, tenant);
    var first: Reads, last: Reads := [], [];
    v := None;
    if rules != [] {
      var effective;
      first, effective := EffectiveFed(r, maxDepth, bound, {});
      if effective.Ok? {
        last := [r];
        v := FindConflict(rules, effective.value);
      } else {
        v := Some(Plain(SodStaticConflict, rules[0].id));
      }
    }
    fed := [r] + (first + last);
    forall tape: Reads
      ensures DetectTorn(maxDepth, tenant, bound, fed + tape) == Got(v, tape)
    {
      Feed(r, first + last, tape);
      Refeed(first, last, tape);
      Refeed([], [], tape);
      assert ([r] + tape)[1..] == tape;
    }
  }

  lemma GovernanceFed(r: Repositories, maxDepth: nat, q: Request, bound: seq<RoleId>)
    returns (fed: Reads, v: Option<Violation>)
    ensures AllFrom(fed, r)
    ensures forall tape: Reads :: GovernanceTorn(maxDepth, q, bound, fed + tape) == Got(v, tape)
  {
    var first;
    first, v := DetectFed(r, maxDepth, q.tenant, bound);
    var last: Reads := [];
    if v.None? {
      v := FirstDynamicViolation(DynamicRulesFor(r.dynamicRules, q.permission, q.tenant), q);
      last := [r];
      if v.None? {
        last := [r, r];
        v := FirstConstraintViolation(ConstraintsFor(r.constraints, q.permission, q.tenant), q);
      }
    }
    fed := first + last;
    forall tape: Reads
      ensures GovernanceTorn(maxDepth, q, bound, fed + tape) == Got(v, tape)
    {
      Refeed(first, last, tape);
      Refeed([], [], tape);
      assert ([r] + tape)[1..] == tape && ([r, r] + tape)[2..] == tape;
    }
  }

  lemma TryFed(r: Repositories, maxDepth: nat, q: Request, now: Time, m: Membership, bindings: seq<RoleBinding>,
               b: RoleBinding)
    returns (fed: Reads, v: Option<Decision>)
    ensures AllFrom(fed, r)
    ensures forall tape: Reads :: TryTorn(maxDepth, q, now, m, bindings, b, fed + tape) == Got(v, tape)
  {
    var first: Reads, second: Reads := [], [];
    if !Available(r.roles, b.role) || (r.roles[b.role].tenant.Some? && r.roles[b.role].tenant.value != q.tenant) {
      v := Some(if !Available(r.roles, b.role) then Deny(q, now, DenyRoleUnavailable, [ByBinding(b.id)])
                else Deny(q, now, DenyRoleTenantMismatch, [ByBinding(b.id), ByRole(b.role)]));
    } else {
      var path;
      first, path := PathFed(r, maxDepth, b.role, q.permission);
      assert PathTorn(maxDepth, b.role, q.permission, first + []) == Got(path, []);
      if path.Ok? && path.value.Some? {
        var violation;
        second, violation := GovernanceFed(r, maxDepth, q, RolesBound(bindings));
        v :=
          Some(if violation.Some? then Objected(q, now, b, violation.value) else Allow(q, now, m, b, path.value.value));
      } else {
        v := if path.Ok? then None
             else Some(Deny(q, now, DenyRoleHierarchyInvalid,
                            [ByBinding(b.id), ByRole(b.role), ByHierarchyError(path.error)]));
      }
    }
    fed := [r] + (first + second);
    forall tape: Reads
      ensures TryTorn(maxDepth, q, now, m, bindings, b, fed + tape) == Got(v, tape)
    {
      Feed(r, first + second, tape);
      Refeed(first, second, tape);
      Refeed([], [], tape);
    }
  }

  lemma {:induction false} TriesFed(r: Repositories, maxDepth: nat, q: Request, now: Time, m: Membership,
                                    bindings: seq<RoleBinding>, candidates: seq<RoleBinding>)
    returns (fed: Reads, v: Decision)
    ensures AllFrom(fed, r)
    ensures forall tape: Reads :: TriesTorn(maxDepth, q, now, m, bindings, candidates, fed + tape) == Got(v, tape)
    decreases |candidates|
  {
    if candidates == [] {
      fed, v := [], Deny(q, now, DenyPermissionNotGranted);
      forall tape: Reads ensures [] + tape == tape { Refeed([], [], tape); }
    } else {
      var first, d := TryFed(r, maxDepth, q, now, m, bindings, candidates[0]);
      var second: Reads := [];
      if d.Some? { v := d.value; } else { second, v := TriesFed(r, maxDepth, q, now, m, bindings, candidates[1..]); }
      fed := first + second;
      forall tape: Reads
        ensures TriesTorn(maxDepth, q, now, m, bindings, candidates, fed + tape) == Got(v, tape)
      {
        Refeed(first, second, tape);
        Refeed([], [], tape);
      }
    }
  }

  lemma BindingsFed(r: Repositories, maxDepth: nat, q: Request, now: Time, m: Membership)
    returns (fed: Reads, v: Decision)
    ensures AllFrom(fed, r) && BindingsTorn(maxDepth, q, now, m, fed) == Got(v, [])
  {
    var bs := Current(r, q, now);
    var more: Reads := [];
    if bs == [] || InScope(bs, q.scope) == [] {
      v := Deny(q, now, if bs == [] then DenyNoActiveBinding else DenyScopeMismatch);
    } else {
      more, v := TriesFed(r, maxDepth, q, now, m, bs, SortById(InScope(bs, q.scope)));
      assert TriesTorn(maxDepth, q, now, m, bs, SortById(InScope(bs, q.scope)), more + []) == Got(v, []);
      assert more + [] == more;
    }
    fed := [r] + more;
    assert fed[1..] == more;
  }

  /** An evaluation that nothing disturbs needs some number of reads, and makes of them the engine's decision. */
  lemma Undisturbed(r: Repositories, maxDepth: nat, q: Request, now: Time) returns (fed: Reads)
    requires Sound(r)
    ensures AllFrom(fed, r) && AuthorizeTorn(maxDepth, q, now, fed) == Got(Authorize(r, maxDepth, q, now), [])
  {
    var m := FindMembership(r.memberships, q.subject, q.tenant);
    if q.subject !in r.identities || r.identities[q.subject] != Active {
      fed := [r];
    } else if q.tenant !in r.tenants || r.tenants[q.tenant] != Active {
      fed := [r, r];
    } else if m.None? || !m.value.IsActive(now) {
      fed := [r, r, r];
    } else if q.permission !in r.permissions {
      fed := [r, r, r, r];
    } else {
      var more, v := BindingsFed(r, maxDepth, q, now, m.value);
      fed := [r, r, r, r] + more;
      assert fed[4..] == more;
    }
    assert AuthorizeTorn(maxDepth, q, now, fed).Got?;
    forall v | v in fed
      ensures Leads(true, v, r, q.subject, q.tenant)
    {
      KeepsSelf(true, View(r, q.subject, q.tenant));
    }
    TornIsCurrent(true, r, maxDepth, q, now, fed);
  }
}
