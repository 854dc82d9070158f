/** The three depth-first searches of the Role hierarchy resolver, as functions of the catalog.
`Walk` resolves inherited Roles (visited Roles are not entered again), `FindPermission` looks
for the first Role on a path that holds a permission (nothing is remembered between branches),
`Collect` gathers ancestors.  `stack` holds the Roles being expanded. */
module RoleHierarchy {
  import opened Prelude
  import opened RoleGraph

  datatype HierarchyError = Cycle | TenantMismatch | Unavailable | DepthExceeded

  /** What the resolving walk accumulates: the Roles in discovery order, and their identifiers. */
  datatype Walked = Walked(resolved: seq<RoleId>, visited: set<RoleId>)

  type WalkResult = Result<Walked, HierarchyError>
  type PathResult = Result<Option<seq<RoleId>>, HierarchyError>
  type AncestorResult = Result<set<RoleId>, HierarchyError>

  /** The checks every search makes on an edge before it follows it. */
  function EdgeError(c: Catalog, child: RoleId, parent: RoleId, nextStack: set<RoleId>): Option<HierarchyError>
    requires child in c
  {
    if !Available(c, parent) then Some(Unavailable)
    else if !EdgeValid(c[child].tenant, c[parent].tenant) then Some(TenantMismatch)
    else if parent in nextStack then Some(Cycle)
    else None
  }

  function Walk(c: Catalog, maxDepth: nat, r: RoleId, w: Walked, stack: set<RoleId>, depth: nat): WalkResult
    requires r in c
    decreases |c.Keys - stack|, 1, 0
  {
    if depth > maxDepth then Err(DepthExceeded)
    else if r in stack then Err(Cycle)
    else if r in w.visited then Ok(w)
    else
      StackGrows(c, r, stack);
      WalkParents(c, maxDepth, r, Sorted(c[r].parents), Walked(w.resolved + [r], w.visited + {r}), stack + {r}, depth)
  }

  function WalkParents(c: Catalog, maxDepth: nat, child: RoleId, ps: seq<RoleId>, w: Walked,
                       nextStack: set<RoleId>, depth: nat): WalkResult
    requires child in c
    decreases |c.Keys - nextStack|, 2, |ps|
  {
    if ps == [] then Ok(w)
    else
      match EdgeError(c, child, ps[0], nextStack)
      case Some(e) => Err(e)
      case None =>
        match Walk(c, maxDepth, ps[0], w, nextStack, depth + 1)
        case Err(e) => Err(e)
        case Ok(w') => WalkParents(c, maxDepth, child, ps[1..], w', nextStack, depth)
  }

  /** `resolve_roles`. */
  function ResolveRoles(c: Catalog, maxDepth: nat, root: RoleId): Result<seq<RoleId>, HierarchyError> {
    if !Available(c, root) then Err(Unavailable)
    else
      match Walk(c, maxDepth, root, Walked([], {}), {}, 0)
      case Err(e) => Err(e)
      case Ok(w) => Ok(w.resolved)
  }

  function PermissionsOf(c: Catalog, roles: seq<RoleId>): set<PermissionCode> {
    if roles == [] then {} else
      (if roles[0] in c then c[roles[0]].permissions else {}) + PermissionsOf(c, roles[1..])
  }

  /** `effective_permissions`. */
  function EffectivePermissions(c: Catalog, maxDepth: nat, root: RoleId): Result<set<PermissionCode>, HierarchyError> {
    match ResolveRoles(c, maxDepth, root)
    case Err(e) => Err(e)
    case Ok(roles) => Ok(PermissionsOf(c, roles))
  }

  function FindPermission(c: Catalog, maxDepth: nat, perm: PermissionCode, r: RoleId, stack: set<RoleId>,
                          depth: nat): PathResult
    requires r in c
    decreases |c.Keys - stack|, 1, 0
  {
    if depth > maxDepth then Err(DepthExceeded)
    else if r in stack then Err(Cycle)
    else if perm in c[r].permissions then Ok(Some([r]))
    else
      StackGrows(c, r, stack);
      FindInParents(c, maxDepth, perm, r, Sorted(c[r].parents), stack + {r}, depth)
  }

  function FindInParents(c: Catalog, maxDepth: nat, perm: PermissionCode, child: RoleId, ps: seq<RoleId>,
                         nextStack: set<RoleId>, depth: nat): PathResult
    requires child in c
    decreases |c.Keys - nextStack|, 2, |ps|
  {
    if ps == [] then Ok(None)
    else
      match EdgeError(c, child, ps[0], nextStack)
      case Some(e) => Err(e)
      case None =>
        match FindPermission(c, maxDepth, perm, ps[0], nextStack, depth + 1)
        case Err(e) => Err(e)
        case Ok(Some(path)) => Ok(Some([child] + path))
        case Ok(None) => FindInParents(c, maxDepth, perm, child, ps[1..], nextStack, depth)
  }

  /** `permission_path`. */
  function PermissionPath(c: Catalog, maxDepth: nat, root: RoleId, perm: PermissionCode): PathResult {
    if !Available(c, root) then Err(Unavailable)
    else FindPermission(c, maxDepth, perm, root, {}, 0)
  }

  function Collect(c: Catalog, maxDepth: nat, r: RoleId, ancestors: set<RoleId>, stack: set<RoleId>,
                   depth: nat): AncestorResult
    requires r in c
    decreases |c.Keys - stack|, 1, 0
  {
    if depth > maxDepth then Err(DepthExceeded)
    else if r in stack then Err(Cycle)
    else
      StackGrows(c, r, stack);
      CollectParents(c, maxDepth, r, Sorted(c[r].parents), ancestors, stack + {r}, depth)
  }

  function CollectParents(c: Catalog, maxDepth: nat, child: RoleId, ps: seq<RoleId>, ancestors: set<RoleId>,
                          nextStack: set<RoleId>, depth: nat): AncestorResult
    requires child in c
    decreases |c.Keys - nextStack|, 2, |ps|
  {
    if ps == [] then Ok(ancestors)
    else
      match EdgeError(c, child, ps[0], nextStack)
      case Some(e) => Err(e)
      case None =>
        if ps[0] in ancestors then CollectParents(c, maxDepth, child, ps[1..], ancestors, nextStack, depth)
        else
          match Collect(c, maxDepth, ps[0], ancestors + {ps[0]}, nextStack, depth + 1)
          case Err(e) => Err(e)
          case Ok(found) => CollectParents(c, maxDepth, child, ps[1..], found, nextStack, depth)
  }

  /** `ancestor_ids`. */
  function AncestorIds(c: Catalog, maxDepth: nat, root: RoleId): AncestorResult {
    if !Available(c, root) then Err(Unavailable)
    else Collect(c, maxDepth, root, {}, {}, 0)
  }

  lemma StackGrows(c: Catalog, r: RoleId, stack: set<RoleId>)
    requires r in c && r !in stack
    ensures |c.Keys - (stack + {r})| < |c.Keys - stack|
  {
    assert c.Keys - stack == (c.Keys - (stack + {r})) + {r};
  }

  // ---------------------------------------------------------------- the resolving walk

  /** Depth-first invariant: every visited Role that is no longer being expanded is finished,
  that is, all it inherits is visited and finished too, and no cycle goes through it. */
  ghost predicate WalkInvariant(c: Catalog, w: Walked, stack: set<RoleId>) {
    && (forall i, j :: 0 <= i < j < |w.resolved| ==> w.resolved[i] != w.resolved[j])
    && (forall v: RoleId :: v in w.resolved <==> v in w.visited)
    && stack <= w.visited
    && Closed(c, w.visited - stack)
    && AcyclicOn(c, w.visited - stack)
  }

  lemma {:induction false} WalkFinishes(c: Catalog, maxDepth: nat, r: RoleId, w: Walked, stack: set<RoleId>, depth: nat)
    requires Available(c, r) && WalkInvariant(c, w, stack)
    requires Walk(c, maxDepth, r, w, stack, depth).Ok?
    ensures var w' := Walk(c, maxDepth, r, w, stack, depth).value;
      && WalkInvariant(c, w', stack)
      && w.visited <= w'.visited
      && r in w'.visited - stack
      && forall v :: v in w'.visited - w.visited ==> Reaches(c, r, v)
    decreases |c.Keys - stack|, 1, 0
  {
    if r !in w.visited {
      StackGrows(c, r, stack);
      var started := Walked(w.resolved + [r], w.visited + {r});
      BeginRole(c, r, w, stack);
      WalkParentsFinish(c, maxDepth, r, Sorted(c[r].parents), started, stack + {r}, depth);
      EndRole(c, r, w, Walk(c, maxDepth, r, w, stack, depth).value, stack);
    }
  }

  lemma BeginRole(c: Catalog, r: RoleId, w: Walked, stack: set<RoleId>)
    requires WalkInvariant(c, w, stack) && r !in w.visited
    ensures WalkInvariant(c, Walked(w.resolved + [r], w.visited + {r}), stack + {r})
  {
    assert (w.visited + {r}) - (stack + {r}) == w.visited - stack;
  }

  lemma EndRole(c: Catalog, r: RoleId, w: Walked, w': Walked, stack: set<RoleId>)
    requires Available(c, r) && r !in w.visited && stack <= w.visited && w.visited + {r} <= w'.visited
    requires WalkInvariant(c, w', stack + {r})
    requires forall p :: p in c[r].parents ==>
      p in w'.visited - (stack + {r}) && p in c && EdgeValid(c[r].tenant, c[p].tenant)
    requires forall v :: v in w'.visited - (w.visited + {r}) ==> Reaches(c, r, v)
    ensures WalkInvariant(c, w', stack) && forall v :: v in w'.visited - w.visited ==> Reaches(c, r, v)
  {
    var finished := w'.visited - (stack + {r});
    FinishRole(c, finished, r);
    assert finished + {r} == w'.visited - stack;
    ReachesSelf(c, r);
  }

  lemma {:induction false} WalkParentsFinish(c: Catalog, maxDepth: nat, child: RoleId, ps: seq<RoleId>, w: Walked,
                                             nextStack: set<RoleId>, depth: nat)
    requires child in c && child in nextStack && WalkInvariant(c, w, nextStack)
    requires forall p :: p in ps ==> p in c[child].parents
    requires WalkParents(c, maxDepth, child, ps, w, nextStack, depth).Ok?
    ensures var w' := WalkParents(c, maxDepth, child, ps, w, nextStack, depth).value;
      && WalkInvariant(c, w', nextStack)
      && w.visited <= w'.visited
      && (forall p :: p in ps ==> p in w'.visited - nextStack && p in c && EdgeValid(c[child].tenant, c[p].tenant))
      && forall v :: v in w'.visited - w.visited ==> Reaches(c, child, v)
    decreases |c.Keys - nextStack|, 2, |ps|
  {
    if ps != [] {
      WalkFinishes(c, maxDepth, ps[0], w, nextStack, depth + 1);
      var mid := Walk(c, maxDepth, ps[0], w, nextStack, depth + 1).value;
      WalkParentsFinish(c, maxDepth, child, ps[1..], mid, nextStack, depth);
      var w' := WalkParents(c, maxDepth, child, ps, w, nextStack, depth).value;
      forall v | v in mid.visited - w.visited
        ensures Reaches(c, child, v)
      {
        ReachesThroughParent(c, child, ps[0], v);
      }
      assert forall p :: p in ps ==> p == ps[0] || p in ps[1..];
      assert forall v :: v in w'.visited - w.visited ==> v in mid.visited - w.visited || v in w'.visited - mid.visited;
    }
  }

  /** The Roles a clean hierarchy offers below `root`: available, validly linked, without cycles. */
  ghost predicate CleanBelow(c: Catalog, root: RoleId) {
    forall v :: Reaches(c, root, v) ==>
      && Available(c, v)
      && (forall p :: p in c[v].parents ==> p in c && EdgeValid(c[v].tenant, c[p].tenant))
      && !ProperlyReaches(c, v, v)
  }

  ghost predicate DepthWithin(c: Catalog, root: RoleId, maxDepth: nat) {
    forall p :: PathFrom(c, root, p) ==> |p| <= maxDepth + 1
  }

  /** When `resolve_roles` returns, it returns each reachable Role exactly once and no other, and
  everything reachable is clean. */
  lemma ResolveExact(c: Catalog, maxDepth: nat, root: RoleId)
    requires ResolveRoles(c, maxDepth, root).Ok?
    ensures var roles := ResolveRoles(c, maxDepth, root).value;
      && (forall i, j :: 0 <= i < j < |roles| ==> roles[i] != roles[j])
      && (forall v: RoleId :: v in roles <==> Reaches(c, root, v))
      && CleanBelow(c, root)
  {
    var w := Walked([], {});
    WalkFinishes(c, maxDepth, root, w, {}, 0);
    var w' := Walk(c, maxDepth, root, w, {}, 0).value;
    assert w'.visited - {} == w'.visited;
    assert w'.visited - w.visited == w'.visited;
    forall v | Reaches(c, root, v)
      ensures v in w'.visited
    {
      ReachableStays(c, w'.visited, root, v);
    }
  }

  // ---------------------------------------------------------------- errors are genuine

  ghost predicate CycleBelow(c: Catalog, r: RoleId) {
    exists v :: Reaches(c, r, v) && ProperlyReaches(c, v, v)
  }

  /** A reason in the graph for the error `e` met while searching from `r`. */
  ghost predicate Genuine(c: Catalog, maxDepth: nat, e: HierarchyError, r: RoleId, stack: set<RoleId>, depth: nat) {
    match e
    case Unavailable => exists v :: Reaches(c, r, v) && !Available(c, v)
    case TenantMismatch => exists u, v :: Reaches(c, r, u) && u in c && v in c[u].parents && v in c
                                          && !EdgeValid(c[u].tenant, c[v].tenant)
    case Cycle => CycleBelow(c, r) || exists v :: v in stack && Reaches(c, r, v)
    case DepthExceeded => exists p :: PathFrom(c, r, p) && depth + |p| > maxDepth + 1
  }

  lemma GenuineFromEdge(c: Catalog, maxDepth: nat, child: RoleId, parent: RoleId, stack: set<RoleId>, depth: nat)
    requires child in c && parent in c[child].parents
    requires EdgeError(c, child, parent, stack + {child}).Some?
    ensures Genuine(c, maxDepth, EdgeError(c, child, parent, stack + {child}).value, child, stack, depth)
  {
    ReachesSelf(c, child);
    ReachesSelf(c, parent);
    ReachesThroughParent(c, child, parent, parent);
  }

  lemma GenuineFromParent(c: Catalog, maxDepth: nat, e: HierarchyError, child: RoleId, parent: RoleId,
                          stack: set<RoleId>, depth: nat)
    requires child in c && parent in c[child].parents
    requires Genuine(c, maxDepth, e, parent, stack + {child}, depth + 1)
    ensures Genuine(c, maxDepth, e, child, stack, depth)
  {
    match e
    case Unavailable =>
      var v :| Reaches(c, parent, v) && !Available(c, v);
      ReachesThroughParent(c, child, parent, v);
    case TenantMismatch =>
      var u, v :| Reaches(c, parent, u) && u in c && v in c[u].parents && v in c
        && !EdgeValid(c[u].tenant, c[v].tenant);
      ReachesThroughParent(c, child, parent, u);
    case Cycle =>
      if CycleBelow(c, parent) {
        var v :| Reaches(c, parent, v) && ProperlyReaches(c, v, v);
        ReachesThroughParent(c, child, parent, v);
      } else {
        var v :| v in stack + {child} && Reaches(c, parent, v);
        ReachesThroughParent(c, child, parent, v);
        ReachesSelf(c, child);
      }
    case DepthExceeded =>
      var p :| PathFrom(c, parent, p) && depth + 1 + |p| > maxDepth + 1;
      ExtendLeft(c, child, parent, p);
      assert |[child] + p| == |p| + 1;
  }

  lemma GenuineHere(c: Catalog, maxDepth: nat, r: RoleId, stack: set<RoleId>, depth: nat)
    ensures depth > maxDepth ==> Genuine(c, maxDepth, DepthExceeded, r, stack, depth)
    ensures r in stack ==> Genuine(c, maxDepth, Cycle, r, stack, depth)
  {
    ReachesSelf(c, r);
    assert PathFrom(c, r, [r]);
  }

  lemma {:induction false} WalkErrorGenuine(c: Catalog, maxDepth: nat, r: RoleId, w: Walked, stack: set<RoleId>,
                                            depth: nat)
    requires r in c && Walk(c, maxDepth, r, w, stack, depth).Err?
    ensures Genuine(c, maxDepth, Walk(c, maxDepth, r, w, stack, depth).error, r, stack, depth)
    decreases |c.Keys - stack|, 1, 0
  {
    GenuineHere(c, maxDepth, r, stack, depth);
    if depth <= maxDepth && r !in stack {
      StackGrows(c, r, stack);
      WalkParentsErrorGenuine(c, maxDepth, r, Sorted(c[r].parents), Walked(w.resolved + [r], w.visited + {r}), stack,
                              depth);
    }
  }

  lemma {:induction false} WalkParentsErrorGenuine(c: Catalog, maxDepth: nat, child: RoleId, ps: seq<RoleId>, w: Walked,
                                                   stack: set<RoleId>, depth: nat)
    requires child in c && forall p :: p in ps ==> p in c[child].parents
    requires WalkParents(c, maxDepth, child, ps, w, stack + {child}, depth).Err?
    ensures Genuine(c, maxDepth, WalkParents(c, maxDepth, child, ps, w, stack + {child}, depth).error, child, stack,
                    depth)
    decreases |c.Keys - (stack + {child})|, 2, |ps|
  {
    var nextStack := stack + {child};
    if EdgeError(c, child, ps[0], nextStack).Some? {
      GenuineFromEdge(c, maxDepth, child, ps[0], stack, depth);
    } else {
      match Walk(c, maxDepth, ps[0], w, nextStack, depth + 1)
      case Err(e) =>
        WalkErrorGenuine(c, maxDepth, ps[0], w, nextStack, depth + 1);
        GenuineFromParent(c, maxDepth, e, child, ps[0], stack, depth);
      case Ok(w') =>
        WalkParentsErrorGenuine(c, maxDepth, child, ps[1..], w', stack, depth);
    }
  }

  /** A raised hierarchy error always has its cause in the graph below the root. */
  lemma ResolveErrorGenuine(c: Catalog, maxDepth: nat, root: RoleId)
    requires ResolveRoles(c, maxDepth, root).Err?
    ensures Genuine(c, maxDepth, ResolveRoles(c, maxDepth, root).error, root, {}, 0)
  {
    if root in c && Available(c, root) {
      WalkErrorGenuine(c, maxDepth, root, Walked([], {}), {}, 0);
    } else {
      ReachesSelf(c, root);
    }
  }

  /** A clean hierarchy whose paths are all within the depth limit is never refused. */
  lemma ResolveTotalOnClean(c: Catalog, maxDepth: nat, root: RoleId)
    requires CleanBelow(c, root) && DepthWithin(c, root, maxDepth)
    ensures ResolveRoles(c, maxDepth, root).Ok?
  {
    if ResolveRoles(c, maxDepth, root).Err? {
      ResolveErrorGenuine(c, maxDepth, root);
    }
  }

  // ---------------------------------------------------------------- the permission path

  lemma {:induction false} FindErrorGenuine(c: Catalog, maxDepth: nat, perm: PermissionCode, r: RoleId,
                                            stack: set<RoleId>, depth: nat)
    requires r in c && FindPermission(c, maxDepth, perm, r, stack, depth).Err?
    ensures Genuine(c, maxDepth, FindPermission(c, maxDepth, perm, r, stack, depth).error, r, stack, depth)
    decreases |c.Keys - stack|, 1, 0
  {
    GenuineHere(c, maxDepth, r, stack, depth);
    if depth <= maxDepth && r !in stack {
      StackGrows(c, r, stack);
      FindParentsErrorGenuine(c, maxDepth, perm, r, Sorted(c[r].parents), stack, depth);
    }
  }

  lemma {:induction false} FindParentsErrorGenuine(c: Catalog, maxDepth: nat, perm: PermissionCode, child: RoleId,
                                                   ps: seq<RoleId>, stack: set<RoleId>, depth: nat)
    requires child in c && forall p :: p in ps ==> p in c[child].parents
    requires FindInParents(c, maxDepth, perm, child, ps, stack + {child}, depth).Err?
    ensures Genuine(c, maxDepth, FindInParents(c, maxDepth, perm, child, ps, stack + {child}, depth).error, child,
                    stack, depth)
    decreases |c.Keys - (stack + {child})|, 2, |ps|
  {
    var nextStack := stack + {child};
    if EdgeError(c, child, ps[0], nextStack).Some? {
      GenuineFromEdge(c, maxDepth, child, ps[0], stack, depth);
    } else {
      match FindPermission(c, maxDepth, perm, ps[0], nextStack, depth + 1)
      case Err(e) =>
        FindErrorGenuine(c, maxDepth, perm, ps[0], nextStack, depth + 1);
        GenuineFromParent(c, maxDepth, e, child, ps[0], stack, depth);
      case Ok(None) =>
        FindParentsErrorGenuine(c, maxDepth, perm, child, ps[1..], stack, depth);
    }
  }

  /** A path of Roles in the catalog, every edge of which may be followed. */
  ghost predicate Linked(c: Catalog, path: seq<RoleId>) {
    && IsPath(c, path) && (forall i :: 0 <= i < |path| ==> path[i] in c)
    && (forall i :: 0 < i < |path| ==> Available(c, path[i]) && EdgeValid(c[path[i - 1]].tenant, c[path[i]].tenant))
  }

  /** A path the search may return: from `r`, off the stack, within the limit, and ending at the
  only Role on it that holds the permission. */
  ghost predicate GrantingPath(c: Catalog, maxDepth: nat, perm: PermissionCode, r: RoleId, path: seq<RoleId>,
                               stack: set<RoleId>, depth: nat) {
    && PathFrom(c, r, path) && Linked(c, path)
    && depth + |path| <= maxDepth + 1
    && (forall i :: 0 <= i < |path| ==> path[i] !in stack)
    && (forall i :: 0 <= i < |path| ==> (perm in c[path[i]].permissions <==> i == |path| - 1))
    && (forall i, j :: 0 <= i < j < |path| ==> path[i] != path[j])
  }

  lemma {:induction false} FoundPathGrants(c: Catalog, maxDepth: nat, perm: PermissionCode, r: RoleId,
                                           stack: set<RoleId>, depth: nat)
    requires r in c
    requires FindPermission(c, maxDepth, perm, r, stack, depth).Ok?
      && FindPermission(c, maxDepth, perm, r, stack, depth).value.Some?
    ensures GrantingPath(c, maxDepth, perm, r, FindPermission(c, maxDepth, perm, r, stack, depth).value.value, stack,
                         depth)
    decreases |c.Keys - stack|, 1, 0
  {
    if perm !in c[r].permissions {
      StackGrows(c, r, stack);
      FoundInParentsGrants(c, maxDepth, perm, r, Sorted(c[r].parents), stack, depth);
    }
  }

  lemma {:induction false} FoundInParentsGrants(c: Catalog, maxDepth: nat, perm: PermissionCode, child: RoleId,
                                                ps: seq<RoleId>, stack: set<RoleId>, depth: nat)
    requires child in c && child !in stack && perm !in c[child].permissions
      && forall p :: p in ps ==> p in c[child].parents
    requires var f := FindInParents(c, maxDepth, perm, child, ps, stack + {child}, depth); f.Ok? && f.value.Some?
    ensures GrantingPath(c, maxDepth, perm, child,
                         FindInParents(c, maxDepth, perm, child, ps, stack + {child}, depth).value.value, stack, depth)
    decreases |c.Keys - (stack + {child})|, 2, |ps|
  {
    var nextStack := stack + {child};
    match FindPermission(c, maxDepth, perm, ps[0], nextStack, depth + 1)
    case Ok(Some(path)) =>
      FoundPathGrants(c, maxDepth, perm, ps[0], nextStack, depth + 1);
      ExtendLeft(c, child, ps[0], path);
      var whole := [child] + path;
      assert forall i :: 1 <= i < |whole| ==> whole[i] == path[i - 1];
    case Ok(None) =>
      FoundInParentsGrants(c, maxDepth, perm, child, ps[1..], stack, depth);
  }

  lemma {:induction false} FoundHolds(c: Catalog, maxDepth: nat, perm: PermissionCode, r: RoleId, stack: set<RoleId>,
                                      depth: nat)
    requires r in c
    requires FindPermission(c, maxDepth, perm, r, stack, depth).Ok?
      && FindPermission(c, maxDepth, perm, r, stack, depth).value.Some?
    ensures exists v :: Reaches(c, r, v) && v in c && perm in c[v].permissions
  {
    FoundPathGrants(c, maxDepth, perm, r, stack, depth);
    var path := FindPermission(c, maxDepth, perm, r, stack, depth).value.value;
    assert Reaches(c, r, path[|path| - 1]);
  }

  /** Everything below `r` was searched without finding anything wrong or anything that grants. */
  ghost predicate CleanMissPath(c: Catalog, maxDepth: nat, perm: PermissionCode, p: seq<RoleId>, stack: set<RoleId>,
                                depth: nat) {
    && depth + |p| <= maxDepth + 1
    && (forall i :: 0 <= i < |p| ==> p[i] in c && p[i] !in stack && perm !in c[p[i]].permissions)
    && (forall i :: 0 < i < |p| ==> p[i] != p[0] && Available(c, p[i]) && EdgeValid(c[p[i - 1]].tenant, c[p[i]].tenant))
  }

  lemma {:induction false} MissIsClean(c: Catalog, maxDepth: nat, perm: PermissionCode, r: RoleId, stack: set<RoleId>,
                                       depth: nat, p: seq<RoleId>)
    requires r in c && FindPermission(c, maxDepth, perm, r, stack, depth) == Ok(None) && PathFrom(c, r, p)
    ensures CleanMissPath(c, maxDepth, perm, p, stack, depth)
    decreases |c.Keys - stack|, 1, 0
  {
    StackGrows(c, r, stack);
    assert depth <= maxDepth && r !in stack && perm !in c[r].permissions;
    if |p| > 1 {
      var rest := p[1..];
      assert forall i :: 0 <= i < |rest| ==> rest[i] == p[i + 1];
      assert p[1] in c[p[0]].parents && PathFrom(c, p[1], rest);
      MissInParentsIsClean(c, maxDepth, perm, r, Sorted(c[r].parents), stack, depth, p[1..]);
      CleanMissExtends(c, maxDepth, perm, p, stack, depth);
    }
  }

  lemma CleanMissExtends(c: Catalog, maxDepth: nat, perm: PermissionCode, p: seq<RoleId>, stack: set<RoleId>,
                         depth: nat)
    requires |p| > 1 && p[0] in c && p[0] !in stack && perm !in c[p[0]].permissions
    requires CleanMissPath(c, maxDepth, perm, p[1..], stack + {p[0]}, depth + 1)
    requires Available(c, p[1]) && EdgeValid(c[p[0]].tenant, c[p[1]].tenant)
    ensures CleanMissPath(c, maxDepth, perm, p, stack, depth)
  {
    forall i | 1 <= i < |p|
      ensures p[i] in c && p[i] !in stack && perm !in c[p[i]].permissions && p[i] != p[0]
      ensures Available(c, p[i]) && EdgeValid(c[p[i - 1]].tenant, c[p[i]].tenant)
    {
      assert p[i] == p[1..][i - 1];
      assert i > 1 ==> p[i - 1] == p[1..][i - 2];
    }
  }

  lemma {:induction false} MissInParentsIsClean(c: Catalog, maxDepth: nat, perm: PermissionCode, child: RoleId,
                                                ps: seq<RoleId>, stack: set<RoleId>, depth: nat, p: seq<RoleId>)
    requires child in c && FindInParents(c, maxDepth, perm, child, ps, stack + {child}, depth) == Ok(None)
    requires IsPath(c, p) && p[0] in ps
    ensures CleanMissPath(c, maxDepth, perm, p, stack + {child}, depth + 1)
    ensures Available(c, p[0]) && EdgeValid(c[child].tenant, c[p[0]].tenant)
    decreases |c.Keys - (stack + {child})|, 2, |ps|
  {
    if p[0] == ps[0] {
      MissIsClean(c, maxDepth, perm, ps[0], stack + {child}, depth + 1, p);
    } else {
      MissInParentsIsClean(c, maxDepth, perm, child, ps[1..], stack, depth, p);
    }
  }

  /** No Role at or below `root` holds the permission. */
  ghost predicate NoneBelowHolds(c: Catalog, root: RoleId, perm: PermissionCode) {
    forall v :: Reaches(c, root, v) && v in c ==> perm !in c[v].permissions
  }

  /** `permission_path` answers None exactly when the hierarchy below the Role is clean, stays within
  the depth limit on every path, and holds the permission nowhere. */
  lemma MissExact(c: Catalog, maxDepth: nat, root: RoleId, perm: PermissionCode)
    ensures PermissionPath(c, maxDepth, root, perm) == Ok(None)
       <==> CleanBelow(c, root) && DepthWithin(c, root, maxDepth) && NoneBelowHolds(c, root, perm)
  {
    if PermissionPath(c, maxDepth, root, perm) == Ok(None) {
      MissMeansClean(c, maxDepth, root, perm);
    } else if CleanBelow(c, root) && DepthWithin(c, root, maxDepth) && NoneBelowHolds(c, root, perm) {
      ReachesSelf(c, root);
      match PermissionPath(c, maxDepth, root, perm)
      case Err(e) =>
        FindErrorGenuine(c, maxDepth, perm, root, {}, 0);
      case Ok(Some(_)) =>
        FoundHolds(c, maxDepth, perm, root, {}, 0);
    }
  }

  lemma MissMeansClean(c: Catalog, maxDepth: nat, root: RoleId, perm: PermissionCode)
    requires PermissionPath(c, maxDepth, root, perm) == Ok(None)
    ensures CleanBelow(c, root) && DepthWithin(c, root, maxDepth) && NoneBelowHolds(c, root, perm)
  {
    forall p | PathFrom(c, root, p)
      ensures CleanMissPath(c, maxDepth, perm, p, {}, 0)
    {
      MissIsClean(c, maxDepth, perm, root, {}, 0, p);
    }
    CleanPathsMeanClean(c, maxDepth, perm, root, {}, 0);
  }

  /** If every path from an available Role is clean, then so is everything below it. */
  lemma CleanPathsMeanClean(c: Catalog, maxDepth: nat, perm: PermissionCode, root: RoleId, stack: set<RoleId>,
                            depth: nat)
    requires Available(c, root)
    requires forall p :: PathFrom(c, root, p) ==> CleanMissPath(c, maxDepth, perm, p, stack, depth)
    ensures CleanBelow(c, root) && NoneBelowHolds(c, root, perm)
    ensures forall v :: Reaches(c, root, v) ==> v !in stack
    ensures forall p :: PathFrom(c, root, p) ==> depth + |p| <= maxDepth + 1
  {
    forall v | Reaches(c, root, v)
      ensures Available(c, v) && v !in stack && perm !in c[v].permissions
      ensures forall p :: p in c[v].parents ==> p in c && EdgeValid(c[v].tenant, c[p].tenant)
      ensures !ProperlyReaches(c, v, v)
    {
      var p :| PathFrom(c, root, p) && p[|p| - 1] == v;
      assert CleanMissPath(c, maxDepth, perm, p, stack, depth);
      forall q | q in c[v].parents
        ensures q in c && EdgeValid(c[v].tenant, c[q].tenant)
      {
        var longer := p + [q];
        assert PathFrom(c, root, longer) by {
          assert forall i :: 0 <= i < |p| ==> longer[i] == p[i];
        }
        assert CleanMissPath(c, maxDepth, perm, longer, stack, depth);
        assert longer[|p|] == q && longer[|p| - 1] == v;
      }
      if ProperlyReaches(c, v, v) {
        var loop :| PathFrom(c, v, loop) && |loop| >= 2 && loop[|loop| - 1] == v;
        PumpCycle(c, root, p, loop, maxDepth + 1);
      }
    }
  }

  /** Going round a cycle often enough makes a path of any length. */
  lemma {:induction false} PumpCycle(c: Catalog, root: RoleId, p: seq<RoleId>, loop: seq<RoleId>, n: nat)
    requires PathFrom(c, root, p) && IsPath(c, loop) && |loop| >= 2
    requires p[|p| - 1] == loop[0] == loop[|loop| - 1]
    ensures exists long :: PathFrom(c, root, long) && |long| > n && long[|long| - 1] == loop[0]
  {
    if n == 0 {
      assert |p| > 0;
    } else {
      PumpCycle(c, root, p, loop, n - 1);
      var long :| PathFrom(c, root, long) && |long| > n - 1 && long[|long| - 1] == loop[0];
      Concatenate(c, long, loop);
    }
  }

  lemma {:induction false} PermissionsOfMember(c: Catalog, roles: seq<RoleId>, perm: PermissionCode)
    ensures perm in PermissionsOf(c, roles) <==> exists v :: v in roles && v in c && perm in c[v].permissions
  {
    if roles != [] {
      PermissionsOfMember(c, roles[1..], perm);
      assert forall v :: v in roles <==> v == roles[0] || v in roles[1..];
    }
  }

  /** The path search and the closure agree: a miss means the closure resolves without the
  permission; a hit is a simple granting chain whose permission the closure has if it resolves. */
  lemma PathAgreesWithClosure(c: Catalog, maxDepth: nat, root: RoleId, perm: PermissionCode)
    ensures PermissionPath(c, maxDepth, root, perm) == Ok(None) ==>
      EffectivePermissions(c, maxDepth, root).Ok? && perm !in EffectivePermissions(c, maxDepth, root).value
    ensures PermissionPath(c, maxDepth, root, perm).Ok? && PermissionPath(c, maxDepth, root, perm).value.Some? ==>
      && GrantingPath(c, maxDepth, perm, root, PermissionPath(c, maxDepth, root, perm).value.value, {}, 0)
      && (EffectivePermissions(c, maxDepth, root).Ok? ==> perm in EffectivePermissions(c, maxDepth, root).value)
  {
    match PermissionPath(c, maxDepth, root, perm)
    case Err(_) =>
    case Ok(None) =>
      MissMeansClean(c, maxDepth, root, perm);
      ResolveTotalOnClean(c, maxDepth, root);
      ResolveExact(c, maxDepth, root);
      PermissionsOfMember(c, ResolveRoles(c, maxDepth, root).value, perm);
    case Ok(Some(path)) =>
      FoundPathGrants(c, maxDepth, perm, root, {}, 0);
      if ResolveRoles(c, maxDepth, root).Ok? {
        var last := path[|path| - 1];
        assert Reaches(c, root, last);
        ResolveExact(c, maxDepth, root);
        PermissionsOfMember(c, ResolveRoles(c, maxDepth, root).value, perm);
      }
  }

  // ---------------------------------------------------------------- which path is found

  /** The first `n` Roles of a path. */
  function Front(path: seq<RoleId>, n: nat): set<RoleId>
    requires n <= |path|
  {
    set i | 0 <= i < n :: path[i]
  }

  /** Everything that parent `q` of `r` leads to is searched in vain. */
  ghost predicate PassedOver(c: Catalog, maxDepth: nat, perm: PermissionCode, r: RoleId, q: RoleId, stack: set<RoleId>,
                             depth: nat) {
    && r in c && Available(c, q) && EdgeValid(c[r].tenant, c[q].tenant)
    && forall p :: PathFrom(c, q, p) ==> CleanMissPath(c, maxDepth, perm, p, stack, depth)
  }

  /** Whatever an earlier parent of a Role on the path leads to is clean, within the limit, off the path so far and
  without the permission. */
  ghost predicate EarlierInVain(c: Catalog, maxDepth: nat, perm: PermissionCode, path: seq<RoleId>, stack: set<RoleId>,
                                depth: nat) {
    forall i, q :: 0 <= i < |path| - 1 && path[i] in c && q in c[path[i]].parents && q < path[i + 1] ==>
      PassedOver(c, maxDepth, perm, path[i], q, stack + Front(path, i + 1), depth + i + 1)
  }

  /** The first granting path in the order of the search. */
  ghost predicate FirstHit(c: Catalog, maxDepth: nat, perm: PermissionCode, r: RoleId, path: seq<RoleId>,
                           stack: set<RoleId>, depth: nat) {
    GrantingPath(c, maxDepth, perm, r, path, stack, depth) && EarlierInVain(c, maxDepth, perm, path, stack, depth)
  }

  /** The converse of `MissIsClean`. */
  lemma {:induction false} CleanIsMiss(c: Catalog, maxDepth: nat, perm: PermissionCode, r: RoleId, stack: set<RoleId>,
                                       depth: nat)
    requires Available(c, r)
    requires forall p :: PathFrom(c, r, p) ==> CleanMissPath(c, maxDepth, perm, p, stack, depth)
    ensures FindPermission(c, maxDepth, perm, r, stack, depth) == Ok(None)
  {
    CleanPathsMeanClean(c, maxDepth, perm, r, stack, depth);
    match FindPermission(c, maxDepth, perm, r, stack, depth)
    case Ok(None) =>
    case Ok(Some(_)) =>
      FoundHolds(c, maxDepth, perm, r, stack, depth);
    case Err(e) =>
      FindErrorGenuine(c, maxDepth, perm, r, stack, depth);
  }

  lemma EarlierExtends(c: Catalog, maxDepth: nat, perm: PermissionCode, child: RoleId, rest: seq<RoleId>,
                       stack: set<RoleId>, depth: nat)
    requires rest != [] && child in c && EarlierInVain(c, maxDepth, perm, rest, stack + {child}, depth + 1)
    requires forall q :: q in c[child].parents && q < rest[0] ==>
      PassedOver(c, maxDepth, perm, child, q, stack + {child}, depth + 1)
    ensures EarlierInVain(c, maxDepth, perm, [child] + rest, stack, depth)
  {
    var whole := [child] + rest;
    forall i, q | 0 <= i < |whole| - 1 && whole[i] in c && q in c[whole[i]].parents && q < whole[i + 1]
      ensures PassedOver(c, maxDepth, perm, whole[i], q, stack + Front(whole, i + 1), depth + i + 1)
    {
      if i == 0 {
        assert stack + Front(whole, 1) == stack + {child};
      } else {
        FrontOf(child, rest, i);
        assert stack + Front(whole, i + 1) == stack + {child} + Front(rest, i);
        assert whole[i] == rest[i - 1] && whole[i + 1] == rest[i - 1 + 1];
      }
    }
  }

  lemma EarlierRest(c: Catalog, maxDepth: nat, perm: PermissionCode, child: RoleId, rest: seq<RoleId>,
                    stack: set<RoleId>, depth: nat)
    requires rest != [] && child in c && EarlierInVain(c, maxDepth, perm, [child] + rest, stack, depth)
    ensures EarlierInVain(c, maxDepth, perm, rest, stack + {child}, depth + 1)
    ensures forall q :: q in c[child].parents && q < rest[0] ==>
      PassedOver(c, maxDepth, perm, child, q, stack + {child}, depth + 1)
  {
    var whole := [child] + rest;
    forall i, q | 0 <= i < |rest| - 1 && rest[i] in c && q in c[rest[i]].parents && q < rest[i + 1]
      ensures PassedOver(c, maxDepth, perm, rest[i], q, stack + {child} + Front(rest, i + 1), depth + 1 + i + 1)
    {
      FrontOf(child, rest, i + 1);
      assert stack + Front(whole, i + 2) == stack + {child} + Front(rest, i + 1);
      assert whole[i + 1] == rest[i] && whole[i + 1 + 1] == rest[i + 1];
      assert PassedOver(c, maxDepth, perm, whole[i + 1], q, stack + Front(whole, i + 2), depth + (i + 1) + 1);
    }
    forall q | q in c[child].parents && q < rest[0]
      ensures PassedOver(c, maxDepth, perm, child, q, stack + {child}, depth + 1)
    {
      assert stack + Front(whole, 1) == stack + {child} && whole[0] == child && whole[0 + 1] == rest[0];
      assert PassedOver(c, maxDepth, perm, whole[0], q, stack + Front(whole, 1), depth + 0 + 1);
    }
  }

  lemma FrontOf(child: RoleId, rest: seq<RoleId>, n: nat)
    requires n <= |rest|
    ensures Front([child] + rest, n + 1) == {child} + Front(rest, n)
  {
    var whole := [child] + rest;
    assert forall i :: 0 <= i < n ==> whole[i + 1] == rest[i];
    assert whole[0] == child;
    forall x | x in Front(rest, n) ensures x in Front(whole, n + 1) {
      var i :| 0 <= i < n && rest[i] == x;
      assert whole[i + 1] == x;
    }
  }

  lemma LinkedTail(c: Catalog, child: RoleId, rest: seq<RoleId>)
    requires rest != [] && Linked(c, [child] + rest)
    ensures Linked(c, rest) && child in c && rest[0] in c[child].parents
    ensures Available(c, rest[0]) && EdgeValid(c[child].tenant, c[rest[0]].tenant)
  {
    var whole := [child] + rest;
    assert whole[0] == child && whole[0 + 1] == rest[0] && whole[0 + 1] in c[whole[0]].parents;
    forall i | 0 <= i < |rest|
      ensures rest[i] in c
    {
      assert rest[i] == whole[i + 1];
    }
    forall i | 0 < i < |rest|
      ensures Available(c, rest[i]) && EdgeValid(c[rest[i - 1]].tenant, c[rest[i]].tenant)
    {
      assert rest[i - 1] == whole[i] && rest[i] == whole[i + 1];
    }
    forall i | 0 <= i < |rest| - 1
      ensures rest[i] in c && rest[i + 1] in c[rest[i]].parents
    {
      assert rest[i] == whole[i + 1] && rest[i + 1] == whole[i + 1 + 1];
      assert whole[i + 1 + 1] in c[whole[i + 1]].parents;
    }
  }

  lemma GrantingTail(c: Catalog, maxDepth: nat, perm: PermissionCode, child: RoleId, rest: seq<RoleId>,
                     stack: set<RoleId>, depth: nat)
    requires rest != [] && GrantingPath(c, maxDepth, perm, child, [child] + rest, stack, depth)
    ensures GrantingPath(c, maxDepth, perm, rest[0], rest, stack + {child}, depth + 1)
    ensures rest[0] in c[child].parents && perm !in c[child].permissions
      && EdgeError(c, child, rest[0], stack + {child}).None?
  {
    LinkedTail(c, child, rest);
    assert forall i :: 0 <= i < |rest| ==> ([child] + rest)[i + 1] == rest[i];
  }

  predicate Ascending(ps: seq<RoleId>) {
    forall i, j :: 0 <= i < j < |ps| ==> ps[i] < ps[j]
  }

  lemma {:induction false} FoundIsFirst(c: Catalog, maxDepth: nat, perm: PermissionCode, r: RoleId, stack: set<RoleId>,
                                        depth: nat)
    requires r in c
    requires FindPermission(c, maxDepth, perm, r, stack, depth).Ok?
      && FindPermission(c, maxDepth, perm, r, stack, depth).value.Some?
    ensures FirstHit(c, maxDepth, perm, r, FindPermission(c, maxDepth, perm, r, stack, depth).value.value, stack, depth)
    decreases |c.Keys - stack|, 1, 0
  {
    FoundPathGrants(c, maxDepth, perm, r, stack, depth);
    if perm !in c[r].permissions {
      StackGrows(c, r, stack);
      var rest := FoundInParentsIsFirst(c, maxDepth, perm, r, Sorted(c[r].parents), stack, depth);
      EarlierExtends(c, maxDepth, perm, r, rest, stack, depth);
    }
  }

  lemma {:induction false} FoundInParentsIsFirst(c: Catalog, maxDepth: nat, perm: PermissionCode, child: RoleId,
                                                 ps: seq<RoleId>,
                                                 stack: set<RoleId>, depth: nat) returns (rest: seq<RoleId>)
    requires child in c && Ascending(ps)
    requires var f := FindInParents(c, maxDepth, perm, child, ps, stack + {child}, depth); f.Ok? && f.value.Some?
    ensures FindInParents(c, maxDepth, perm, child, ps, stack + {child}, depth) == Ok(Some([child] + rest))
    ensures rest != [] && rest[0] in ps && FirstHit(c, maxDepth, perm, rest[0], rest, stack + {child}, depth + 1)
    ensures forall q :: q in ps && q < rest[0] ==> PassedOver(c, maxDepth, perm, child, q, stack + {child}, depth + 1)
    decreases |c.Keys - (stack + {child})|, 2, |ps|
  {
    var nextStack := stack + {child};
    match FindPermission(c, maxDepth, perm, ps[0], nextStack, depth + 1)
    case Ok(Some(path)) =>
      FoundIsFirst(c, maxDepth, perm, ps[0], nextStack, depth + 1);
      rest := path;
    case Ok(None) =>
      rest := FoundInParentsIsFirst(c, maxDepth, perm, child, ps[1..], stack, depth);
      forall p | PathFrom(c, ps[0], p)
        ensures CleanMissPath(c, maxDepth, perm, p, nextStack, depth + 1)
      {
        MissIsClean(c, maxDepth, perm, ps[0], nextStack, depth + 1, p);
      }
      assert PassedOver(c, maxDepth, perm, child, ps[0], nextStack, depth + 1);
      assert forall q :: q in ps ==> q == ps[0] || q in ps[1..];
  }

  lemma {:induction false} FirstIsFound(c: Catalog, maxDepth: nat, perm: PermissionCode, r: RoleId, path: seq<RoleId>,
                                        stack: set<RoleId>, depth: nat)
    requires r in c && FirstHit(c, maxDepth, perm, r, path, stack, depth)
    ensures FindPermission(c, maxDepth, perm, r, stack, depth) == Ok(Some(path))
    decreases |c.Keys - stack|, 1, 0
  {
    if |path| == 1 {
      assert path == [r];
    } else {
      var rest := path[1..];
      assert path == [r] + rest;
      StackGrows(c, r, stack);
      GrantingTail(c, maxDepth, perm, r, rest, stack, depth);
      EarlierRest(c, maxDepth, perm, r, rest, stack, depth);
      FirstInParentsIsFound(c, maxDepth, perm, r, Sorted(c[r].parents), rest, stack, depth);
    }
  }

  lemma {:induction false} FirstInParentsIsFound(c: Catalog, maxDepth: nat, perm: PermissionCode, child: RoleId,
                                                 ps: seq<RoleId>, rest: seq<RoleId>, stack: set<RoleId>, depth: nat)
    requires child in c && Ascending(ps) && rest != [] && rest[0] in ps
    requires EdgeError(c, child, rest[0], stack + {child}).None?
    requires FirstHit(c, maxDepth, perm, rest[0], rest, stack + {child}, depth + 1)
    requires forall q :: q in ps && q < rest[0] ==> PassedOver(c, maxDepth, perm, child, q, stack + {child}, depth + 1)
    ensures FindInParents(c, maxDepth, perm, child, ps, stack + {child}, depth) == Ok(Some([child] + rest))
    decreases |c.Keys - (stack + {child})|, 2, |ps|
  {
    var nextStack := stack + {child};
    if ps[0] == rest[0] {
      FirstIsFound(c, maxDepth, perm, rest[0], rest, nextStack, depth + 1);
    } else {
      var k :| 0 < k < |ps| && ps[k] == rest[0];
      assert ps[0] in ps && ps[0] < ps[k];
      assert PassedOver(c, maxDepth, perm, child, ps[0], nextStack, depth + 1);
      assert forall q :: q in ps[1..] ==> q in ps;
      assert PathFrom(c, ps[0], [ps[0]]);
      assert CleanMissPath(c, maxDepth, perm, [ps[0]], nextStack, depth + 1);
      CleanIsMiss(c, maxDepth, perm, ps[0], nextStack, depth + 1);
      FirstInParentsIsFound(c, maxDepth, perm, child, ps[1..], rest, stack, depth);
    }
  }

  /** `permission_path` answers a path exactly when the path is the first hit. */
  lemma HitExact(c: Catalog, maxDepth: nat, root: RoleId, perm: PermissionCode, path: seq<RoleId>)
    ensures PermissionPath(c, maxDepth, root, perm) == Ok(Some(path))
       <==> Available(c, root) && FirstHit(c, maxDepth, perm, root, path, {}, 0)
  {
    if PermissionPath(c, maxDepth, root, perm) == Ok(Some(path)) {
      FoundIsFirst(c, maxDepth, perm, root, {}, 0);
    } else if Available(c, root) && FirstHit(c, maxDepth, perm, root, path, {}, 0) {
      FirstIsFound(c, maxDepth, perm, root, path, {}, 0);
    }
  }

  // ---------------------------------------------------------------- ancestors

  ghost predicate CollectInvariant(c: Catalog, ancestors: set<RoleId>, stack: set<RoleId>) {
    Closed(c, ancestors - stack) && AcyclicOn(c, ancestors - stack)
  }

  lemma {:induction false} CollectFinishes(c: Catalog, maxDepth: nat, r: RoleId, ancestors: set<RoleId>,
                                           stack: set<RoleId>, depth: nat)
    requires Available(c, r) && r !in ancestors - {r} - stack
    requires CollectInvariant(c, ancestors - {r}, stack) && Collect(c, maxDepth, r, ancestors, stack, depth).Ok?
    ensures var found := Collect(c, maxDepth, r, ancestors, stack, depth).value;
      && CollectInvariant(c, found + {r}, stack)
      && r !in stack
      && ancestors <= found
      && (forall v :: v in found - ancestors ==> ProperlyReaches(c, r, v))
      && (forall p :: p in c[r].parents ==> p in found - stack - {r})
    decreases |c.Keys - stack|, 1, 0
  {
    StackGrows(c, r, stack);
    assert ancestors - (stack + {r}) == (ancestors - {r}) - stack;
    CollectParentsFinish(c, maxDepth, r, Sorted(c[r].parents), ancestors, stack + {r}, depth);
    EndCollect(c, r, Collect(c, maxDepth, r, ancestors, stack, depth).value, stack);
  }

  lemma EndCollect(c: Catalog, r: RoleId, found: set<RoleId>, stack: set<RoleId>)
    requires Available(c, r) && r !in stack && CollectInvariant(c, found, stack + {r})
    requires forall p :: p in c[r].parents ==>
      p in found - (stack + {r}) && p in c && EdgeValid(c[r].tenant, c[p].tenant)
    ensures CollectInvariant(c, found + {r}, stack)
  {
    var finished := found - (stack + {r});
    FinishRole(c, finished, r);
    assert finished + {r} == found + {r} - stack;
  }

  lemma {:induction false} CollectParentsFinish(c: Catalog, maxDepth: nat, child: RoleId, ps: seq<RoleId>,
                                                ancestors: set<RoleId>, nextStack: set<RoleId>, depth: nat)
    requires child in c && child in nextStack && CollectInvariant(c, ancestors, nextStack)
    requires forall p :: p in ps ==> p in c[child].parents
    requires CollectParents(c, maxDepth, child, ps, ancestors, nextStack, depth).Ok?
    ensures var found := CollectParents(c, maxDepth, child, ps, ancestors, nextStack, depth).value;
      && CollectInvariant(c, found, nextStack)
      && ancestors <= found
      && (forall p :: p in ps ==> p in found - nextStack && p in c && EdgeValid(c[child].tenant, c[p].tenant))
      && (forall v :: v in found - ancestors ==> ProperlyReaches(c, child, v))
    decreases |c.Keys - nextStack|, 2, |ps|
  {
    if ps != [] {
      var p := ps[0];
      var mid := if p in ancestors then ancestors
        else Collect(c, maxDepth, p, ancestors + {p}, nextStack, depth + 1).value;
      if p !in ancestors {
        assert ancestors + {p} - {p} == ancestors;
        CollectFinishes(c, maxDepth, p, ancestors + {p}, nextStack, depth + 1);
        assert mid + {p} == mid;
        ReachedThroughParent(c, child, p, mid - (ancestors + {p}));
      }
      CollectParentsFinish(c, maxDepth, child, ps[1..], mid, nextStack, depth);
    }
  }

  lemma ReachedThroughParent(c: Catalog, child: RoleId, p: RoleId, found: set<RoleId>)
    requires child in c && p in c[child].parents && forall v :: v in found ==> ProperlyReaches(c, p, v)
    ensures forall v :: v in found + {p} ==> ProperlyReaches(c, child, v)
  {
    forall v | v in found + {p}
      ensures ProperlyReaches(c, child, v)
    {
      ReachesSelf(c, p);
      assert Reaches(c, p, v);
      ReachesThroughParent(c, child, p, v);
    }
  }

  /** When `ancestor_ids` returns, it is exactly what the Role properly inherits, and clean. */
  lemma AncestorsExact(c: Catalog, maxDepth: nat, root: RoleId)
    requires AncestorIds(c, maxDepth, root).Ok?
    ensures forall v :: v in AncestorIds(c, maxDepth, root).value <==> ProperlyReaches(c, root, v)
    ensures CleanBelow(c, root)
  {
    var none: set<RoleId> := {};
    assert none - {root} - none == none && none - {root} == none;
    CollectFinishes(c, maxDepth, root, {}, {}, 0);
    var found := AncestorIds(c, maxDepth, root).value;
    assert found + {root} - {} == found + {root};
    forall v | ProperlyReaches(c, root, v)
      ensures v in found
    {
      var p :| PathFrom(c, root, p) && |p| >= 2 && p[|p| - 1] == v;
      PathStays(c, found + {root}, p, |p| - 1);
      assert !ProperlyReaches(c, root, root);
    }
    forall v | Reaches(c, root, v)
      ensures v in found + {root}
    {
      ReachableStays(c, found + {root}, root, v);
    }
    assert found - {} == found;
  }

  lemma {:induction false} CollectErrorGenuine(c: Catalog, maxDepth: nat, r: RoleId, ancestors: set<RoleId>,
                                               stack: set<RoleId>, depth: nat)
    requires r in c && Collect(c, maxDepth, r, ancestors, stack, depth).Err?
    ensures Genuine(c, maxDepth, Collect(c, maxDepth, r, ancestors, stack, depth).error, r, stack, depth)
    decreases |c.Keys - stack|, 1, 0
  {
    GenuineHere(c, maxDepth, r, stack, depth);
    if depth <= maxDepth && r !in stack {
      StackGrows(c, r, stack);
      CollectParentsErrorGenuine(c, maxDepth, r, Sorted(c[r].parents), ancestors, stack, depth);
    }
  }

  lemma {:induction false} CollectParentsErrorGenuine(c: Catalog, maxDepth: nat, child: RoleId, ps: seq<RoleId>,
                                                      ancestors: set<RoleId>, stack: set<RoleId>, depth: nat)
    requires child in c && forall p :: p in ps ==> p in c[child].parents
    requires CollectParents(c, maxDepth, child, ps, ancestors, stack + {child}, depth).Err?
    ensures Genuine(c, maxDepth, CollectParents(c, maxDepth, child, ps, ancestors, stack + {child}, depth).error, child,
                    stack, depth)
    decreases |c.Keys - (stack + {child})|, 2, |ps|
  {
    var nextStack := stack + {child};
    if EdgeError(c, child, ps[0], nextStack).Some? {
      GenuineFromEdge(c, maxDepth, child, ps[0], stack, depth);
    } else if ps[0] in ancestors {
      CollectParentsErrorGenuine(c, maxDepth, child, ps[1..], ancestors, stack, depth);
    } else {
      match Collect(c, maxDepth, ps[0], ancestors + {ps[0]}, nextStack, depth + 1)
      case Err(e) =>
        CollectErrorGenuine(c, maxDepth, ps[0], ancestors + {ps[0]}, nextStack, depth + 1);
        GenuineFromParent(c, maxDepth, e, child, ps[0], stack, depth);
      case Ok(found) =>
        CollectParentsErrorGenuine(c, maxDepth, child, ps[1..], found, stack, depth);
    }
  }

  /** `ancestor_ids` too raises only what the graph has, and never refuses a clean hierarchy within the limit. */
  lemma AncestorsErrorGenuine(c: Catalog, maxDepth: nat, root: RoleId)
    requires AncestorIds(c, maxDepth, root).Err?
    ensures Genuine(c, maxDepth, AncestorIds(c, maxDepth, root).error, root, {}, 0)
    ensures CleanBelow(c, root) ==>
      AncestorIds(c, maxDepth, root).error.DepthExceeded? && !DepthWithin(c, root, maxDepth)
  {
    ReachesSelf(c, root);
    if Available(c, root) {
      CollectErrorGenuine(c, maxDepth, root, {}, {}, 0);
    }
  }
}
