/** What the searches of the Role hierarchy answer besides sets and paths: exactly which error the search for a
permission raises, and exactly in which order Roles are resolved. */
module HierarchyFaults {
  import opened Prelude
  import opened RoleGraph
  import opened RoleHierarchy

  // ---------------------------------------------------------------- the error of the path search

  /** What is wrong with going from `child`, at this depth, to its parent: the first of these. */
  ghost predicate Fault(c: Catalog, maxDepth: nat, child: RoleId, parent: RoleId, stack: set<RoleId>, depth: nat,
                        e: HierarchyError)
    requires child in c
  {
    if !(parent in c && c[parent].status.ActiveRole?) then e == Unavailable
    else if !EdgeValid(c[child].tenant, c[parent].tenant) then e == TenantMismatch
    else if parent in stack then e == Cycle
    else depth >= maxDepth && e == DepthExceeded
  }

  /** A simple path of usable Roles from `r`, off the stack and within the limit, none of which holds the permission. */
  ghost predicate Followed(c: Catalog, maxDepth: nat, perm: PermissionCode, r: RoleId, path: seq<RoleId>,
                           stack: set<RoleId>, depth: nat) {
    && PathFrom(c, r, path) && Linked(c, path) && depth + |path| <= maxDepth + 1
    && (forall i :: 0 <= i < |path| ==> path[i] !in stack && perm !in c[path[i]].permissions)
    && (forall i, j :: 0 <= i < j < |path| ==> path[i] != path[j])
  }

  /** The first faulty edge in the order of the search: it leads on from a path followed so far, and all that earlier
  parents along the path lead to is searched in vain. */
  ghost predicate FirstFault(c: Catalog, maxDepth: nat, perm: PermissionCode, r: RoleId, path: seq<RoleId>,
                             parent: RoleId, e: HierarchyError, stack: set<RoleId>, depth: nat) {
    && Followed(c, maxDepth, perm, r, path, stack, depth)
    && parent in c[path[|path| - 1]].parents
    && Fault(c, maxDepth, path[|path| - 1], parent, stack + Front(path, |path|), depth + |path| - 1, e)
    && EarlierInVain(c, maxDepth, perm, path + [parent], stack, depth)
  }

  lemma FaultHere(c: Catalog, maxDepth: nat, perm: PermissionCode, child: RoleId, parent: RoleId, e: HierarchyError,
                  stack: set<RoleId>, depth: nat)
    requires child in c && child !in stack && depth <= maxDepth && perm !in c[child].permissions
    requires parent in c[child].parents && Fault(c, maxDepth, child, parent, stack + {child}, depth, e)
    requires forall q :: q in c[child].parents && q < parent ==>
      PassedOver(c, maxDepth, perm, child, q, stack + {child}, depth + 1)
    ensures FirstFault(c, maxDepth, perm, child, [child], parent, e, stack, depth)
  {
    assert Front([child], 1) == {child} by { assert [child][0] == child; }
    assert [child] + [parent] == [child, parent];
    EarlierExtends(c, maxDepth, perm, child, [parent], stack, depth);
  }

  lemma FaultAbove(c: Catalog, maxDepth: nat, perm: PermissionCode, child: RoleId, rest: seq<RoleId>, parent: RoleId,
                   e: HierarchyError, stack: set<RoleId>, depth: nat)
    requires child in c && child !in stack && perm !in c[child].permissions
    requires rest != [] && rest[0] in c[child].parents && EdgeError(c, child, rest[0], stack + {child}).None?
    requires FirstFault(c, maxDepth, perm, rest[0], rest, parent, e, stack + {child}, depth + 1)
    requires forall q :: q in c[child].parents && q < rest[0] ==>
      PassedOver(c, maxDepth, perm, child, q, stack + {child}, depth + 1)
    ensures FirstFault(c, maxDepth, perm, child, [child] + rest, parent, e, stack, depth)
  {
    var whole := [child] + rest;
    ExtendLeft(c, child, rest[0], rest);
    assert forall i :: 1 <= i < |whole| ==> whole[i] == rest[i - 1];
    FrontOf(child, rest, |rest|);
    assert stack + Front(whole, |whole|) == stack + {child} + Front(rest, |rest|);
    assert [child] + (rest + [parent]) == whole + [parent] && (rest + [parent])[0] == rest[0];
    EarlierExtends(c, maxDepth, perm, child, rest + [parent], stack, depth);
  }

  lemma FollowedRest(c: Catalog, maxDepth: nat, perm: PermissionCode, child: RoleId, rest: seq<RoleId>,
                     stack: set<RoleId>, depth: nat)
    requires rest != [] && Followed(c, maxDepth, perm, child, [child] + rest, stack, depth)
    ensures Followed(c, maxDepth, perm, rest[0], rest, stack + {child}, depth + 1)
    ensures rest[0] in c[child].parents && EdgeError(c, child, rest[0], stack + {child}).None? && depth + 1 <= maxDepth
  {
    LinkedTail(c, child, rest);
    assert forall i :: 0 <= i < |rest| ==> ([child] + rest)[i + 1] == rest[i];
  }

  lemma FaultBelow(c: Catalog, maxDepth: nat, perm: PermissionCode, child: RoleId, rest: seq<RoleId>, parent: RoleId,
                   e: HierarchyError, stack: set<RoleId>, depth: nat)
    requires rest != [] && FirstFault(c, maxDepth, perm, child, [child] + rest, parent, e, stack, depth)
    ensures rest[0] in c[child].parents && EdgeError(c, child, rest[0], stack + {child}).None? && depth + 1 <= maxDepth
    ensures FirstFault(c, maxDepth, perm, rest[0], rest, parent, e, stack + {child}, depth + 1)
    ensures forall q :: q in c[child].parents && q < rest[0] ==>
      PassedOver(c, maxDepth, perm, child, q, stack + {child}, depth + 1)
  {
    var whole := [child] + rest;
    FollowedRest(c, maxDepth, perm, child, rest, stack, depth);
    FrontOf(child, rest, |rest|);
    assert stack + Front(whole, |whole|) == stack + {child} + Front(rest, |rest|);
    assert [child] + (rest + [parent]) == whole + [parent] && (rest + [parent])[0] == rest[0];
    EarlierRest(c, maxDepth, perm, child, rest + [parent], stack, depth);
  }

  lemma {:induction false} ErrorHasFault(c: Catalog, maxDepth: nat, perm: PermissionCode, r: RoleId,
                                         stack: set<RoleId>, depth: nat, e: HierarchyError)
    returns (path: seq<RoleId>, parent: RoleId)
    requires r in c && r !in stack && depth <= maxDepth
    requires FindPermission(c, maxDepth, perm, r, stack, depth) == Err(e)
    ensures FirstFault(c, maxDepth, perm, r, path, parent, e, stack, depth)
    decreases |c.Keys - stack|, 1, 0
  {
    StackGrows(c, r, stack);
    path, parent := ErrorInParents(c, maxDepth, perm, r, Sorted(c[r].parents), stack, depth, e);
  }

  lemma {:induction false} ErrorInParents(c: Catalog, maxDepth: nat, perm: PermissionCode, child: RoleId,
                                          ps: seq<RoleId>, stack: set<RoleId>, depth: nat, e: HierarchyError)
    returns (path: seq<RoleId>, parent: RoleId)
    requires child in c && child !in stack && depth <= maxDepth && perm !in c[child].permissions
    requires Ascending(ps) && forall q :: q in ps ==> q in c[child].parents
    requires forall q :: q in c[child].parents && q !in ps ==>
      PassedOver(c, maxDepth, perm, child, q, stack + {child}, depth + 1)
    requires FindInParents(c, maxDepth, perm, child, ps, stack + {child}, depth) == Err(e)
    ensures FirstFault(c, maxDepth, perm, child, path, parent, e, stack, depth)
    decreases |c.Keys - (stack + {child})|, 2, |ps|
  {
    var nextStack := stack + {child};
    AscendingTail(ps);
    if EdgeError(c, child, ps[0], nextStack).Some? || depth == maxDepth {
      path, parent := [child], ps[0];
      FaultHere(c, maxDepth, perm, child, parent, e, stack, depth);
    } else {
      match FindPermission(c, maxDepth, perm, ps[0], nextStack, depth + 1)
      case Err(_) =>
        var rest, last := ErrorHasFault(c, maxDepth, perm, ps[0], nextStack, depth + 1, e);
        FaultAbove(c, maxDepth, perm, child, rest, last, e, stack, depth);
        path, parent := [child] + rest, last;
      case Ok(None) =>
        MissedParent(c, maxDepth, perm, child, ps[0], nextStack, depth + 1);
        path, parent := ErrorInParents(c, maxDepth, perm, child, ps[1..], stack, depth, e);
    }
  }

  lemma AscendingTail(ps: seq<RoleId>)
    requires ps != [] && Ascending(ps)
    ensures Ascending(ps[1..]) && forall q :: q in ps <==> q == ps[0] || q in ps[1..]
    ensures forall q :: q in ps[1..] ==> ps[0] < q
  {
  }

  lemma {:induction false} MissedParent(c: Catalog, maxDepth: nat, perm: PermissionCode, child: RoleId, q: RoleId,
                                        stack: set<RoleId>, depth: nat)
    requires child in c && EdgeError(c, child, q, stack).None?
    requires FindPermission(c, maxDepth, perm, q, stack, depth) == Ok(None)
    ensures PassedOver(c, maxDepth, perm, child, q, stack, depth)
  {
    forall p | PathFrom(c, q, p)
      ensures CleanMissPath(c, maxDepth, perm, p, stack, depth)
    {
      MissIsClean(c, maxDepth, perm, q, stack, depth, p);
    }
  }

  /** The converse of `MissedParent`. */
  lemma {:induction false} PassedParent(c: Catalog, maxDepth: nat, perm: PermissionCode, child: RoleId, q: RoleId,
                                        stack: set<RoleId>, depth: nat)
    requires PassedOver(c, maxDepth, perm, child, q, stack, depth)
    ensures EdgeError(c, child, q, stack).None? && FindPermission(c, maxDepth, perm, q, stack, depth) == Ok(None)
  {
    assert PathFrom(c, q, [q]);
    assert CleanMissPath(c, maxDepth, perm, [q], stack, depth);
    CleanIsMiss(c, maxDepth, perm, q, stack, depth);
  }

  /** The converse of `FaultHere`. */
  lemma FaultAtOnce(c: Catalog, maxDepth: nat, perm: PermissionCode, child: RoleId, parent: RoleId, e: HierarchyError,
                    stack: set<RoleId>, depth: nat)
    requires FirstFault(c, maxDepth, perm, child, [child], parent, e, stack, depth)
    ensures parent in c[child].parents && Fault(c, maxDepth, child, parent, stack + {child}, depth, e)
    ensures forall q :: q in c[child].parents && q < parent ==>
      PassedOver(c, maxDepth, perm, child, q, stack + {child}, depth + 1)
  {
    assert Front([child], 1) == {child} by { assert [child][0] == child; }
    EarlierRest(c, maxDepth, perm, child, [parent], stack, depth);
  }

  lemma {:induction false} FaultIsError(c: Catalog, maxDepth: nat, perm: PermissionCode, r: RoleId, path: seq<RoleId>,
                                        parent: RoleId, e: HierarchyError, stack: set<RoleId>, depth: nat)
    requires r in c && FirstFault(c, maxDepth, perm, r, path, parent, e, stack, depth)
    ensures FindPermission(c, maxDepth, perm, r, stack, depth) == Err(e)
    decreases |c.Keys - stack|, 1, 0
  {
    StackGrows(c, r, stack);
    var rest := path[1..];
    assert path == [r] + rest;
    if rest == [] {
      assert path == [r];
      FaultAtOnce(c, maxDepth, perm, r, parent, e, stack, depth);
    } else {
      FaultBelow(c, maxDepth, perm, r, rest, parent, e, stack, depth);
    }
    FaultInParents(c, maxDepth, perm, r, Sorted(c[r].parents), rest, parent, e, stack, depth);
  }

  /** The parent at which the path goes on, or ends. */
  function Onwards(rest: seq<RoleId>, parent: RoleId): RoleId {
    if rest == [] then parent else rest[0]
  }

  lemma {:induction false} FaultInParents(c: Catalog, maxDepth: nat, perm: PermissionCode, child: RoleId,
                                          ps: seq<RoleId>, rest: seq<RoleId>, parent: RoleId, e: HierarchyError,
                                          stack: set<RoleId>, depth: nat)
    requires child in c && Ascending(ps) && Onwards(rest, parent) in ps
    requires if rest == [] then Fault(c, maxDepth, child, parent, stack + {child}, depth, e)
      else EdgeError(c, child, rest[0], stack + {child}).None?
           && FirstFault(c, maxDepth, perm, rest[0], rest, parent, e, stack + {child}, depth + 1)
    requires forall q :: q in ps && q < Onwards(rest, parent) ==>
      PassedOver(c, maxDepth, perm, child, q, stack + {child}, depth + 1)
    ensures FindInParents(c, maxDepth, perm, child, ps, stack + {child}, depth) == Err(e)
    decreases |c.Keys - (stack + {child})|, 2, |ps|
  {
    AscendingTail(ps);
    var next := Onwards(rest, parent);
    if ps[0] != next {
      assert next in ps[1..] && ps[0] in ps;
      assert PassedOver(c, maxDepth, perm, child, ps[0], stack + {child}, depth + 1);
      PassedParent(c, maxDepth, perm, child, ps[0], stack + {child}, depth + 1);
      FaultInParents(c, maxDepth, perm, child, ps[1..], rest, parent, e, stack, depth);
    } else if rest != [] {
      FaultIsError(c, maxDepth, perm, next, rest, parent, e, stack + {child}, depth + 1);
    }
  }

  /** `permission_path` raises an error exactly when the Role is unavailable or a faulty edge comes first, and it is
  the error of that edge. */
  lemma FaultExact(c: Catalog, maxDepth: nat, root: RoleId, perm: PermissionCode, e: HierarchyError)
    ensures PermissionPath(c, maxDepth, root, perm) == Err(e)
       <==> if !Available(c, root) then e == Unavailable
            else exists path, parent :: FirstFault(c, maxDepth, perm, root, path, parent, e, {}, 0)
  {
    if Available(c, root) {
      if PermissionPath(c, maxDepth, root, perm) == Err(e) {
        var path, parent := ErrorHasFault(c, maxDepth, perm, root, {}, 0, e);
      } else if exists path, parent :: FirstFault(c, maxDepth, perm, root, path, parent, e, {}, 0) {
        var path, parent :| FirstFault(c, maxDepth, perm, root, path, parent, e, {}, 0);
        FaultIsError(c, maxDepth, perm, root, path, parent, e, {}, 0);
      }
    }
  }

  // ---------------------------------------------------------------- the order of resolution

  /** `roles[i]` is next after the Roles before it: it is a parent of the last of them that still had a new parent, and
  the first of its new parents. */
  ghost predicate NextAfter(c: Catalog, roles: seq<RoleId>, i: nat, j: nat) {
    && j < i < |roles| && roles[j] in c && roles[i] in c[roles[j]].parents
    && (forall q :: q in c[roles[j]].parents && q < roles[i] ==> q in roles[..i])
    && (forall k, q :: j < k < i && roles[k] in c && q in c[roles[k]].parents ==> q in roles[..i])
  }

  /** The Roles in the order of a depth-first walk from the first of them, none of them twice. */
  ghost predicate DepthFirst(c: Catalog, roles: seq<RoleId>) {
    && (forall i, j :: 0 <= i < j < |roles| ==> roles[i] != roles[j])
    && (forall i :: 0 < i < |roles| ==> Follows(c, roles, i))
  }

  ghost predicate Follows(c: Catalog, roles: seq<RoleId>, i: nat) {
    exists j :: NextAfter(c, roles, i, j)
  }

  /** A depth-first order is determined by where it begins and which Roles are in it. */
  lemma {:induction false} OrderUnique(c: Catalog, a: seq<RoleId>, b: seq<RoleId>, n: nat)
    requires DepthFirst(c, a) && DepthFirst(c, b) && |a| == |b| && n <= |a| && (n > 0 ==> a[0] == b[0])
    ensures a[..n] == b[..n]
  {
    if n > 1 {
      OrderUnique(c, a, b, n - 1);
      var i := n - 1;
      assert Follows(c, a, i) && Follows(c, b, i);
      var j :| NextAfter(c, a, i, j);
      var k :| NextAfter(c, b, i, k);
      assert forall m :: 0 <= m < i ==> a[m] == a[..i][m] == b[..i][m] == b[m];
      assert a[i] !in a[..i] && b[i] !in b[..i];
      assert j == k;
    }
  }

  /** The stack's Roles were resolved no later than the one at `top`. */
  ghost predicate OnTop(w: Walked, stack: set<RoleId>, top: nat) {
    top < |w.resolved| && forall k :: top < k < |w.resolved| ==> w.resolved[k] !in stack
  }

  lemma Discovered(c: Catalog, w: Walked, stack: set<RoleId>, top: nat, r: RoleId)
    requires DepthFirst(c, w.resolved) && WalkInvariant(c, w, stack) && OnTop(w, stack, top) && r !in w.visited
    requires w.resolved[top] in c && r in c[w.resolved[top]].parents
    requires forall q :: q in c[w.resolved[top]].parents && q < r ==> q in w.visited
    ensures DepthFirst(c, w.resolved + [r])
  {
    var roles := w.resolved + [r];
    forall i | 0 < i < |w.resolved| ensures Follows(c, roles, i) {
      assert Follows(c, w.resolved, i);
      var j :| NextAfter(c, w.resolved, i, j);
      assert roles[..i] == w.resolved[..i] && forall k :: 0 <= k <= i ==> roles[k] == w.resolved[k];
      assert NextAfter(c, roles, i, j);
    }
    assert roles[..|w.resolved|] == w.resolved;
    assert NextAfter(c, roles, |w.resolved|, top);
  }

  lemma {:induction false} WalkOrder(c: Catalog, maxDepth: nat, r: RoleId, w: Walked, stack: set<RoleId>, depth: nat)
    requires Available(c, r) && WalkInvariant(c, w, stack) && Walk(c, maxDepth, r, w, stack, depth).Ok?
    requires DepthFirst(c, w.resolved) && (r !in w.visited ==> DepthFirst(c, w.resolved + [r]))
    ensures var w' := Walk(c, maxDepth, r, w, stack, depth).value;
      w.resolved <= w'.resolved && DepthFirst(c, w'.resolved) && (r !in w.visited ==> w.resolved + [r] <= w'.resolved)
    decreases |c.Keys - stack|, 1, 0
  {
    if r !in w.visited {
      StackGrows(c, r, stack);
      var begun := Walked(w.resolved + [r], w.visited + {r});
      BeginRole(c, r, w, stack);
      assert OnTop(begun, stack + {r}, |w.resolved|) && w.resolved <= begun.resolved;
      ParentsOrder(c, maxDepth, r, Sorted(c[r].parents), begun, stack + {r}, depth, |w.resolved|);
    }
  }

  lemma {:induction false} ParentsOrder(c: Catalog, maxDepth: nat, child: RoleId, ps: seq<RoleId>, w: Walked,
                                        nextStack: set<RoleId>, depth: nat, top: nat)
    requires child in c && child in nextStack && WalkInvariant(c, w, nextStack)
    requires OnTop(w, nextStack, top) && w.resolved[top] == child && DepthFirst(c, w.resolved)
    requires Ascending(ps) && (forall p :: p in ps ==> p in c[child].parents)
      && forall p :: p in c[child].parents && p !in ps ==> p in w.visited
    requires WalkParents(c, maxDepth, child, ps, w, nextStack, depth).Ok?
    ensures var w' := WalkParents(c, maxDepth, child, ps, w, nextStack, depth).value;
      w.resolved <= w'.resolved && DepthFirst(c, w'.resolved)
    decreases |c.Keys - nextStack|, 2, |ps|
  {
    if ps != [] {
      AscendingTail(ps);
      if ps[0] !in w.visited { Discovered(c, w, nextStack, top, ps[0]); }
      WalkOrder(c, maxDepth, ps[0], w, nextStack, depth + 1);
      WalkFinishes(c, maxDepth, ps[0], w, nextStack, depth + 1);
      var mid := Walk(c, maxDepth, ps[0], w, nextStack, depth + 1).value;
      StaysOnTop(c, w, mid, nextStack, top);
      ParentsOrder(c, maxDepth, child, ps[1..], mid, nextStack, depth, top);
    }
  }

  lemma StaysOnTop(c: Catalog, w: Walked, mid: Walked, stack: set<RoleId>, top: nat)
    requires OnTop(w, stack, top) && WalkInvariant(c, w, stack) && WalkInvariant(c, mid, stack)
    requires w.resolved <= mid.resolved
    ensures OnTop(mid, stack, top)
  {
    assert forall k :: |w.resolved| <= k < |mid.resolved| ==> mid.resolved[k] !in w.resolved;
  }

  /** These are exactly the Roles that `root` reaches. */
  ghost predicate IsAllReached(c: Catalog, root: RoleId, roles: seq<RoleId>) {
    forall v: RoleId :: v in roles <==> Reaches(c, root, v)
  }

  /** `resolve_roles` answers the one depth-first order, from the Role, of all Roles it reaches. */
  lemma ResolveOrderExact(c: Catalog, maxDepth: nat, root: RoleId, roles: seq<RoleId>)
    requires ResolveRoles(c, maxDepth, root).Ok?
    ensures ResolveRoles(c, maxDepth, root).value == roles
       <==> roles != [] && roles[0] == root && DepthFirst(c, roles) && IsAllReached(c, root, roles)
  {
    var found := ResolveRoles(c, maxDepth, root).value;
    var w := Walked([], {});
    assert DepthFirst(c, w.resolved + [root]);
    WalkOrder(c, maxDepth, root, w, {}, 0);
    ResolveExact(c, maxDepth, root);
    if roles != [] && roles[0] == root && DepthFirst(c, roles) && IsAllReached(c, root, roles) {
      SameOrder(c, found, roles);
    }
  }

  lemma SameOrder(c: Catalog, a: seq<RoleId>, b: seq<RoleId>)
    requires DepthFirst(c, a) && DepthFirst(c, b) && a != [] && b != [] && a[0] == b[0]
    requires forall v: RoleId :: v in a <==> v in b
    ensures a == b
  {
    SameLength(a, b);
    OrderUnique(c, a, b, |a|);
    assert a[..|a|] == a && b[..|a|] == b;
  }

  lemma SameLength(a: seq<RoleId>, b: seq<RoleId>)
    requires forall i, j :: 0 <= i < j < |a| ==> a[i] != a[j]
    requires forall i, j :: 0 <= i < j < |b| ==> b[i] != b[j]
    requires forall v: RoleId :: v in a <==> v in b
    ensures |a| == |b|
  {
    Cardinality(a);
    Cardinality(b);
    assert Members(a) == Members(b);
  }

  function Members(a: seq<RoleId>): set<RoleId> {
    set v | v in a
  }

  lemma {:induction false} Cardinality(a: seq<RoleId>)
    requires forall i, j :: 0 <= i < j < |a| ==> a[i] != a[j]
    ensures |Members(a)| == |a|
  {
    if a != [] {
      Cardinality(a[1..]);
      assert a[0] !in a[1..];
      assert Members(a) == {a[0]} + Members(a[1..]);
    }
  }
}
