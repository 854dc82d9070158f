/** The Role hierarchy resolver as the program runs it: recursive walks that fill shared buffers. */
module HierarchyResolver {
  import opened Prelude
  import opened RoleGraph
  import opened RoleHierarchy

  /** The list and the set that every level of one resolving walk appends to. */
  class WalkBuffers {
    var resolved: seq<RoleId>
    var visited: set<RoleId>

    constructor ()
      ensures resolved == [] && visited == {}
    {
      resolved, visited := [], {};
    }

    function State(): Walked
      reads this
    {
      Walked(resolved, visited)
    }
  }

  /** The set of ancestors that every level of one collecting walk adds to. */
  class AncestorBuffer {
    var ancestors: set<RoleId>

    constructor ()
      ensures ancestors == {}
    {
      ancestors := {};
    }
  }

  class Resolver {
    const maxDepth: nat

    constructor (maxDepth: nat)
      ensures this.maxDepth == maxDepth
    {
      this.maxDepth := maxDepth;
    }

    method CheckEdge(c: Catalog, child: RoleId, parent: RoleId, nextStack: set<RoleId>)
      returns (error: Option<HierarchyError>)
      requires child in c
      ensures error == EdgeError(c, child, parent, nextStack)
    {
      if !Available(c, parent) { return Some(Unavailable); }
      var ct, pt := c[child].tenant, c[parent].tenant;
      if ct.None? && pt.Some? { return Some(TenantMismatch); }
      if ct.Some? && pt.Some? && ct != pt { return Some(TenantMismatch); }
      if parent in nextStack { return Some(Cycle); }
      return None;
    }

    /** Appends what `r` newly resolves to, or reports the error that ended the walk. */
    method WalkInto(c: Catalog, r: RoleId, buffers: WalkBuffers, stack: set<RoleId>, depth: nat)
      returns (error: Option<HierarchyError>)
      requires r in c
      modifies buffers
      ensures match Walk(c, maxDepth, r, old(buffers.State()), stack, depth)
              case Err(e) => error == Some(e)
              case Ok(w) => error == None && buffers.State() == w
      decreases |c.Keys - stack|
    {
      if depth > maxDepth { return Some(DepthExceeded); }
      if r in stack { return Some(Cycle); }
      if r in buffers.visited { return None; }
      buffers.visited := buffers.visited + {r};
      buffers.resolved := buffers.resolved + [r];
      var nextStack := stack + {r};
      StackGrows(c, r, stack);
      var parents := Sorted(c[r].parents);
      ghost var started := buffers.State();
      for i := 0 to |parents|
        invariant WalkParents(c, maxDepth, r, parents, started, nextStack, depth)
               == WalkParents(c, maxDepth, r, parents[i..], buffers.State(), nextStack, depth)
      {
        assert parents[i..][0] == parents[i] && parents[i..][1..] == parents[i + 1..];
        error := CheckEdge(c, r, parents[i], nextStack);
        if error.Some? { return; }
        error := WalkInto(c, parents[i], buffers, nextStack, depth + 1);
        if error.Some? { return; }
      }
      error := None;
    }

    method Resolve(c: Catalog, root: RoleId) returns (roles: Result<seq<RoleId>, HierarchyError>)
      ensures roles == ResolveRoles(c, maxDepth, root)
    {
      if !Available(c, root) { return Err(Unavailable); }
      var buffers := new WalkBuffers();
      var error := WalkInto(c, root, buffers, {}, 0);
      roles := if error.Some? then Err(error.value) else Ok(buffers.resolved);
    }

    method CollectInto(c: Catalog, r: RoleId, buffer: AncestorBuffer, stack: set<RoleId>, depth: nat)
      returns (error: Option<HierarchyError>)
      requires r in c
      modifies buffer
      ensures match Collect(c, maxDepth, r, old(buffer.ancestors), stack, depth)
              case Err(e) => error == Some(e)
              case Ok(found) => error == None && buffer.ancestors == found
      decreases |c.Keys - stack|
    {
      if depth > maxDepth { return Some(DepthExceeded); }
      if r in stack { return Some(Cycle); }
      var nextStack := stack + {r};
      StackGrows(c, r, stack);
      var parents := Sorted(c[r].parents);
      ghost var started := buffer.ancestors;
      for i := 0 to |parents|
        invariant CollectParents(c, maxDepth, r, parents, started, nextStack, depth)
               == CollectParents(c, maxDepth, r, parents[i..], buffer.ancestors, nextStack, depth)
      {
        var p := parents[i];
        assert parents[i..][0] == p && parents[i..][1..] == parents[i + 1..];
        error := CheckEdge(c, r, p, nextStack);
        if error.Some? { return; }
        if p !in buffer.ancestors {
          buffer.ancestors := buffer.ancestors + {p};
          error := CollectInto(c, p, buffer, nextStack, depth + 1);
          if error.Some? { return; }
        }
      }
      error := None;
    }

    method Ancestors(c: Catalog, root: RoleId) returns (ancestors: AncestorResult)
      ensures ancestors == AncestorIds(c, maxDepth, root)
    {
      if !Available(c, root) { return Err(Unavailable); }
      var buffer := new AncestorBuffer();
      var error := CollectInto(c, root, buffer, {}, 0);
      ancestors := if error.Some? then Err(error.value) else Ok(buffer.ancestors);
    }
  }

  // ---------------------------------------------------------------- where the two searches differ

  /** Once `resolve_roles` succeeds, the path search can fail in one way only: it meets a path longer
  than the limit, which the walk passed over because it had already visited its end. */
  lemma OnlyDepthSeparates(c: Catalog, maxDepth: nat, root: RoleId, perm: PermissionCode)
    requires ResolveRoles(c, maxDepth, root).Ok? && PermissionPath(c, maxDepth, root, perm).Err?
    ensures PermissionPath(c, maxDepth, root, perm) == Err(DepthExceeded) && !DepthWithin(c, root, maxDepth)
  {
    ResolveExact(c, maxDepth, root);
    FindErrorGenuine(c, maxDepth, perm, root, {}, 0);
  }

  /** Roles 1 and 2 are parents of 0; 2 inherits from 1 and 1 from 3. */
  const Diamond: Catalog := map[
    0 := Role(None, ActiveRole, {}, {1, 2}, true, false),
    1 := Role(None, ActiveRole, {}, {3}, true, false),
    2 := Role(None, ActiveRole, {}, {1}, true, false),
    3 := Role(None, ActiveRole, {}, {}, true, false)]

  ghost predicate DiamondShaped(c: Catalog) {
    && c.Keys == {0, 1, 2, 3}
    && c[0].parents == {1, 2} && c[1].parents == {3} && c[2].parents == {1} && c[3].parents == {}
    && forall v :: v in c ==> c[v].tenant.None? && c[v].status.ActiveRole? && c[v].permissions == {}
  }

  lemma {:induction false} LeafWalk(c: Catalog, maxDepth: nat, r: RoleId, w: Walked, stack: set<RoleId>, depth: nat)
    requires r in c && c[r].parents == {} && r !in stack && r !in w.visited && depth <= maxDepth
    ensures Walk(c, maxDepth, r, w, stack, depth) == Ok(Walked(w.resolved + [r], w.visited + {r}))
  {
  }

  lemma OneParentWalk(c: Catalog, maxDepth: nat, r: RoleId, p: RoleId, w: Walked, stack: set<RoleId>, depth: nat)
    requires r in c && c[r].parents == {p} && r !in stack && r !in w.visited && depth <= maxDepth
    requires EdgeError(c, r, p, stack + {r}).None?
    ensures Walk(c, maxDepth, r, w, stack, depth)
         == Walk(c, maxDepth, p, Walked(w.resolved + [r], w.visited + {r}), stack + {r}, depth + 1)
  {
    var ps := Sorted({p});
    assert ps == [p] by { assert p in ps && |ps| == 1; }
    var w' := Walked(w.resolved + [r], w.visited + {r});
    assert ps[1..] == [];
    StackGrows(c, r, stack);
    var inner := Walk(c, maxDepth, p, w', stack + {r}, depth + 1);
    if inner.Ok? { assert WalkParents(c, maxDepth, r, [], inner.value, stack + {r}, depth) == inner; }
    assert WalkParents(c, maxDepth, r, ps, w', stack + {r}, depth) == inner;
  }

  function Visit(w: Walked, r: RoleId): Walked {
    Walked(w.resolved + [r], w.visited + {r})
  }

  lemma {:induction false} BranchWalks(c: Catalog, limit: nat, w0: Walked, stack: set<RoleId>)
    requires DiamondShaped(c) && limit == 2 && w0.visited == stack == {0}
    ensures Walk(c, limit, 1, w0, stack, 1) == Ok(Visit(Visit(w0, 1), 3))
  {
    assert 3 !in stack + {1};
    LeafWalk(c, limit, 3, Visit(w0, 1), stack + {1}, 2);
    OneParentWalk(c, limit, 1, 3, w0, stack, 1);
  }

  lemma {:induction false} OtherBranchWalks(c: Catalog, limit: nat, w: Walked, stack: set<RoleId>)
    requires DiamondShaped(c) && limit == 2 && w.visited == {0, 1, 3} && stack == {0}
    ensures Walk(c, limit, 2, w, stack, 1) == Ok(Visit(w, 2))
  {
    OneParentWalk(c, limit, 2, 1, w, stack, 1);
    assert 1 !in stack + {2} && 1 in Visit(w, 2).visited;
  }

  lemma {:induction false} RootWalks(c: Catalog, limit: nat, root: RoleId, w: Walked, w3: Walked, w2: Walked,
                                     none: set<RoleId>)
    requires root in c && c[root].parents == {1, 2} && root !in w.visited && root !in none
    requires EdgeError(c, root, 1, none + {root}).None? && EdgeError(c, root, 2, none + {root}).None?
    requires Walk(c, limit, 1, Visit(w, root), none + {root}, 1) == Ok(w3)
      && Walk(c, limit, 2, w3, none + {root}, 1) == Ok(w2)
    ensures Walk(c, limit, root, w, none, 0) == Ok(w2)
  {
    var ps := Sorted({1, 2});
    assert ps == [1, 2] by { assert 1 in ps && 2 in ps && |ps| == 2; }
    assert ps[1..] == [2] && [2][1..] == [];
    StackGrows(c, root, none);
    assert WalkParents(c, limit, root, [], w2, none + {root}, 0) == Ok(w2);
    assert WalkParents(c, limit, root, [2], w3, none + {root}, 0) == Ok(w2);
  }

  lemma {:induction false} DiamondWalks(c: Catalog, limit: nat, root: RoleId, w: Walked, stack: set<RoleId>,
                                        none: set<RoleId>)
    requires DiamondShaped(c) && limit == 2 && root == 0 && w == Walked([], none) && none == {}
      && stack == none + {root}
    ensures Walk(c, limit, root, w, none, 0) == Ok(Visit(Visit(Visit(Visit(w, root), 1), 3), 2))
  {
    var w0 := Visit(w, root);
    var w3 := Visit(Visit(w0, 1), 3);
    assert stack == {0} && w0.visited == {0};
    assert w3.visited == {0, 1, 3};
    BranchWalks(c, limit, w0, stack);
    OtherBranchWalks(c, limit, w3, stack);
    RootWalks(c, limit, root, w, w3, Visit(w3, 2), none);
  }

  lemma DiamondResolves(c: Catalog, limit: nat, root: RoleId)
    requires DiamondShaped(c) && limit == 2 && root == 0
    ensures ResolveRoles(c, limit, root) == Ok([0, 1, 3, 2])
  {
    DiamondWalks(c, limit, root, Walked([], {}), {root}, {});
    assert [] + [root] + [1] + [3] + [2] == [0, 1, 3, 2];
  }

  /** The two do differ: with a limit of two edges a diamond resolves, but its path 0, 2, 1, 3 is too long for
  the path search. */
  lemma SearchesDiffer(c: Catalog, limit: nat, root: RoleId, perm: PermissionCode)
    requires DiamondShaped(c) && limit == 2 && root == 0
    ensures ResolveRoles(c, limit, root) == Ok([0, 1, 3, 2])
    ensures PermissionPath(c, limit, root, perm) == Err(DepthExceeded)
  {
    DiamondResolves(c, limit, root);
    if PermissionPath(c, limit, root, perm).Ok? && PermissionPath(c, limit, root, perm).value.Some? {
      FoundHolds(c, limit, perm, root, {}, 0);
    }
    var long := [0, 2, 1, 3];
    assert PathFrom(c, root, long) && |long| == 4;
    MissExact(c, limit, root, perm);
    if PermissionPath(c, limit, root, perm).Err? {
      OnlyDepthSeparates(c, limit, root, perm);
    }
  }

  lemma DiamondIsShaped()
    ensures DiamondShaped(Diamond)
  {
  }

  lemma DiamondSeparates(perm: PermissionCode)
    ensures ResolveRoles(Diamond, 2, 0) == Ok([0, 1, 3, 2])
    ensures PermissionPath(Diamond, 2, 0, perm) == Err(DepthExceeded)
  {
    DiamondIsShaped();
    var c, limit, root := Diamond, 2, 0;
    SearchesDiffer(c, limit, root, perm);
  }
}
