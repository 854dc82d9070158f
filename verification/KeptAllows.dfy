/** When one state of the repositories keeps the ALLOWs of another: the saves that publish nothing and
still do no harm. */
module KeptAllows {
  import opened Prelude
  import opened RoleGraph
  import opened RoleHierarchy
  import opened Governance
  import opened Authorization
  import opened AuthorizationTheorems
  import opened Writes

  /** Two active Roles that the engine cannot tell apart: their flags are never read. */
  predicate Alike(a: Role, b: Role) {
    && a.status.ActiveRole? && b.status.ActiveRole?
    && a.tenant == b.tenant && a.permissions == b.permissions && a.parents == b.parents
  }

  /** Every available Role is still there, alike. */
  ghost predicate RolesKept(c: Catalog, c': Catalog) {
    forall r :: Available(c, r) ==> r in c' && Alike(c[r], c'[r])
  }

  /** `w` keeps what the ALLOWs of `v` rest on; with `still`, it is `v`. */
  ghost predicate Keeps(still: bool, v: Repositories, w: Repositories) {
    if still then v == w
    else
      && w == v.(identities := w.identities, roles := w.roles)
      && (forall i :: i in v.identities && v.identities[i].Active? ==> i in w.identities && w.identities[i].Active?)
      && RolesKept(v.roles, w.roles)
  }

  lemma KeepsTwice(still: bool, u: Repositories, v: Repositories, w: Repositories)
    requires Keeps(still, u, v) && Keeps(still, v, w)
    ensures Keeps(still, u, w)
  {
  }

  lemma KeepsSelf(still: bool, v: Repositories)
    ensures Keeps(still, v, v)
  {
  }

  /** Roles never go away and never change tenant. */
  ghost predicate RolesPersist(c: Catalog, c': Catalog) {
    forall r :: r in c ==> r in c' && c'[r].tenant == c[r].tenant
  }

  /** Writing `copy` over `stored` changes nothing the engine reads of an active Role. */
  predicate SafeCopy(stored: Role, copy: Role) {
    stored.status.ActiveRole? ==> Alike(stored, copy)
  }

  /** A save that may go unannounced: it writes back what is stored, writes a safe copy of a Role, or
  writes a lifecycle over one that is not active. */
  predicate SafeSave(r: Repositories, w: Write) {
    || ApplyWrite(r, w) == r
    || (w.SaveRole? && w.id in r.roles && SafeCopy(r.roles[w.id], w.role))
    || (w.SaveIdentity? && w.identity in r.identities && (r.identities[w.identity].Active? ==> w.lifecycle.Active?))
  }

  lemma SafeSaveKeeps(r: Repositories, w: Write, clock: Time, s: IdentityId, t: TenantId)
    requires Permitted(r, w, clock) && SafeSave(r, w)
    ensures Keeps(false, View(r, s, t), View(ApplyWrite(r, w), s, t))
    ensures RolesPersist(r.roles, ApplyWrite(r, w).roles)
  {
  }

  // ---------------------------------------------------------------- what is kept decides alike

  lemma {:induction false} FindKept(c: Catalog, c': Catalog, maxDepth: nat, perm: PermissionCode, r: RoleId,
                                    stack: set<RoleId>, depth: nat)
    requires RolesKept(c, c') && Available(c, r) && FindPermission(c, maxDepth, perm, r, stack, depth).Ok?
    ensures r in c'
    ensures FindPermission(c', maxDepth, perm, r, stack, depth) == FindPermission(c, maxDepth, perm, r, stack, depth)
    decreases |c.Keys - stack|, 1, 0
  {
    assert Alike(c[r], c'[r]);
    if perm !in c[r].permissions {
      StackGrows(c, r, stack);
      FindParentsKept(c, c', maxDepth, perm, r, Sorted(c[r].parents), stack + {r}, depth);
    }
  }

  lemma {:induction false} FindParentsKept(c: Catalog, c': Catalog, maxDepth: nat, perm: PermissionCode, child: RoleId,
                                           ps: seq<RoleId>, nextStack: set<RoleId>, depth: nat)
    requires RolesKept(c, c') && Available(c, child)
    requires FindInParents(c, maxDepth, perm, child, ps, nextStack, depth).Ok?
    ensures child in c'
    ensures FindInParents(c', maxDepth, perm, child, ps, nextStack, depth)
         == FindInParents(c, maxDepth, perm, child, ps, nextStack, depth)
    decreases |c.Keys - nextStack|, 2, |ps|
  {
    assert Alike(c[child], c'[child]);
    if ps != [] {
      assert Alike(c[ps[0]], c'[ps[0]]);
      FindKept(c, c', maxDepth, perm, ps[0], nextStack, depth + 1);
      if FindPermission(c, maxDepth, perm, ps[0], nextStack, depth + 1).value.None? {
        FindParentsKept(c, c', maxDepth, perm, child, ps[1..], nextStack, depth);
      }
    }
  }

  lemma {:induction false} WalkKept(c: Catalog, c': Catalog, maxDepth: nat, r: RoleId, w: Walked, stack: set<RoleId>,
                                    depth: nat)
    requires RolesKept(c, c') && Available(c, r) && Walk(c, maxDepth, r, w, stack, depth).Ok?
    ensures r in c' && Walk(c', maxDepth, r, w, stack, depth) == Walk(c, maxDepth, r, w, stack, depth)
    decreases |c.Keys - stack|, 1, 0
  {
    assert Alike(c[r], c'[r]);
    if r !in w.visited {
      StackGrows(c, r, stack);
      var w' := Walked(w.resolved + [r], w.visited + {r});
      WalkParentsKept(c, c', maxDepth, r, Sorted(c[r].parents), w', stack + {r}, depth);
    }
  }

  lemma {:induction false} WalkParentsKept(c: Catalog, c': Catalog, maxDepth: nat, child: RoleId, ps: seq<RoleId>,
                                           w: Walked, nextStack: set<RoleId>, depth: nat)
    requires RolesKept(c, c') && Available(c, child) && WalkParents(c, maxDepth, child, ps, w, nextStack, depth).Ok?
    ensures child in c'
    ensures WalkParents(c', maxDepth, child, ps, w, nextStack, depth)
      == WalkParents(c, maxDepth, child, ps, w, nextStack, depth)
    decreases |c.Keys - nextStack|, 2, |ps|
  {
    assert Alike(c[child], c'[child]);
    if ps != [] {
      assert Alike(c[ps[0]], c'[ps[0]]);
      WalkKept(c, c', maxDepth, ps[0], w, nextStack, depth + 1);
      var w' := Walk(c, maxDepth, ps[0], w, nextStack, depth + 1).value;
      WalkParentsKept(c, c', maxDepth, child, ps[1..], w', nextStack, depth);
    }
  }

  lemma ResolveKept(c: Catalog, c': Catalog, maxDepth: nat, root: RoleId)
    requires RolesKept(c, c') && ResolveRoles(c, maxDepth, root).Ok?
    ensures ResolveRoles(c', maxDepth, root) == ResolveRoles(c, maxDepth, root)
  {
    assert Alike(c[root], c'[root]);
    WalkKept(c, c', maxDepth, root, Walked([], {}), {}, 0);
  }

  lemma {:induction false} EffectiveKept(c: Catalog, c': Catalog, maxDepth: nat, bound: seq<RoleId>,
                                         effective: set<RoleId>)
    requires RolesKept(c, c') && EffectiveRoleIds(c, maxDepth, bound, effective).Ok?
    ensures EffectiveRoleIds(c', maxDepth, bound, effective) == EffectiveRoleIds(c, maxDepth, bound, effective)
  {
    if bound != [] {
      ResolveKept(c, c', maxDepth, bound[0]);
      EffectiveKept(c, c', maxDepth, bound[1..], effective + set v | v in ResolveRoles(c, maxDepth, bound[0]).value);
    }
  }

  lemma PathKept(c: Catalog, c': Catalog, maxDepth: nat, root: RoleId, perm: PermissionCode)
    requires RolesKept(c, c') && PermissionPath(c, maxDepth, root, perm).Ok?
    ensures PermissionPath(c', maxDepth, root, perm) == PermissionPath(c, maxDepth, root, perm)
    ensures root in c && Available(c', root) && c'[root].tenant == c[root].tenant
  {
    assert Alike(c[root], c'[root]);
    FindKept(c, c', maxDepth, perm, root, {}, 0);
  }

  lemma GovernanceKept(r: Repositories, r': Repositories, maxDepth: nat, q: Request, bindings: seq<RoleBinding>)
    requires Keeps(false, r, r') && EvaluateGovernance(r, maxDepth, q, bindings).None?
    ensures EvaluateGovernance(r', maxDepth, q, bindings).None?
  {
    if EffectiveRoleIds(r.roles, maxDepth, RolesBound(bindings), {}).Ok? {
      EffectiveKept(r.roles, r'.roles, maxDepth, RolesBound(bindings), {});
    }
  }

  lemma TryKept(r: Repositories, r': Repositories, maxDepth: nat, q: Request, now: Time, m: Membership,
                bindings: seq<RoleBinding>, b: RoleBinding)
    requires Keeps(false, r, r')
    requires var d := TryBinding(r, maxDepth, q, now, m, bindings, b); d.None? || d.value.allowed
    ensures TryBinding(r', maxDepth, q, now, m, bindings, b) == TryBinding(r, maxDepth, q, now, m, bindings, b)
  {
    PathKept(r.roles, r'.roles, maxDepth, b.role, q.permission);
    if TryBinding(r, maxDepth, q, now, m, bindings, b).Some? { GovernanceKept(r, r', maxDepth, q, bindings); }
  }

  lemma {:induction false} TriesKept(r: Repositories, r': Repositories, maxDepth: nat, q: Request, now: Time,
                                     m: Membership, bindings: seq<RoleBinding>, candidates: seq<RoleBinding>)
    requires Keeps(false, r, r') && TryBindings(r, maxDepth, q, now, m, bindings, candidates).allowed
    ensures TryBindings(r', maxDepth, q, now, m, bindings, candidates)
      == TryBindings(r, maxDepth, q, now, m, bindings, candidates)
  {
    TryKept(r, r', maxDepth, q, now, m, bindings, candidates[0]);
    if TryBinding(r, maxDepth, q, now, m, bindings, candidates[0]).None? {
      TriesKept(r, r', maxDepth, q, now, m, bindings, candidates[1..]);
    }
  }

  /** An ALLOW is the same in every state that keeps what it rests on. */
  lemma AllowKept(still: bool, r: Repositories, r': Repositories, maxDepth: nat, q: Request, now: Time)
    requires Keeps(still, r, r') && Authorize(r, maxDepth, q, now).allowed
    ensures Authorize(r', maxDepth, q, now) == Authorize(r, maxDepth, q, now)
  {
    if !still {
      assert Screen(r', q, now) == Screen(r, q, now) == None;
      var bs := Current(r, q, now);
      var m := FindMembership(r.memberships, q.subject, q.tenant).value;
      TriesKept(r, r', maxDepth, q, now, m, bs, SortById(InScope(bs, q.scope)));
    }
  }
}
