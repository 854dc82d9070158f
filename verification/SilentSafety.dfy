/** Which silent saves are harmless: the exact condition, on the stored aggregate and the copy that is
about to be written back, under which no ALLOW can change in any repositories. */
module SilentSafety {
  import opened Prelude
  import opened RoleGraph
  import opened RoleHierarchy
  import opened Governance
  import opened Authorization
  import opened AuthorizationTheorems
  import opened SecurityState
  import opened Writes
  import opened KeptAllows
  import opened DecisionCache
  import opened Coherence
  import opened SilentSaves

  /** A safe save changes no ALLOW. */
  lemma SafeSaveKeepsAllows(maxDepth: nat, r: Repositories, w: Write)
    requires w.SaveRole? || w.SaveIdentity?
    requires w.SaveRole? ==> w.id in r.roles && SafeCopy(r.roles[w.id], w.role)
    requires w.SaveIdentity? ==>
      w.identity in r.identities && (r.identities[w.identity].Active? ==> w.lifecycle.Active?)
    ensures KeepsAllows(maxDepth, r, w)
  {
    assert Keeps(false, r, ApplyWrite(r, w));
    forall key: Request, at: Time | Authorize(r, maxDepth, key, at).allowed
      ensures Authorize(ApplyWrite(r, w), maxDepth, key, at) == Authorize(r, maxDepth, key, at)
    {
      AllowKept(false, r, ApplyWrite(r, w), maxDepth, key, at);
    }
  }

  // ---------------------------------------------------------------- an unsafe copy changes one

  const Inert := Role(None, ActiveRole, {}, {}, true, false)

  function Holder(p: PermissionCode): Role { Inert.(permissions := {p}) }

  /** One subject with two bindings: first to the Role `id`, then to a Role `g` that grants `p`. */
  function Two(c: Catalog, id: RoleId, g: RoleId, p: PermissionCode, t: TenantId): Repositories {
    Repositories(map[1 := Active], map[t := Active], [Membership(1, 1, t, MembershipActive, 0, None)], {p}, c,
                 [FirstOf(id, t), SecondOf(g, t)], [], [], [])
  }

  function FirstOf(id: RoleId, t: TenantId): RoleBinding { RoleBinding(0, 1, id, t, t, BindingActive, 0, None) }

  function SecondOf(g: RoleId, t: TenantId): RoleBinding { RoleBinding(1, 1, g, t, t, BindingActive, 0, None) }

  function Asked(p: PermissionCode, t: TenantId): Request { Request(1, t, p, t, None, None, None) }

  lemma TwoCandidates(c: Catalog, id: RoleId, g: RoleId, p: PermissionCode, t: TenantId)
    ensures var r, q := Two(c, id, g, p, t), Asked(p, t);
      && UniqueIds(r.bindings) && Admitted(r, q, 0) && RequestClean(r, q)
      && (forall maxDepth :: StaticClean(r, maxDepth, q, 0))
      && forall e :: Candidate(r, q, 0, e) <==> e == FirstOf(id, t) || e == SecondOf(g, t)
  {
    var m := Membership(1, 1, t, MembershipActive, 0, None);
    assert FindMembership([m], 1, t) == Some(m);
  }

  /** The decision rests on the first binding if it grants, on the second if the first is a clean miss. */
  lemma TwoDecide(c: Catalog, id: RoleId, g: RoleId, p: PermissionCode, t: TenantId, maxDepth: nat)
    ensures var r, q := Two(c, id, g, p, t), Asked(p, t);
      var d := Authorize(r, maxDepth, q, 0);
      && (Grants(r, maxDepth, q, FirstOf(id, t)) <==> d.allowed && d.binding == Some(0))
      && (CleanMiss(r, maxDepth, q, FirstOf(id, t)) && Grants(r, maxDepth, q, SecondOf(g, t)) <==>
            d.allowed && d.binding == Some(1))
  {
    var r, q := Two(c, id, g, p, t), Asked(p, t);
    var b0, b1 := FirstOf(id, t), SecondOf(g, t);
    TwoCandidates(c, id, g, p, t);
    if Authorize(r, maxDepth, q, 0).allowed {
      var b := AllowRests(r, maxDepth, q, 0);
      AllowFollows(r, maxDepth, q, 0, b);
    }
    if Grants(r, maxDepth, q, b0) {
      assert AllowRestsOn(r, maxDepth, q, 0, b0);
      AllowFollows(r, maxDepth, q, 0, b0);
    }
    if CleanMiss(r, maxDepth, q, b0) && Grants(r, maxDepth, q, b1) {
      assert AllowRestsOn(r, maxDepth, q, 0, b1);
      AllowFollows(r, maxDepth, q, 0, b1);
    }
  }

  lemma TwoEndless(c: Catalog, id: RoleId, g: RoleId, p: PermissionCode, t: TenantId, maxDepth: nat)
    ensures var d := Authorize(Two(c, id, g, p, t), maxDepth, Asked(p, t), 0); d.allowed ==> d.validUntil.None?
  {
    var r, q := Two(c, id, g, p, t), Asked(p, t);
    TwoCandidates(c, id, g, p, t);
    var m := Membership(1, 1, t, MembershipActive, 0, None);
    assert FindMembership([m], 1, t) == Some(m);
    if Authorize(r, maxDepth, q, 0).allowed {
      var b := AllowRests(r, maxDepth, q, 0);
      AllowFollows(r, maxDepth, q, 0, b);
    }
  }

  /** `id` with its parents, none of which has parents, and `g` apart. */
  ghost predicate Star(c: Catalog, id: RoleId, g: RoleId, p: PermissionCode) {
    && id in c && g in c && id != g && c[g] == Holder(p) && c[id].status.ActiveRole?
    && forall x :: x in c[id].parents ==> x in c && c[x].parents == {} && c[x].tenant == None && x != id && x != g
  }

  lemma PathEdge(c: Catalog, path: seq<RoleId>, i: nat)
    requires IsPath(c, path)
    ensures i + 1 < |path| ==> path[i] in c && path[i + 1] in c[path[i]].parents
  {
  }

  lemma LeafEnds(c: Catalog, x: RoleId)
    requires x in c && c[x].parents == {}
    ensures !ProperlyReaches(c, x, x)
  {
    forall path | PathFrom(c, x, path) ensures |path| < 2 { PathEdge(c, path, 0); }
  }

  lemma StarPath(c: Catalog, id: RoleId, g: RoleId, p: PermissionCode, path: seq<RoleId>)
    requires Star(c, id, g, p) && PathFrom(c, id, path)
    ensures |path| <= 2 && (|path| == 2 ==> path[1] in c[id].parents)
  {
    PathEdge(c, path, 0);
    PathEdge(c, path, 1);
  }

  lemma StarReaches(c: Catalog, id: RoleId, g: RoleId, p: PermissionCode, x: RoleId)
    requires Star(c, id, g, p)
    ensures Reaches(c, id, x) <==> x == id || x in c[id].parents
    ensures Reaches(c, id, x) ==> !ProperlyReaches(c, x, x)
  {
    ReachesSelf(c, id);
    ReachesSelf(c, x);
    if x in c[id].parents {
      ReachesThroughParent(c, id, x, x);
      LeafEnds(c, x);
    }
    forall path | PathFrom(c, id, path)
      ensures |path| <= 2 && (|path| == 2 ==> path[1] in c[id].parents)
    {
      StarPath(c, id, g, p, path);
    }
  }

  /** With all its parents available, the star is clean; it is a miss exactly when nothing in it holds `p`. */
  lemma StarClean(c: Catalog, id: RoleId, g: RoleId, p: PermissionCode, maxDepth: nat)
    requires Star(c, id, g, p) && maxDepth >= 1 && forall x :: x in c[id].parents ==> Available(c, x)
    ensures CleanBelow(c, id) && DepthWithin(c, id, maxDepth)
    ensures PermissionPath(c, maxDepth, id, p).Ok?
    ensures NoneBelowHolds(c, id, p) <==>
      p !in c[id].permissions && forall x :: x in c[id].parents ==> p !in c[x].permissions
  {
    forall x
      ensures Reaches(c, id, x) <==> x == id || x in c[id].parents
      ensures Reaches(c, id, x) ==> !ProperlyReaches(c, x, x)
    {
      StarReaches(c, id, g, p, x);
    }
    forall path | PathFrom(c, id, path) ensures |path| <= 2 { StarPath(c, id, g, p, path); }
    if PermissionPath(c, maxDepth, id, p).Err? { FindErrorGenuine(c, maxDepth, p, id, {}, 0); }
  }

  // ---------------------------------------------------------------- the exact condition

  lemma {:induction false} Bounded(s: set<nat>) returns (bound: nat)
    ensures forall x :: x in s ==> x < bound
  {
    bound := 0;
    if s != {} {
      var x :| x in s;
      var rest := Bounded(s - {x});
      bound := if x < rest then rest else x + 1;
      forall y | y in s ensures y < bound { if y != x { assert y in s - {x}; } }
    }
  }

  /** A permission that is in neither of two sets. */
  lemma NewPermission(a: set<PermissionCode>, b: set<PermissionCode>) returns (p: PermissionCode)
    ensures p !in a && p !in b
  {
    var lengths := set x | x in a + b :: |x|;
    var n := Bounded(lengths);
    p := seq(n, i => 'x');
    assert forall x :: x in a + b ==> |x| in lengths;
  }

  /** The catalog of the counterexamples: `role` at `id`, `special` at one of its possible parents,
  `g` granting `p`, and the other parents empty. */
  function StarOf(names: set<RoleId>, id: RoleId, role: Role, g: RoleId, p: PermissionCode, v: RoleId,
                  special: Role): Catalog {
    map x | x in names + {id, g} :: if x == id then role else if x == g then Holder(p) else if x == v then special
      else Inert
  }

  /** The stored Role, the copy to be written over it, and what is known of both. */
  ghost predicate Copies(id: RoleId, stored: Role, copy: Role) {
    && stored.status.ActiveRole? && copy.tenant == stored.tenant
    && id !in stored.parents && id !in copy.parents
  }

  function TenantFor(role: Role): TenantId {
    if role.tenant.Some? then role.tenant.value else 0
  }

  /** The catalogs are stars, the save between them is one the service may make, and `g` grants. */
  lemma StarsAreSound(id: RoleId, stored: Role, copy: Role, g: RoleId, p: PermissionCode, v: RoleId, special: Role,
                      maxDepth: nat)
    requires Copies(id, stored, copy) && g !in stored.parents + copy.parents + {id}
    requires special.parents == {} && special.tenant == None
    ensures var names := stored.parents + copy.parents;
      var c := StarOf(names, id, stored, g, p, v, special);
      var r := Two(c, id, g, p, TenantFor(stored));
      && c[id := copy] == StarOf(names, id, copy, g, p, v, special)
      && Star(c, id, g, p) && (copy.status.ActiveRole? ==> Star(c[id := copy], id, g, p))
      && Sound(r) && Permitted(r, SaveRole(id, copy), 0)
      && ApplyWrite(r, SaveRole(id, copy)) == Two(c[id := copy], id, g, p, TenantFor(stored))
      && Grants(r, maxDepth, Asked(p, TenantFor(stored)), SecondOf(g, TenantFor(stored)))
  {
    var names := stored.parents + copy.parents;
    var c := StarOf(names, id, stored, g, p, v, special);
    assert FindPermission(c, maxDepth, p, g, {}, 0) == Ok(Some([g]));
  }

  /** What shows that the save changes an ALLOW. */
  ghost predicate Changes(r: Repositories, q: Request, id: RoleId, stored: Role, copy: Role, maxDepth: nat) {
    && Sound(r) && id in r.roles && r.roles[id] == stored && Permitted(r, SaveRole(id, copy), 0)
    && StartedBy(r, 0) && q == KeyOf(q) && Authorize(r, maxDepth, q, 0).allowed
    && Authorize(r, maxDepth, q, 0).validUntil.None?
    && FromDecision(Authorize(ApplyWrite(r, SaveRole(id, copy)), maxDepth, q, 0))
      != FromDecision(Authorize(r, maxDepth, q, 0))
  }

  /** The permission `p` is reached through the stored Role and not through the copy, or the other way
  round and cleanly. */
  lemma DifferentAnswers(id: RoleId, stored: Role, copy: Role, g: RoleId, p: PermissionCode, v: RoleId, special: Role,
                         maxDepth: nat)
    requires Copies(id, stored, copy) && g !in stored.parents + copy.parents + {id}
    requires special.parents == {} && special.tenant == None && maxDepth >= 1
    requires var c := StarOf(stored.parents + copy.parents, id, stored, g, p, v, special);
      var b := FirstOf(id, TenantFor(stored));
      var q := Asked(p, TenantFor(stored));
      var r, r' := Two(c, id, g, p, TenantFor(stored)), Two(c[id := copy], id, g, p, TenantFor(stored));
      || (Grants(r, maxDepth, q, b) && !Grants(r', maxDepth, q, b))
      || (CleanMiss(r, maxDepth, q, b) && !CleanMiss(r', maxDepth, q, b))
    ensures exists r, q :: Changes(r, q, id, stored, copy, maxDepth)
  {
    var c := StarOf(stored.parents + copy.parents, id, stored, g, p, v, special);
    var t := TenantFor(stored);
    var r, q := Two(c, id, g, p, t), Asked(p, t);
    StarsAreSound(id, stored, copy, g, p, v, special, maxDepth);
    TwoDecide(c, id, g, p, t, maxDepth);
    TwoDecide(c[id := copy], id, g, p, t, maxDepth);
    TwoEndless(c, id, g, p, t, maxDepth);
    assert Changes(r, q, id, stored, copy, maxDepth);
  }

  predicate Holds(c: Catalog, id: RoleId, p: PermissionCode) {
    id in c && (p in c[id].permissions || exists x :: x in c[id].parents && x in c && p in c[x].permissions)
  }

  /** With all parents available, a star grants what it holds and misses the rest cleanly. */
  lemma StarAnswers(c: Catalog, id: RoleId, g: RoleId, p: PermissionCode, t: TenantId, maxDepth: nat)
    requires Star(c, id, g, p) && maxDepth >= 1 && (c[id].tenant.None? || c[id].tenant.value == t)
    requires forall x :: x in c[id].parents ==> Available(c, x)
    ensures var r, q, b := Two(c, id, g, p, t), Asked(p, t), FirstOf(id, t);
      if Holds(c, id, p) then Grants(r, maxDepth, q, b) && !CleanMiss(r, maxDepth, q, b)
      else CleanMiss(r, maxDepth, q, b) && !Grants(r, maxDepth, q, b)
  {
    StarClean(c, id, g, p, maxDepth);
    MissExact(c, maxDepth, id, p);
  }

  /** A permission that only one of the two reaches, all Roles being available. */
  lemma HeldByOne(id: RoleId, stored: Role, copy: Role, g: RoleId, p: PermissionCode, v: RoleId, special: Role,
                  maxDepth: nat)
    requires copy.status.ActiveRole? && Copies(id, stored, copy) && g !in stored.parents + copy.parents + {id}
      && maxDepth >= 1
    requires special.parents == {} && special.tenant == None && special.status.ActiveRole?
    requires var c := StarOf(stored.parents + copy.parents, id, stored, g, p, v, special);
      Holds(c, id, p) != Holds(c[id := copy], id, p)
    ensures exists r, q :: Changes(r, q, id, stored, copy, maxDepth)
  {
    var c := StarOf(stored.parents + copy.parents, id, stored, g, p, v, special);
    StarsAreSound(id, stored, copy, g, p, v, special, maxDepth);
    StarAnswers(c, id, g, p, TenantFor(stored), maxDepth);
    StarAnswers(c[id := copy], id, g, p, TenantFor(stored), maxDepth);
    DifferentAnswers(id, stored, copy, g, p, v, special, maxDepth);
  }

  /** A parent that only the copy has, and that is disabled. */
  lemma ParentGained(id: RoleId, stored: Role, copy: Role, g: RoleId, p: PermissionCode, v: RoleId, maxDepth: nat)
    requires copy.status.ActiveRole? && Copies(id, stored, copy) && g !in stored.parents + copy.parents + {id}
      && maxDepth >= 1
    requires p !in stored.permissions && v !in stored.parents && v in copy.parents
    ensures exists r, q :: Changes(r, q, id, stored, copy, maxDepth)
  {
    var special := Inert.(status := DisabledRole);
    var c := StarOf(stored.parents + copy.parents, id, stored, g, p, v, special);
    var c' := c[id := copy];
    StarsAreSound(id, stored, copy, g, p, v, special, maxDepth);
    StarAnswers(c, id, g, p, TenantFor(stored), maxDepth);
    StarReaches(c', id, g, p, v);
    DisabledParentSpoils(c', id, p, v, g, TenantFor(stored), maxDepth);
    DifferentAnswers(id, stored, copy, g, p, v, special, maxDepth);
  }

  lemma DisabledParentSpoils(c: Catalog, id: RoleId, p: PermissionCode, v: RoleId, g: RoleId, t: TenantId,
                             maxDepth: nat)
    requires Reaches(c, id, v) && !Available(c, v)
    ensures !CleanMiss(Two(c, id, g, p, t), maxDepth, Asked(p, t), FirstOf(id, t))
  {
  }

  /** A disabled copy stops the first binding, which passed the request on before. */
  lemma CopyDisabled(id: RoleId, stored: Role, copy: Role, g: RoleId, p: PermissionCode, maxDepth: nat)
    requires copy.status.DisabledRole? && Copies(id, stored, copy) && g !in stored.parents + copy.parents + {id}
      && maxDepth >= 1
    requires p !in stored.permissions
    ensures exists r, q :: Changes(r, q, id, stored, copy, maxDepth)
  {
    var c := StarOf(stored.parents + copy.parents, id, stored, g, p, id, Inert);
    StarsAreSound(id, stored, copy, g, p, id, Inert, maxDepth);
    StarAnswers(c, id, g, p, TenantFor(stored), maxDepth);
    DifferentAnswers(id, stored, copy, g, p, id, Inert, maxDepth);
  }

  lemma UnsafeCopyChanges(id: RoleId, stored: Role, copy: Role, maxDepth: nat)
    requires Copies(id, stored, copy) && maxDepth >= 1 && !SafeCopy(stored, copy)
    ensures exists r, q :: Changes(r, q, id, stored, copy, maxDepth)
  {
    var g := Bounded(stored.parents + copy.parents + {id});
    var p := NewPermission(stored.permissions, copy.permissions);
    if copy.status.DisabledRole? {
      CopyDisabled(id, stored, copy, g, p, maxDepth);
    } else if lost :|
      lost in stored.permissions + copy.permissions && (lost in stored.permissions) != (lost in copy.permissions)
    {
      HeldByOne(id, stored, copy, g, lost, id, Inert, maxDepth);
    } else {
      assert stored.permissions == copy.permissions;
      if v :| v in stored.parents && v !in copy.parents {
        HeldByOne(id, stored, copy, g, p, v, Holder(p), maxDepth);
      } else {
        var v :| v in copy.parents && v !in stored.parents;
        ParentGained(id, stored, copy, g, p, v, maxDepth);
      }
    }
  }

  /** Writing a copy back over a stored Role, without a bump, changes no ALLOW in any sound repositories
  exactly when the stored Role is disabled, or the copy is active and has its permissions and parents. */
  lemma SilentRoleSaveExact(id: RoleId, stored: Role, copy: Role, maxDepth: nat)
    requires copy.tenant == stored.tenant && id !in stored.parents && id !in copy.parents && maxDepth >= 1
    ensures SafeCopy(stored, copy) <==>
      forall r :: Sound(r) && id in r.roles && r.roles[id] == stored && Permitted(r, SaveRole(id, copy), 0) ==>
        KeepsAllows(maxDepth, r, SaveRole(id, copy))
  {
    if SafeCopy(stored, copy) {
      forall r | Sound(r) && id in r.roles && r.roles[id] == stored && Permitted(r, SaveRole(id, copy), 0)
        ensures KeepsAllows(maxDepth, r, SaveRole(id, copy))
      {
        SafeSaveKeepsAllows(maxDepth, r, SaveRole(id, copy));
      }
    } else {
      UnsafeCopyChanges(id, stored, copy, maxDepth);
      var r, q :| Changes(r, q, id, stored, copy, maxDepth);
      assert !KeepsAllows(maxDepth, r, SaveRole(id, copy));
    }
  }

  // ---------------------------------------------------------------- identities

  /** One subject with one binding to a Role that grants `p`. */
  function One(i: IdentityId, lifecycle: Lifecycle, p: PermissionCode): Repositories {
    Repositories(map[i := lifecycle], map[0 := Active], [Membership(0, i, 0, MembershipActive, 0, None)], {p},
                 map[0 := Holder(p)], [RoleBinding(0, i, 0, 0, 0, BindingActive, 0, None)], [], [], [])
  }

  lemma OneAllows(i: IdentityId, p: PermissionCode, maxDepth: nat)
    ensures Sound(One(i, Active, p)) && StartedBy(One(i, Active, p), 0)
    ensures var d := Authorize(One(i, Active, p), maxDepth, Request(i, 0, p, 0, None, None, None), 0);
      d.allowed && d.validUntil.None?
  {
    var r, q := One(i, Active, p), Request(i, 0, p, 0, None, None, None);
    var b, m := r.bindings[0], r.memberships[0];
    assert FindMembership([m], i, 0) == Some(m);
    assert FindPermission(r.roles, maxDepth, p, b.role, {}, 0) == Ok(Some([b.role]));
    assert Grants(r, maxDepth, q, b);
    assert AllowRestsOn(r, maxDepth, q, 0, b);
    AllowFollows(r, maxDepth, q, 0, b);
  }

  /** A profile update saves the identity it loaded, and moves no version: it is harmless in all sound
  repositories exactly when it does not write a lifecycle other than active over an active one. */
  lemma SilentIdentitySaveExact(i: IdentityId, stored: Lifecycle, copy: Lifecycle, maxDepth: nat)
    ensures (stored.Active? ==> copy.Active?) <==>
      forall r :: Sound(r) && i in r.identities && r.identities[i] == stored ==>
        KeepsAllows(maxDepth, r, SaveIdentity(i, copy))
  {
    if stored.Active? ==> copy.Active? {
      forall r | Sound(r) && i in r.identities && r.identities[i] == stored
        ensures KeepsAllows(maxDepth, r, SaveIdentity(i, copy))
      {
        SafeSaveKeepsAllows(maxDepth, r, SaveIdentity(i, copy));
      }
    } else {
      var p := "";
      var r, q := One(i, Active, p), Request(i, 0, p, 0, None, None, None);
      OneAllows(i, p, maxDepth);
      assert !Authorize(ApplyWrite(r, SaveIdentity(i, copy)), maxDepth, q, 0).allowed;
      assert q == KeyOf(q) && !KeepsAllows(maxDepth, r, SaveIdentity(i, copy));
    }
  }

  // ---------------------------------------------------------------- over runs, with calls in flight

  /** A harmless save is one more step of a run. */
  lemma {:induction false} HarmlessKeepsRun(cfg: Config, s: System, steps: seq<Step>, w: Write)
    requires Initial(s) && Run(cfg, s, steps) && Enabled(cfg, After(cfg, s, steps), SilentSave(w))
    requires Harmless(cfg, After(cfg, s, steps), SilentSave(w))
    ensures Coherent(cfg, Next(cfg, After(cfg, s, steps), SilentSave(w)))
  {
    Extended(cfg, s, steps, SilentSave(w));
    CacheCoherence(cfg, s, steps + [SilentSave(w)]);
  }

  /** A save that changes an ALLOW without end breaks the run in which that ALLOW has just been cached. */
  lemma ChangedAllowBreaksRun(cfg: Config, r: Repositories, q: Request, w: Write) returns (s: System, steps: seq<Step>)
    requires cfg.ttl > 0 && Sound(r) && StartedBy(r, 0) && Permitted(r, w, 0) && q == KeyOf(q)
    requires var d := Authorize(r, cfg.maxDepth, q, 0);
      && d.allowed && d.validUntil.None?
      && FromDecision(Authorize(ApplyWrite(r, w), cfg.maxDepth, q, 0)) != FromDecision(d)
    ensures Initial(s) && Run(cfg, s, steps)
    ensures var s' := After(cfg, s, steps);
      s'.repos == r && Enabled(cfg, s', SilentSave(w)) && !Coherent(cfg, Next(cfg, s', SilentSave(w)))
  {
    s := System(0, r, NoVersions, multiset{}, map[], map[]);
    steps := CallCaches(cfg, s, s, [], q);
    var s' := After(cfg, s, steps);
    var broken := Next(cfg, s', SilentSave(w));
    assert q in broken.entries && UpToDate(broken, q, broken.entries[q].stamp);
  }

  /** After every run that comes to store `stored` under `id`, writing the copy back leaves the cache coherent. */
  ghost predicate CopyKeepsRuns(cfg: Config, id: RoleId, stored: Role, copy: Role) {
    forall s: System, steps: seq<Step> ::
      Initial(s) && Run(cfg, s, steps) && id in After(cfg, s, steps).repos.roles
        && After(cfg, s, steps).repos.roles[id] == stored
      && Enabled(cfg, After(cfg, s, steps), SilentSave(SaveRole(id, copy))) ==>
        Coherent(cfg, Next(cfg, After(cfg, s, steps), SilentSave(SaveRole(id, copy))))
  }

  /** The exact condition on a silent Role save, with any number of calls in flight: it keeps every run
  coherent if and only if the stored Role is disabled, or the copy is active with its permissions and
  parents. */
  lemma SafeCopyExact(cfg: Config, id: RoleId, stored: Role, copy: Role)
    requires !cfg.still && cfg.ttl > 0 && cfg.maxDepth >= 1
    requires copy.tenant == stored.tenant && id !in stored.parents && id !in copy.parents
    ensures SafeCopy(stored, copy) <==> CopyKeepsRuns(cfg, id, stored, copy)
  {
    var w := SaveRole(id, copy);
    if SafeCopy(stored, copy) {
      forall s: System, steps: seq<Step> |
        Initial(s) && Run(cfg, s, steps) && id in After(cfg, s, steps).repos.roles
          && After(cfg, s, steps).repos.roles[id] == stored
        && Enabled(cfg, After(cfg, s, steps), SilentSave(w))
        ensures Coherent(cfg, Next(cfg, After(cfg, s, steps), SilentSave(w)))
      {
        HarmlessKeepsRun(cfg, s, steps, w);
      }
    } else {
      UnsafeCopyChanges(id, stored, copy, cfg.maxDepth);
      var r, q :| Changes(r, q, id, stored, copy, cfg.maxDepth);
      var s, steps := ChangedAllowBreaksRun(cfg, r, q, w);
      assert !Coherent(cfg, Next(cfg, After(cfg, s, steps), SilentSave(w)));
    }
  }

  ghost predicate LifecycleKeepsRuns(cfg: Config, i: IdentityId, stored: Lifecycle, copy: Lifecycle) {
    forall s: System, steps: seq<Step> ::
      Initial(s) && Run(cfg, s, steps) && i in After(cfg, s, steps).repos.identities
      && After(cfg, s, steps).repos.identities[i] == stored ==>
        Coherent(cfg, Next(cfg, After(cfg, s, steps), SilentSave(SaveIdentity(i, copy))))
  }

  /** And on a profile update: it keeps every run coherent if and only if it does not write another
  lifecycle over an active one. */
  lemma SafeLifecycleExact(cfg: Config, i: IdentityId, stored: Lifecycle, copy: Lifecycle)
    requires !cfg.still && cfg.ttl > 0
    ensures (stored.Active? ==> copy.Active?) <==> LifecycleKeepsRuns(cfg, i, stored, copy)
  {
    var w := SaveIdentity(i, copy);
    if stored.Active? ==> copy.Active? {
      forall s: System, steps: seq<Step> |
        Initial(s) && Run(cfg, s, steps) && i in After(cfg, s, steps).repos.identities
        && After(cfg, s, steps).repos.identities[i] == stored
        ensures Coherent(cfg, Next(cfg, After(cfg, s, steps), SilentSave(w)))
      {
        HarmlessKeepsRun(cfg, s, steps, w);
      }
    } else {
      var p := "";
      var r, q := One(i, Active, p), Request(i, 0, p, 0, None, None, None);
      OneAllows(i, p, cfg.maxDepth);
      assert !Authorize(ApplyWrite(r, w), cfg.maxDepth, q, 0).allowed;
      var s, steps := ChangedAllowBreaksRun(cfg, r, q, w);
      assert !Coherent(cfg, Next(cfg, After(cfg, s, steps), SilentSave(w)));
    }
  }
}
