/** The Role catalog as a graph: an edge leads from a Role to each of its parent Roles.
Everything here is about the graph alone (paths, reachability, cycles); the searches the
program runs over it are in RoleHierarchy. */
module RoleGraph {
  import opened Prelude

  datatype RoleStatus = ActiveRole | DisabledRole

  /** The persisted state of one Role aggregate; its identifier is its key in the catalog. */
  datatype Role = Role(
    tenant: Option<TenantId>,
    status: RoleStatus,
    permissions: set<PermissionCode>,
    parents: set<RoleId>,
    assignable: bool,
    sensitive: bool)

  type Catalog = map<RoleId, Role>

  predicate Available(c: Catalog, r: RoleId) {
    r in c && c[r].status.ActiveRole?
  }

  /** A global Role inherits only from global Roles; a tenant's Role from global ones and its own. */
  predicate EdgeValid(child: Option<TenantId>, parent: Option<TenantId>) {
    && !(child.None? && parent.Some?)
    && !(child.Some? && parent.Some? && child != parent)
  }

  ghost predicate IsPath(c: Catalog, p: seq<RoleId>) {
    |p| > 0 && forall i :: 0 <= i < |p| - 1 ==> p[i] in c && p[i + 1] in c[p[i]].parents
  }

  ghost predicate PathFrom(c: Catalog, a: RoleId, p: seq<RoleId>) {
    IsPath(c, p) && p[0] == a
  }

  ghost predicate Reaches(c: Catalog, a: RoleId, b: RoleId) {
    exists p :: PathFrom(c, a, p) && p[|p| - 1] == b
  }

  ghost predicate ProperlyReaches(c: Catalog, a: RoleId, b: RoleId) {
    exists p :: PathFrom(c, a, p) && |p| >= 2 && p[|p| - 1] == b
  }

  /** Every Role of `s` is available and all its edges are valid and stay in `s`. */
  ghost predicate Closed(c: Catalog, s: set<RoleId>) {
    forall v :: v in s ==>
      Available(c, v) && forall p :: p in c[v].parents ==>
        p in s && p in c && EdgeValid(c[v].tenant, c[p].tenant)
  }

  ghost predicate AcyclicOn(c: Catalog, s: set<RoleId>) {
    forall v :: v in s ==> !ProperlyReaches(c, v, v)
  }

  ghost predicate Acyclic(c: Catalog) {
    forall v :: !ProperlyReaches(c, v, v)
  }

  lemma ReachesSelf(c: Catalog, a: RoleId)
    ensures Reaches(c, a, a)
  {
    assert PathFrom(c, a, [a]);
  }

  lemma ExtendLeft(c: Catalog, a: RoleId, b: RoleId, p: seq<RoleId>)
    requires a in c && b in c[a].parents && PathFrom(c, b, p)
    ensures PathFrom(c, a, [a] + p)
    ensures ProperlyReaches(c, a, p[|p| - 1]) && Reaches(c, a, p[|p| - 1])
  {
    var q := [a] + p;
    assert forall i :: 1 <= i < |q| ==> q[i] == p[i - 1];
    assert PathFrom(c, a, q) && q[|q| - 1] == p[|p| - 1];
  }

  lemma ReachesThroughParent(c: Catalog, a: RoleId, b: RoleId, v: RoleId)
    requires a in c && b in c[a].parents && Reaches(c, b, v)
    ensures Reaches(c, a, v) && ProperlyReaches(c, a, v)
  {
    var p :| PathFrom(c, b, p) && p[|p| - 1] == v;
    ExtendLeft(c, a, b, p);
  }

  lemma {:induction false} PathStays(c: Catalog, s: set<RoleId>, p: seq<RoleId>, i: nat)
    requires Closed(c, s) && IsPath(c, p) && p[0] in s && i < |p|
    ensures p[i] in s
  {
    if i > 0 {
      PathStays(c, s, p, i - 1);
      assert p[i] in c[p[i - 1]].parents;
    }
  }

  lemma ReachableStays(c: Catalog, s: set<RoleId>, a: RoleId, b: RoleId)
    requires Closed(c, s) && a in s && Reaches(c, a, b)
    ensures b in s
  {
    var p :| PathFrom(c, a, p) && p[|p| - 1] == b;
    PathStays(c, s, p, |p| - 1);
  }

  /** Adding a Role whose parents are all in a closed acyclic set keeps it closed and acyclic. */
  lemma FinishRole(c: Catalog, s: set<RoleId>, r: RoleId)
    requires Closed(c, s) && AcyclicOn(c, s) && Available(c, r) && r !in s
    requires forall p :: p in c[r].parents ==> p in s && p in c && EdgeValid(c[r].tenant, c[p].tenant)
    ensures Closed(c, s + {r}) && AcyclicOn(c, s + {r})
  {
    forall v | v in s + {r}
      ensures !ProperlyReaches(c, v, v)
    {
      if v == r && ProperlyReaches(c, r, r) {
        var p :| PathFrom(c, r, p) && |p| >= 2 && p[|p| - 1] == r;
        assert p[1] in c[p[0]].parents;
        assert IsPath(c, p[1..]);
        PathStays(c, s, p[1..], |p| - 2);
        assert false;
      }
    }
  }

  lemma Concatenate(c: Catalog, p: seq<RoleId>, q: seq<RoleId>)
    requires IsPath(c, p) && IsPath(c, q) && p[|p| - 1] == q[0]
    ensures var r := p + q[1..];
      PathFrom(c, p[0], r) && r[|r| - 1] == q[|q| - 1] && |r| == |p| + |q| - 1
      && (|p| >= 2 || |q| >= 2 ==> ProperlyReaches(c, p[0], q[|q| - 1]))
      && Reaches(c, p[0], q[|q| - 1])
  {
    var r := p + q[1..];
    forall i | 0 <= i < |r| - 1
      ensures r[i] in c && r[i + 1] in c[r[i]].parents
    {
      if i < |p| - 1 {
        assert r[i] == p[i] && r[i + 1] == p[i + 1];
      } else {
        assert r[i] == q[i - |p| + 1] && r[i + 1] == q[i - |p| + 2];
      }
    }
  }
}
