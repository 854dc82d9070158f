/** Shared vocabulary: optional values, outcomes, identifiers, time and sorted iteration.
Identifiers are totally ordered (the program orders them by their canonical text), so each
identifier type is a `nat`.  Instants are integers: microseconds on the UTC time line. */
module Prelude {

  datatype Option<+T> = None | Some(value: T)

  datatype Result<+T, +E> = Ok(value: T) | Err(error: E)

  type Time = int
  type IdentityId = nat
  type TenantId = nat
  type MembershipId = nat
  type RoleId = nat
  type BindingId = nat
  type RuleId = nat
  type PermissionCode = string

  lemma MinimumExists(s: set<nat>)
    requires s != {}
    ensures exists m :: IsLeast(m, s)
  {
    var x :| x in s;
    if s == {x} {
      assert IsLeast(x, s);
    } else {
      MinimumExists(s - {x});
      var m :| IsLeast(m, s - {x});
      forall y | y in s ensures (if m < x then m else x) <= y {
        if y != x { assert y in s - {x}; }
      }
      assert IsLeast(if m < x then m else x, s);
    }
  }

  predicate IsLeast(m: nat, s: set<nat>) {
    m in s && forall x :: x in s ==> m <= x
  }

  function Least(s: set<nat>): (m: nat)
    requires s != {}
    ensures IsLeast(m, s)
  {
    MinimumExists(s);
    var m :| m in s && IsLeast(m, s);
    m
  }

  /** The elements of `s` in increasing order: the program's `sorted(ids, key=str)`. */
  function Sorted(s: set<nat>): (r: seq<nat>)
    ensures |r| == |s|
    ensures forall x: nat :: x in r <==> x in s
    ensures forall i, j :: 0 <= i < j < |r| ==> r[i] < r[j]
    decreases |s|
  {
    if s == {} then [] else
      var m := Least(s);
      var rest := Sorted(s - {m});
      assert forall x: nat :: x in [m] + rest <==> x == m || x in rest;
      [m] + rest
  }
}
