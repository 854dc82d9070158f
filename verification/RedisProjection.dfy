/** The Redis projection of security-state stamps: an atomic script that lets the stored stamp of a
subject in a tenant only climb. */
module RedisProjection {
  import opened Prelude
  import opened DecimalText
  import opened SecurityState

  /** The stamp's versions in the order of the script's fields. */
  function Components(s: Stamp): (c: seq<nat>)
    ensures |c| == 9
  {
    [s.runtimeGeneration, s.identity, s.tenant, s.membership, s.subjectAuthorization, s.tenantAuthorization,
     s.globalAuthorization, s.governance, s.authentication]
  }

  function Texts(s: Stamp): seq<string> {
    seq(9, i requires 0 <= i < 9 => NatText(Components(s)[i]))
  }

  /** One hash: nine version fields and the encoded stamp, which determines it. */
  datatype StampHash = StampHash(fields: map<nat, string>, payload: Option<Stamp>)

  const NoStamp := StampHash(map[], None)

  /** The fields say in text what the payload says. */
  ghost predicate Consistent(h: StampHash) {
    h.payload.Some? ==> forall i :: 0 <= i < 9 ==> i in h.fields && h.fields[i] == Texts(h.payload.value)[i]
  }

  datatype ProjectResult = Projected | Behind | Malformed

  /** What one field says of a new stamp: it does not fall back, it would, or there is no comparing. */
  predicate FieldSays(h: StampHash, s: Stamp, i: nat, verdict: ProjectResult)
    requires i < 9
  {
    if i !in h.fields || CompareDecimal(Texts(s)[i], h.fields[i]).None? then verdict == Malformed
    else if CompareDecimal(Texts(s)[i], h.fields[i]).value < 0 then verdict == Behind
    else verdict == Projected
  }

  ghost predicate AllPassBefore(h: StampHash, s: Stamp, i: nat)
    requires i <= 9
  {
    forall j :: 0 <= j < i ==> FieldSays(h, s, j, Projected)
  }

  /** The first field that does not let the stamp pass decides. */
  ghost predicate FieldsSay(h: StampHash, s: Stamp, verdict: ProjectResult) {
    if verdict.Projected? then AllPassBefore(h, s, 9)
    else exists i :: 0 <= i < 9 && FieldSays(h, s, i, verdict) && AllPassBefore(h, s, i)
  }

  /** The hash of this stamp: its nine fields and its payload. */
  ghost predicate Writes(h: StampHash, s: Stamp) {
    h.payload == Some(s) && forall i :: 0 <= i < 9 ==> i in h.fields && h.fields[i] == NatText(Components(s)[i])
  }

  type Hashes = map<Pair, StampHash>

  function HashAt(hashes: Hashes, key: Pair): StampHash {
    if key in hashes then hashes[key] else NoStamp
  }

  /** What the stored stamp becomes: a stamp that is lower anywhere is ignored. */
  function Climb(stored: Option<Stamp>, s: Stamp): Option<Stamp> {
    if stored.None? || StampLe(stored.value, s) then Some(s) else stored
  }

  lemma OrderIsComponentwise(a: Stamp, b: Stamp)
    ensures StampLe(a, b) <==> forall i :: 0 <= i < 9 ==> Components(a)[i] <= Components(b)[i]
  {
    if forall i :: 0 <= i < 9 ==> Components(a)[i] <= Components(b)[i] {
      var x, y := Components(a), Components(b);
      assert x[0] <= y[0] && x[1] <= y[1] && x[2] <= y[2] && x[3] <= y[3] && x[4] <= y[4];
      assert x[5] <= y[5] && x[6] <= y[6] && x[7] <= y[7] && x[8] <= y[8];
    }
  }

  class RedisSecurityStateProjection {
    var hashes: Hashes

    constructor ()
      ensures hashes == map[]
    {
      hashes := map[];
    }

    /** The stored stamp, as `get` returns it. */
    function Stored(key: Pair): Option<Stamp>
      reads this
    {
      HashAt(hashes, key).payload
    }

    /** The script's first loop: every field of the new stamp against the stored one. */
    method CompareFields(h: StampHash, s: Stamp) returns (result: ProjectResult)
      requires h.payload.Some?
      ensures FieldsSay(h, s, result)
      ensures Consistent(h) ==> result == if StampLe(h.payload.value, s) then Projected else Behind
    {
      var values := Texts(s);
      OrderIsComponentwise(h.payload.value, s);
      for index := 0 to 9
        invariant forall i :: 0 <= i < index ==> FieldSays(h, s, i, Projected)
        invariant Consistent(h) ==> forall i :: 0 <= i < index ==> Components(h.payload.value)[i] <= Components(s)[i]
      {
        if index !in h.fields {
          assert FieldSays(h, s, index, Malformed);
          return Malformed;
        }
        CompareDecimalExact(Components(s)[index], Components(h.payload.value)[index]);
        var comparison := CompareDecimal(values[index], h.fields[index]);
        if comparison.None? {
          assert FieldSays(h, s, index, Malformed);
          return Malformed;
        }
        if comparison.value < 0 {
          assert FieldSays(h, s, index, Behind);
          return Behind;
        }
        assert FieldSays(h, s, index, Projected);
      }
      result := Projected;
    }

    /** The atomic script: with no stamp stored, or with one whose fields let the new one pass, the new one is written;
    otherwise nothing is. */
    method Evaluate(key: Pair, s: Stamp) returns (result: ProjectResult)
      modifies this
      ensures var h := HashAt(old(hashes), key); if h.payload.None? then result.Projected? else FieldsSay(h, s, result)
      ensures if result.Projected? then key in hashes && Writes(hashes[key], s) else hashes == old(hashes)
      ensures Consistent(HashAt(old(hashes), key)) ==>
        && !result.Malformed? && Consistent(HashAt(hashes, key))
        && Stored(key) == Climb(HashAt(old(hashes), key).payload, s)
      ensures forall k: Pair :: k != key ==> HashAt(hashes, k) == HashAt(old(hashes), k)
    {
      var current := HashAt(hashes, key);
      if current.payload.Some? {
        var comparison := CompareFields(current, s);
        if !comparison.Projected? { return comparison; }
      }
      var fields := current.fields;
      for index := 0 to 9
        invariant forall i :: 0 <= i < index ==> i in fields && fields[i] == Texts(s)[i]
      {
        fields := fields[index := Texts(s)[index]];
      }
      hashes := hashes[key := StampHash(fields, Some(s))];
      result := Projected;
    }

    /** Best effort: an unreachable server is ignored, a malformed hash is deleted.  A consistent hash
    stays consistent, and its stamp only climbs. */
    method Project(key: Pair, s: Stamp) returns (reached: bool)
      modifies this
      ensures !reached ==> hashes == old(hashes)
      ensures !reached || Stored(key) == Some(s) || hashes == old(hashes)
        || (key !in hashes && FieldsSay(HashAt(old(hashes), key), s, Malformed))
      ensures Consistent(HashAt(old(hashes), key)) ==>
        && Consistent(HashAt(hashes, key))
        && Stored(key) == if reached then Climb(HashAt(old(hashes), key).payload, s)
          else HashAt(old(hashes), key).payload
      ensures forall k: Pair :: k != key ==> HashAt(hashes, k) == HashAt(old(hashes), k)
    {
      var down: bool := *;
      if down { return false; }
      var result := Evaluate(key, s);
      if result.Malformed? {
        var deleted: bool := *;
        if deleted { hashes := map k | k in hashes && k != key :: hashes[k]; }
      }
      reached := true;
    }
  }

  // ---------------------------------------------------------------- convergence

  function ClimbAll(stored: Option<Stamp>, arrivals: seq<Stamp>): Option<Stamp>
    decreases |arrivals|
  {
    if arrivals == [] then stored else ClimbAll(Climb(stored, arrivals[0]), arrivals[1..])
  }

  /** The stored stamp only climbs, whatever arrives. */
  lemma {:induction false} OnlyClimbs(stored: Stamp, arrivals: seq<Stamp>)
    ensures ClimbAll(Some(stored), arrivals).Some? && StampLe(stored, ClimbAll(Some(stored), arrivals).value)
    decreases |arrivals|
  {
    if arrivals != [] { OnlyClimbs(Climb(Some(stored), arrivals[0]).value, arrivals[1..]); }
  }

  ghost predicate Chain(arrivals: seq<Stamp>) {
    forall a, b :: a in arrivals && b in arrivals ==> StampLe(a, b) || StampLe(b, a)
  }

  ghost predicate Greatest(m: Stamp, arrivals: seq<Stamp>) {
    m in arrivals && forall x :: x in arrivals ==> StampLe(x, m)
  }

  lemma {:induction false} ClimbsToGreatest(stored: Stamp, arrivals: seq<Stamp>)
    requires Chain([stored] + arrivals)
    ensures ClimbAll(Some(stored), arrivals).Some?
      && Greatest(ClimbAll(Some(stored), arrivals).value, [stored] + arrivals)
    decreases |arrivals|
  {
    assert stored in [stored] + arrivals;
    if arrivals != [] {
      var next := Climb(Some(stored), arrivals[0]).value;
      assert arrivals[0] in [stored] + arrivals;
      assert forall x :: x in [next] + arrivals[1..] ==> x in [stored] + arrivals;
      ClimbsToGreatest(next, arrivals[1..]);
      var last := ClimbAll(Some(stored), arrivals).value;
      assert next in [next] + arrivals[1..];
      forall x | x in [stored] + arrivals
        ensures StampLe(x, last)
      {
        if x != stored && x != arrivals[0] { assert x in [next] + arrivals[1..]; }
      }
    }
  }

  function BumpEach(v: Versions, bumps: seq<Dimension>): Versions
    decreases |bumps|
  {
    if bumps == [] then v else BumpEach(Bump(v, bumps[0]), bumps[1..])
  }

  lemma {:induction false} LaterIsGreater(v: Versions, bumps: seq<Dimension>, i: IdentityId, t: TenantId)
    ensures StampLe(StampFor(v, i, t), StampFor(BumpEach(v, bumps), i, t))
    decreases |bumps|
  {
    if bumps != [] {
      BumpExact(v, bumps[0], i, t);
      LaterIsGreater(Bump(v, bumps[0]), bumps[1..], i, t);
    }
  }

  lemma {:induction false} BumpsCompose(v: Versions, a: seq<Dimension>, b: seq<Dimension>)
    ensures BumpEach(v, a + b) == BumpEach(BumpEach(v, a), b)
    decreases |a|
  {
    if a == [] {
      assert [] + b == b;
    } else {
      assert (a + b)[1..] == a[1..] + b;
      BumpsCompose(Bump(v, a[0]), a[1..], b);
    }
  }

  /** The stamps that readers of the monotone store saw at some points of its history. */
  ghost predicate ReadFrom(arrivals: seq<Stamp>, bumps: seq<Dimension>, i: IdentityId, t: TenantId) {
    forall s :: s in arrivals ==> exists k :: 0 <= k <= |bumps| && s == StampFor(BumpEach(NoVersions, bumps[..k]), i, t)
  }

  lemma ReadsFormChain(arrivals: seq<Stamp>, bumps: seq<Dimension>, i: IdentityId, t: TenantId)
    requires ReadFrom(arrivals, bumps, i, t)
    ensures Chain(arrivals)
  {
    forall a, b | a in arrivals && b in arrivals
      ensures StampLe(a, b) || StampLe(b, a)
    {
      var j :| 0 <= j <= |bumps| && a == StampFor(BumpEach(NoVersions, bumps[..j]), i, t);
      var k :| 0 <= k <= |bumps| && b == StampFor(BumpEach(NoVersions, bumps[..k]), i, t);
      var low, high := if j <= k then j else k, if j <= k then k else j;
      assert bumps[..high] == bumps[..low] + bumps[low..high];
      BumpsCompose(NoVersions, bumps[..low], bumps[low..high]);
      LaterIsGreater(BumpEach(NoVersions, bumps[..low]), bumps[low..high], i, t);
    }
  }

  /** Stamps read from the store and projected late, repeatedly and in any order leave the greatest. */
  lemma {:induction false} ProjectionConverges(arrivals: seq<Stamp>, bumps: seq<Dimension>, i: IdentityId, t: TenantId)
    requires arrivals != [] && ReadFrom(arrivals, bumps, i, t)
    ensures ClimbAll(None, arrivals).Some? && Greatest(ClimbAll(None, arrivals).value, arrivals)
  {
    ReadsFormChain(arrivals, bumps, i, t);
    assert [arrivals[0]] + arrivals[1..] == arrivals;
    ClimbsToGreatest(arrivals[0], arrivals[1..]);
  }
}
