/** Deny-fast revocation markers and the registry that keeps the newest marker of each target. */
module Revocation {
  import opened Prelude
  import opened Authorization

  datatype Marker = Marker(
    target: RevocationTarget,
    id: nat,
    revokedAt: Time,
    reason: string,
    tenant: Option<TenantId>,
    expiresAt: Option<Time>,
    version: Option<nat>)
  {
    /** What the constructor demands: a version for every target that can be reactivated. */
    predicate WellFormed() {
      (target != SessionTarget ==> version.Some?) && (expiresAt.Some? ==> expiresAt.value > revokedAt)
    }

    predicate IsActive(at: Time) { revokedAt <= at && (expiresAt.None? || at < expiresAt.value) }

    predicate AppliesTo(current: nat) { version.None? || version.value >= current }
  }

  type Target = (RevocationTarget, nat)
  type Markers = map<Target, Marker>

  predicate IsOlder(candidate: Marker, existing: Marker) {
    if candidate.version.Some? && existing.version.Some? then candidate.version.value < existing.version.value
    else candidate.revokedAt < existing.revokedAt
  }

  predicate SameRevision(candidate: Marker, existing: Marker) {
    if candidate.version.Some? && existing.version.Some? then candidate.version.value == existing.version.value
    else candidate.revokedAt == existing.revokedAt
  }

  datatype Recording = Accepted | Ignored | Conflicting

  /** What the registry does with a marker, given the one it holds for the same target. */
  function Judge(existing: Option<Marker>, marker: Marker): Recording {
    if existing.None? || existing.value == marker then Accepted
    else if IsOlder(marker, existing.value) then Ignored
    else if SameRevision(marker, existing.value) then Conflicting
    else Accepted
  }

  function Held(ms: Markers, target: RevocationTarget, id: nat): Option<Marker> {
    if (target, id) in ms then Some(ms[(target, id)]) else None
  }

  function Recorded(ms: Markers, marker: Marker): Markers {
    if Judge(Held(ms, marker.target, marker.id), marker).Accepted? then ms[(marker.target, marker.id) := marker] else ms
  }

  datatype RegistryError = RegistryUnavailable

  /** The process-local registry, reached over something that may fail at any call. */
  class RevocationRegistry {
    var markers: Markers
    /** The calls that found it out of reach. */
    ghost var failures: nat

    constructor ()
      ensures markers == map[] && failures == 0
    {
      markers, failures := map[], 0;
    }

    method Lookup(target: RevocationTarget, id: nat) returns (found: Result<Option<Marker>, RegistryError>)
      modifies this`failures
      ensures found.Ok? ==> found.value == Held(markers, target, id)
      ensures failures == old(failures) + if found.Ok? then 0 else 1
    {
      var down: bool := *;
      if down {
        failures := failures + 1;
        return Err(RegistryUnavailable);
      }
      found := Ok(if (target, id) in markers then Some(markers[(target, id)]) else None);
    }

    /** None: the registry could not be reached, and nothing was recorded. */
    method Record(marker: Marker) returns (outcome: Option<Recording>)
      modifies this
      ensures outcome.Some? ==> outcome.value == Judge(Held(old(markers), marker.target, marker.id), marker)
      ensures markers == if outcome.Some? then Recorded(old(markers), marker) else old(markers)
      ensures failures == old(failures) + if outcome.Some? then 0 else 1
    {
      var down: bool := *;
      if down {
        failures := failures + 1;
        return None;
      }
      var key := (marker.target, marker.id);
      if key !in markers || markers[key] == marker {
        markers := markers[key := marker];
        return Some(Accepted);
      }
      var existing := markers[key];
      if IsOlder(marker, existing) { return Some(Ignored); }
      if SameRevision(marker, existing) { return Some(Conflicting); }
      markers := markers[key := marker];
      return Some(Accepted);
    }
  }

  // ---------------------------------------------------------------- convergence

  function RecordAll(ms: Markers, arrivals: seq<Marker>): Markers
    decreases |arrivals|
  {
    if arrivals == [] then ms else RecordAll(Recorded(ms, arrivals[0]), arrivals[1..])
  }

  /** Versioned markers of one target, no two of them different at the same version. */
  ghost predicate Compatible(arrivals: seq<Marker>, target: RevocationTarget, id: nat) {
    && (forall m :: m in arrivals ==> m.target == target && m.id == id && m.version.Some?)
    && (forall a, b :: a in arrivals && b in arrivals && a.version == b.version ==> a == b)
  }

  ghost predicate Newest(m: Marker, arrivals: seq<Marker>) {
    m in arrivals
      && forall x :: x in arrivals && m.version.Some? && x.version.Some? ==> x.version.value <= m.version.value
  }

  lemma {:induction false} RecordAllKeepsNewest(ms: Markers, arrivals: seq<Marker>, target: RevocationTarget, id: nat,
                                                held: Marker)
    requires Held(ms, target, id) == Some(held) && Compatible([held] + arrivals, target, id)
    ensures Held(RecordAll(ms, arrivals), target, id).Some?
    ensures Newest(Held(RecordAll(ms, arrivals), target, id).value, [held] + arrivals)
    decreases |arrivals|
  {
    assert held in [held] + arrivals;
    if arrivals != [] {
      var first := arrivals[0];
      assert first in [held] + arrivals;
      var ms' := Recorded(ms, first);
      var held' := Held(ms', target, id).value;
      assert forall x :: x in [held'] + arrivals[1..] ==> x in [held] + arrivals;
      RecordAllKeepsNewest(ms', arrivals[1..], target, id, held');
      var last := Held(RecordAll(ms, arrivals), target, id).value;
      assert held' in [held'] + arrivals[1..];
      forall x | x in [held] + arrivals
        ensures x.version.value <= last.version.value
      {
        if x != held && x != first { assert x in [held'] + arrivals[1..]; }
      }
    }
  }

  /** Whatever the order in which compatible markers of one target arrive, the registry ends with the
  newest of them. */
  lemma {:induction false} RegistryConverges(arrivals: seq<Marker>, target: RevocationTarget, id: nat)
    requires arrivals != [] && Compatible(arrivals, target, id)
    ensures Held(RecordAll(map[], arrivals), target, id).Some?
    ensures Newest(Held(RecordAll(map[], arrivals), target, id).value, arrivals)
  {
    var ms := Recorded(map[], arrivals[0]);
    assert [arrivals[0]] + arrivals[1..] == arrivals;
    RecordAllKeepsNewest(ms, arrivals[1..], target, id, arrivals[0]);
  }

  /** So any two arrival orders of the same markers leave the same marker. */
  lemma {:induction false} RegistryOrderless(a: seq<Marker>, b: seq<Marker>, target: RevocationTarget, id: nat)
    requires a != [] && Compatible(a, target, id) && forall m :: m in a <==> m in b
    ensures Held(RecordAll(map[], a), target, id) == Held(RecordAll(map[], b), target, id)
  {
    assert a[0] in b;
    RegistryConverges(a, target, id);
    RegistryConverges(b, target, id);
  }
}
