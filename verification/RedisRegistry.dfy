/** The Redis revocation registry: one hash per target, replaced by an atomic script that orders
markers by decimal text.  It is held against the process-local registry. */
module RedisRegistry {
  import opened Prelude
  import opened DecimalText
  import opened Authorization
  import opened Revocation

  /** The fields of one hash; the payload stands for its encoded text, which determines the marker. */
  datatype MarkerHash = MarkerHash(orderKind: Option<string>, orderValue: Option<string>, payload: Option<Marker>)

  const NoHash := MarkerHash(None, None, None)

  const STATE_VERSION: string := "state_version"
  const REVOKED_AT: string := "revoked_at"

  function OrderKind(m: Marker): string {
    if m.version.Some? then STATE_VERSION else REVOKED_AT
  }

  function OrderNumber(m: Marker): int {
    if m.version.Some? then m.version.value else m.revokedAt
  }

  function HashOf(m: Marker): MarkerHash {
    MarkerHash(Some(OrderKind(m)), Some(IntText(OrderNumber(m))), Some(m))
  }

  function HashOfHeld(held: Option<Marker>): MarkerHash {
    if held.None? then NoHash else HashOf(held.value)
  }

  /** What the script answers: 1, 0, -2 and -3. */
  datatype ScriptResult = Stored | Older | Conflict | Invalid

  function AsRecording(result: ScriptResult): Option<Recording> {
    match result
    case Stored => Some(Accepted)
    case Older => Some(Ignored)
    case Conflict => Some(Conflicting)
    case Invalid => None
  }

  /** The script: its answer, and the hash it leaves. */
  function RecordScript(h: MarkerHash, kind: string, value: string, payload: Marker): (ScriptResult, MarkerHash) {
    var replaced := MarkerHash(Some(kind), Some(value), Some(payload));
    if h.orderKind.None? then (Stored, replaced)
    else if h.orderKind.value != kind || h.orderValue.None? || h.payload.None? then (Invalid, h)
    else
      match CompareDecimal(value, h.orderValue.value)
      case None => (Invalid, h)
      case Some(comparison) =>
        if comparison < 0 then (Older, h)
        else if comparison == 0 then (if h.payload.value == payload then Stored else Conflict, h)
        else (Stored, replaced)
  }

  /** The script's call for a marker. */
  function RecordMarker(h: MarkerHash, m: Marker): (ScriptResult, MarkerHash) {
    RecordScript(h, OrderKind(m), IntText(OrderNumber(m)), m)
  }

  /** Both markers carry an order the script can compare. */
  predicate Comparable(held: Option<Marker>, m: Marker) {
    held.None? || (OrderKind(held.value) == OrderKind(m) && OrderNumber(held.value) >= 0 && OrderNumber(m) >= 0)
  }

  /** The script accepts, ignores or refuses a marker as the process-local registry does exactly when
  the two orders are comparable, and then leaves the hash of the marker that registry holds;
  otherwise it reports the hash as invalid and leaves it alone. */
  lemma ScriptAgreesExactly(held: Option<Marker>, m: Marker)
    ensures Comparable(held, m) <==> AsRecording(RecordMarker(HashOfHeld(held), m).0) == Some(Judge(held, m))
    ensures Comparable(held, m) ==>
      RecordMarker(HashOfHeld(held), m).1 == HashOfHeld(if Judge(held, m).Accepted? then Some(m) else held)
    ensures !Comparable(held, m) ==> RecordMarker(HashOfHeld(held), m) == (Invalid, HashOfHeld(held))
  {
    if held.Some? {
      CompareDecimalExact(OrderNumber(m), OrderNumber(held.value));
    }
  }

  type Hashes = map<Target, MarkerHash>

  function HashAt(hashes: Hashes, key: Target): MarkerHash {
    if key in hashes then hashes[key] else NoHash
  }

  /** The server holds exactly what the process-local registry would. */
  ghost predicate Mirrors(hashes: Hashes, ms: Markers) {
    forall key: Target :: HashAt(hashes, key) == HashOfHeld(Held(ms, key.0, key.1))
  }

  datatype RecordError = Unreachable | Conflicted | Corrupt

  class RedisRevocationRegistry {
    var hashes: Hashes

    constructor ()
      ensures Mirrors(hashes, map[])
    {
      hashes := map[];
    }

    /** The atomic script, HGET by HGET and then one HSET. */
    method Evaluate(key: Target, kind: string, value: string, payload: Marker) returns (result: ScriptResult)
      modifies this
      ensures result == RecordScript(HashAt(old(hashes), key), kind, value, payload).0
      ensures HashAt(hashes, key) == RecordScript(HashAt(old(hashes), key), kind, value, payload).1
      ensures forall k: Target :: k != key ==> HashAt(hashes, k) == HashAt(old(hashes), k)
    {
      var current := HashAt(hashes, key);
      if current.orderKind.Some? {
        if current.orderKind.value != kind || current.orderValue.None? || current.payload.None? { return Invalid; }
        var comparison := CompareDecimal(value, current.orderValue.value);
        if comparison.None? { return Invalid; }
        if comparison.value < 0 { return Older; }
        if comparison.value == 0 {
          if current.payload.value == payload { return Stored; }
          return Conflict;
        }
      }
      hashes := hashes[key := MarkerHash(Some(kind), Some(value), Some(payload))];
      return Stored;
    }

    /** Records as the process-local registry does; what the script cannot order is reported and dropped. */
    method Record(marker: Marker, ghost ms: Markers) returns (error: Option<RecordError>)
      requires Mirrors(hashes, ms)
      modifies this
      ensures var held := Held(ms, marker.target, marker.id);
        && Mirrors(hashes, if error == Some(Unreachable) || !Comparable(held, marker) then ms else Recorded(ms, marker))
        && (error != Some(Unreachable) ==>
              error == if !Comparable(held, marker) then Some(Corrupt)
                       else if Judge(held, marker).Conflicting? then Some(Conflicted)
                       else None)
    {
      var down: bool := *;
      if down { return Some(Unreachable); }
      ghost var key := (marker.target, marker.id);
      ScriptAgreesExactly(Held(ms, marker.target, marker.id), marker);
      assert HashAt(hashes, key) == HashOfHeld(Held(ms, key.0, key.1));
      var result := Evaluate((marker.target, marker.id), OrderKind(marker), IntText(OrderNumber(marker)), marker);
      error := match result
        case Conflict => Some(Conflicted)
        case Invalid => Some(Corrupt)
        case _ => None;
    }
  }

  // ---------------------------------------------------------------- whole histories

  function StoreAll(hashes: Hashes, arrivals: seq<Marker>): Hashes
    decreases |arrivals|
  {
    if arrivals == [] then hashes
    else
      var key := (arrivals[0].target, arrivals[0].id);
      StoreAll(hashes[key := RecordMarker(HashAt(hashes, key), arrivals[0]).1], arrivals[1..])
  }

  /** On versioned markers, of any targets and in any order, the server and the process-local registry
  never part. */
  lemma {:induction false} RegistriesNeverPart(hashes: Hashes, ms: Markers, arrivals: seq<Marker>)
    requires Mirrors(hashes, ms) && forall key :: key in ms ==> ms[key].version.Some?
    requires forall m :: m in arrivals ==> m.version.Some?
    ensures Mirrors(StoreAll(hashes, arrivals), RecordAll(ms, arrivals))
    decreases |arrivals|
  {
    if arrivals != [] {
      var m := arrivals[0];
      var key := (m.target, m.id);
      assert HashAt(hashes, key) == HashOfHeld(Held(ms, m.target, m.id));
      ScriptAgreesExactly(Held(ms, m.target, m.id), m);
      RegistriesNeverPart(hashes[key := RecordMarker(HashAt(hashes, key), m).1], Recorded(ms, m), arrivals[1..]);
    }
  }

  /** So the server too ends with the newest marker of a target, whatever the order of arrival. */
  lemma {:induction false} ServerConverges(arrivals: seq<Marker>, target: RevocationTarget, id: nat)
    requires arrivals != [] && Compatible(arrivals, target, id)
    ensures exists m :: Newest(m, arrivals) && HashAt(StoreAll(map[], arrivals), (target, id)) == HashOf(m)
  {
    RegistriesNeverPart(map[], map[], arrivals);
    RegistryConverges(arrivals, target, id);
    var m := Held(RecordAll(map[], arrivals), target, id).value;
    assert HashAt(StoreAll(map[], arrivals), (target, id)) == HashOf(m);
  }
}
