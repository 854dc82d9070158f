/** The subscriber of invalidation messages: it drops events it has seen, from a bounded memory, and
events that are not newer than the last one handled on their stream. */
module InvalidationSubscriber {
  import opened Prelude

  type EventId = nat

  datatype Kind = IdentityKind | TenantKind | MembershipKind | AuthorizationKind | GovernanceKind | AuthenticationKind

  datatype Stream = Stream(kind: Kind, target: string, tenant: Option<TenantId>)

  datatype Event = Event(id: EventId, stream: Stream, version: nat)

  /** What the subscriber remembers; `ids` is the set of the identifiers in `order`. */
  datatype Memory = Memory(order: seq<EventId>, ids: set<EventId>, latest: map<Stream, nat>)

  const Blank := Memory([], {}, map[])

  ghost predicate Tidy(m: Memory, max: nat) {
    && (forall id :: id in m.ids <==> id in m.order)
    && (forall i, j :: 0 <= i < j < |m.order| ==> m.order[i] != m.order[j])
    && |m.order| <= max
  }

  function Remembering(m: Memory, max: nat, id: EventId): Memory
    requires max >= 1
  {
    if |m.order| < max then m.(order := m.order + [id], ids := m.ids + {id})
    else Forget(m.(order := m.order + [id], ids := m.ids + {id}), max)
  }

  function Forget(m: Memory, max: nat): Memory
    decreases |m.order|
  {
    if |m.order| <= max then m else Forget(m.(order := m.order[1..], ids := m.ids - {m.order[0]}), max)
  }

  predicate Stale(m: Memory, e: Event) {
    e.stream in m.latest && e.version <= m.latest[e.stream]
  }

  /** `handle_event`; `willing` is what the handler answers when it is asked. */
  function Step(m: Memory, max: nat, e: Event, willing: bool): (Memory, bool)
    requires max >= 1
  {
    if e.id in m.ids then (m, false)
    else if Stale(m, e) then (Remembering(m, max, e.id), false)
    else if !willing then (m, false)
    else (Remembering(m.(latest := m.latest[e.stream := e.version]), max, e.id), true)
  }

  lemma {:induction false} ForgetOne(m: Memory, max: nat)
    requires |m.order| == max + 1
    ensures Forget(m, max) == m.(order := m.order[1..], ids := m.ids - {m.order[0]})
  {
  }

  lemma RememberTidy(m: Memory, max: nat, id: EventId)
    requires max >= 1 && Tidy(m, max) && id !in m.ids
    ensures Tidy(Remembering(m, max, id), max) && Remembering(m, max, id).latest == m.latest
    ensures Remembering(m, max, id).ids <= m.ids + {id}
  {
    var added := m.(order := m.order + [id], ids := m.ids + {id});
    if |m.order| == max {
      ForgetOne(added, max);
      assert forall x :: x in added.order <==> x == added.order[0] || x in added.order[1..];
    }
  }

  /** The identifiers remembered are the last ones, each once and no more than `max`. */
  predicate Remembers(m: Memory, max: nat, id: EventId, m': Memory)
    requires m'.order != [] && max >= 1
  {
    && |m'.order| == (if |m.order| < max then |m.order| + 1 else max)
    && m'.order[|m'.order| - 1] == id
    && m'.order[..|m'.order| - 1] == (if |m.order| < max then m.order else m.order[1..])
  }

  lemma RememberExact(m: Memory, max: nat, id: EventId)
    requires max >= 1 && Tidy(m, max) && id !in m.ids
    ensures var m' := Remembering(m, max, id);
      m'.latest == m.latest && Tidy(m', max) && m'.order != [] && Remembers(m, max, id, m')
  {
    RememberTidy(m, max, id);
    if |m.order| == max { ForgetOne(m.(order := m.order + [id], ids := m.ids + {id}), max); }
  }

  /** The event is newer than the last one handled on its stream. */
  predicate Newer(m: Memory, e: Event) {
    e.stream in m.latest ==> m.latest[e.stream] < e.version
  }

  /** What one message comes to.  An event is handled exactly when it is not remembered, is newer than the last one of
  its stream, and the handler takes it.  An event that is remembered changes nothing, nor does one the handler refuses,
  so that it can be delivered again; handled and outdated events are remembered. */
  lemma StepExact(m: Memory, max: nat, e: Event, willing: bool)
    requires max >= 1 && Tidy(m, max)
    ensures Step(m, max, e, willing).1 <==> e.id !in m.order && Newer(m, e) && willing
    ensures Step(m, max, e, willing).0.latest
      == if Step(m, max, e, willing).1 then m.latest[e.stream := e.version] else m.latest
    ensures e.id in m.order || (Newer(m, e) && !willing) ==> Step(m, max, e, willing).0 == m
    ensures e.id !in m.order && (Newer(m, e) ==> willing) ==>
      Step(m, max, e, willing).0.order != [] && Remembers(m, max, e.id, Step(m, max, e, willing).0)
  {
    assert e.id in m.ids <==> e.id in m.order;
    if e.id !in m.ids {
      if Stale(m, e) {
        RememberExact(m, max, e.id);
      } else if willing {
        var noted := m.(latest := m.latest[e.stream := e.version]);
        RememberExact(noted, max, e.id);
        assert Step(m, max, e, willing) == (Remembering(noted, max, e.id), true);
      }
    }
  }

  // ---------------------------------------------------------------- the program's object

  class RedisInvalidationSubscriber {
    const max: nat
    var seenOrder: seq<EventId>
    var seenIds: set<EventId>
    var latestVersions: map<Stream, nat>
    ghost var handled: seq<Event>

    ghost function Mind(): Memory
      reads this
    {
      Memory(seenOrder, seenIds, latestVersions)
    }

    ghost predicate Valid()
      reads this
    {
      && max >= 1 && Tidy(Mind(), max) && ClimbsPerStream(handled)
      && (forall e :: e in handled ==> Stale(Mind(), e))
    }

    constructor (max: nat := 10000)
      requires max >= 1
      ensures Valid() && this.max == max && Mind() == Blank && handled == []
    {
      this.max := max;
      seenOrder, seenIds, latestVersions := [], {}, map[];
      handled := [];
    }

    method Remember(id: EventId)
      requires max >= 1
      modifies this`seenOrder, this`seenIds
      ensures Mind() == Remembering(old(Mind()), max, id)
    {
      seenOrder := seenOrder + [id];
      seenIds := seenIds + {id};
      ghost var added := Mind();
      while |seenOrder| > max
        invariant latestVersions == added.latest
        invariant Forget(Mind(), max) == Forget(added, max)
      {
        var expired := seenOrder[0];
        seenOrder := seenOrder[1..];
        seenIds := seenIds - {expired};
      }
    }

    /** The handler is asked at most once, and only for an event newer than all it has handled on the
    stream; what it has handled keeps climbing, stream by stream. */
    method HandleEvent(e: Event) returns (done: bool, ghost willing: bool)
      requires Valid()
      modifies this
      ensures Valid()
      ensures (Mind(), done) == Step(old(Mind()), max, e, willing)
      ensures handled == if done then old(handled) + [e] else old(handled)
    {
      var answer: bool := *;
      willing := answer;
      if e.id in seenIds { return false, willing; }
      RememberTidy(Mind(), max, e.id);
      if e.stream in latestVersions && e.version <= latestVersions[e.stream] {
        Remember(e.id);
        return false, willing;
      }
      if !answer { return false, willing; }
      ExtendClimb(handled, e, Mind());
      latestVersions := latestVersions[e.stream := e.version];
      RememberTidy(Mind(), max, e.id);
      Remember(e.id);
      handled := handled + [e];
      done := true;
    }
  }

  // ---------------------------------------------------------------- what is handled

  /** Versions strictly increase along every stream; so no event is there twice. */
  ghost predicate ClimbsPerStream(es: seq<Event>) {
    forall i, j :: 0 <= i < j < |es| && es[i].stream == es[j].stream ==> es[i].version < es[j].version
  }

  lemma ExtendClimb(es: seq<Event>, e: Event, m: Memory)
    requires ClimbsPerStream(es) && !Stale(m, e) && forall x :: x in es ==> Stale(m, x)
    ensures ClimbsPerStream(es + [e])
  {
    forall i, j | 0 <= i < j < |es + [e]| && (es + [e])[i].stream == (es + [e])[j].stream
      ensures (es + [e])[i].version < (es + [e])[j].version
    {
      if j == |es| { assert Stale(m, es[i]); }
    }
  }

  type Message = (Event, bool)

  function After(m: Memory, max: nat, messages: seq<Message>): Memory
    requires max >= 1
    decreases |messages|
  {
    if messages == [] then m else After(Step(m, max, messages[0].0, messages[0].1).0, max, messages[1..])
  }

  function Handled(m: Memory, max: nat, messages: seq<Message>): seq<Event>
    requires max >= 1
    decreases |messages|
  {
    if messages == [] then []
    else
      var (m', done) := Step(m, max, messages[0].0, messages[0].1);
      (if done then [messages[0].0] else []) + Handled(m', max, messages[1..])
  }

  lemma StepTidy(m: Memory, max: nat, e: Event, willing: bool)
    requires max >= 1 && Tidy(m, max)
    ensures Tidy(Step(m, max, e, willing).0, max)
    ensures var (m', done) := Step(m, max, e, willing);
      && m'.latest == (if done then m.latest[e.stream := e.version] else m.latest)
      && (done <==> willing && e.id !in m.ids && !Stale(m, e))
      && m'.ids <= m.ids + {e.id}
      && (e.id in m'.ids && e.id !in m.ids ==> Stale(m', e))
  {
    if e.id !in m.ids {
      RememberTidy(m, max, e.id);
      RememberTidy(m.(latest := m.latest[e.stream := e.version]), max, e.id);
    }
  }

  /** Over any run of messages, in any order, repeated or refused, with identifiers forgotten along the
  way: what is handled climbs along every stream, and never goes back below where it started. */
  lemma {:induction false} HandledClimbs(m: Memory, max: nat, messages: seq<Message>)
    requires max >= 1 && Tidy(m, max)
    ensures Tidy(After(m, max, messages), max)
    ensures ClimbsPerStream(Handled(m, max, messages))
    ensures forall e :: e in Handled(m, max, messages) ==> !Stale(m, e) && (e, true) in messages
    decreases |messages|
  {
    if messages != [] {
      var first := messages[0];
      var (m', done) := Step(m, max, first.0, first.1);
      StepTidy(m, max, first.0, first.1);
      HandledClimbs(m', max, messages[1..]);
      var rest := Handled(m', max, messages[1..]);
      forall e | e in rest
        ensures !Stale(m, e) && (e, true) in messages
          && (done ==> e.stream == first.0.stream ==> first.0.version < e.version)
      {
        assert (e, true) in messages[1..];
      }
    }
  }

  // ---------------------------------------------------------------- the size of the memory does not matter

  /** An identifier belongs to one event. */
  type Registry = map<EventId, Event>

  ghost predicate Known(known: Registry, messages: seq<Message>) {
    forall x :: x in messages ==> x.0.id in known && known[x.0.id] == x.0
  }

  /** Every remembered event is one that its stream has reached. */
  ghost predicate Settled(m: Memory, known: Registry) {
    forall id :: id in m.ids ==> id in known && Stale(m, known[id])
  }

  lemma StepSettled(m: Memory, max: nat, e: Event, willing: bool, known: Registry)
    requires max >= 1 && Tidy(m, max) && Settled(m, known) && e.id in known && known[e.id] == e
    ensures var (m', done) := Step(m, max, e, willing);
      && Tidy(m', max) && Settled(m', known)
      && m'.latest == (if done then m.latest[e.stream := e.version] else m.latest)
      && (done <==> willing && !Stale(m, e))
  {
    StepTidy(m, max, e, willing);
    var m' := Step(m, max, e, willing).0;
    forall id | id in m'.ids
      ensures id in known && Stale(m', known[id])
    {
      if id in m.ids { assert Stale(m, known[id]); }
    }
  }

  /** The memory of identifiers only saves work: whatever its size, the same events are handled, and
  the streams end where they would with any other size. */
  lemma {:induction false} MemoryIsRedundant(a: Memory, maxA: nat, b: Memory, maxB: nat, messages: seq<Message>,
                                             known: Registry)
    requires maxA >= 1 && maxB >= 1 && Tidy(a, maxA) && Tidy(b, maxB)
    requires Settled(a, known) && Settled(b, known) && Known(known, messages) && a.latest == b.latest
    ensures Handled(a, maxA, messages) == Handled(b, maxB, messages)
    ensures After(a, maxA, messages).latest == After(b, maxB, messages).latest
    decreases |messages|
  {
    if messages != [] {
      var (e, willing) := messages[0];
      assert messages[0] in messages;
      StepSettled(a, maxA, e, willing, known);
      StepSettled(b, maxB, e, willing, known);
      MemoryIsRedundant(Step(a, maxA, e, willing).0, maxA, Step(b, maxB, e, willing).0, maxB, messages[1..], known);
    }
  }

  /** With a handler that never refuses, every stream ends at the greatest version that arrived. */
  lemma {:induction false} StreamsCatchUp(m: Memory, max: nat, messages: seq<Message>, known: Registry)
    requires max >= 1 && Tidy(m, max) && Settled(m, known) && Known(known, messages)
    requires forall x :: x in messages ==> x.1
    ensures var end := After(m, max, messages);
      && (forall x :: x in messages ==> Stale(end, x.0))
      && (forall s :: s in m.latest ==> s in end.latest && m.latest[s] <= end.latest[s])
      && (forall s :: s in end.latest ==>
            (s in m.latest && m.latest[s] == end.latest[s])
            || exists x :: x in messages && x.0.stream == s && x.0.version == end.latest[s])
    decreases |messages|
  {
    if messages != [] {
      var (e, willing) := messages[0];
      assert messages[0] in messages;
      StepSettled(m, max, e, willing, known);
      var m' := Step(m, max, e, willing).0;
      StreamsCatchUp(m', max, messages[1..], known);
      var end := After(m, max, messages);
      assert Stale(m', e) && Stale(end, e);
      forall s | s in end.latest && !(s in m.latest && m.latest[s] == end.latest[s])
        ensures exists x :: x in messages && x.0.stream == s && x.0.version == end.latest[s]
      {
        if s in m'.latest && m'.latest[s] == end.latest[s] {
          assert messages[0].0.stream == s;
        } else {
          var x :| x in messages[1..] && x.0.stream == s && x.0.version == end.latest[s];
          assert x in messages;
        }
      }
    }
  }
}
