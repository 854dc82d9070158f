/** The in-memory outbox repository, a list with an index beside it, and the publisher that drains it. */
module OutboxPublisher {
  import opened Prelude
  import opened Outbox

  /** `es'` is `es` with `e` in place of the first event of its identifier. */
  ghost predicate InPlaceOf(es: seq<OutboxEvent>, es': seq<OutboxEvent>, e: OutboxEvent) {
    exists i :: 0 <= i < |es| && es[i].id == e.id && es' == es[i := e]
  }

  class InMemoryOutboxRepository {
    var events: seq<OutboxEvent>
    var byId: map<EventId, OutboxEvent>

    /** The list and the index hold the same events. */
    ghost predicate Consistent()
      reads this
    {
      && UniqueEvents(events) && AllWellFormed(events)
      && (forall e :: e in events ==> e.id in byId && byId[e.id] == e)
      && (forall id :: id in byId ==> byId[id].id == id && byId[id] in events)
    }

    constructor ()
      ensures Consistent() && events == []
    {
      events, byId := [], map[];
    }

    method Append(e: OutboxEvent) returns (error: Option<OutboxError>)
      requires Consistent() && e.WellFormed()
      modifies this
      ensures Consistent()
      ensures error == if e.id in old(byId) then Some(AlreadyExists) else None
      ensures events == if error.None? then old(events) + [e] else old(events)
    {
      if e.id in byId { return Some(AlreadyExists); }
      byId := byId[e.id := e];
      events := events + [e];
      error := None;
    }

    method Deliverable(limit: int) returns (r: Result<seq<OutboxEvent>, OutboxError>)
      ensures r == if limit < 1 then Err(InvalidLimit) else Ok(Selected(events, limit))
    {
      if limit < 1 { return Err(InvalidLimit); }
      r := Ok(Take(Ordered(Deliverables(events)), limit));
    }

    /** Replaces the event in the index and then in the list. */
    method Replace(e: OutboxEvent) returns (error: Option<OutboxError>)
      modifies this
      ensures error == None <==> exists i :: 0 <= i < |old(events)| && old(events)[i].id == e.id
      ensures error == None ==> byId == old(byId)[e.id := e] && InPlaceOf(old(events), events, e)
    {
      byId := byId[e.id := e];
      for index := 0 to |events|
        invariant events == old(events) && byId == old(byId)[e.id := e]
        invariant forall j :: 0 <= j < index ==> events[j].id != e.id
      {
        if events[index].id == e.id {
          events := events[index := e];
          return None;
        }
      }
      error := Some(Inconsistent);
    }

    /** `mark_published` and `mark_failed`. */
    method Mark(id: EventId, d: Delivery) returns (error: Option<OutboxError>)
      requires Consistent()
      modifies this
      ensures Consistent()
      ensures error == if id !in old(byId) then Some(DoesNotExist)
                       else if !old(byId)[id].Deliverable() then Some(NotDeliverable) else None
      ensures events == if error.None? then AttemptOn(old(events), id, d) else old(events)
    {
      if id !in byId { return Some(DoesNotExist); }
      var current := byId[id];
      if !current.Deliverable() { return Some(NotDeliverable); }
      AttemptExact(events, current, d);
      AttemptEvolves(events, current, d);
      OnlyOne(events, current);
      error := Replace(Attempted(current, d));
      ReplacedIsAttempted(old(events), events, current, d);
    }
  }

  lemma {:induction false} ReplacedIsAttempted(es: seq<OutboxEvent>, es': seq<OutboxEvent>, e: OutboxEvent, d: Delivery)
    requires UniqueEvents(es) && e in es && e.Deliverable()
    requires InPlaceOf(es, es', Attempted(e, d))
    ensures es' == AttemptOn(es, e.id, d)
  {
    AttemptExact(es, e, d);
    OnlyOne(es, e);
    var i :| 0 <= i < |es| && es[i].id == e.id && es' == es[i := Attempted(e, d)];
    assert es[i] in es;
  }

  /** The external transport: it may fail at any call, after it has been called. */
  class EventPublisher {
    ghost var sent: seq<OutboxEvent>
    ghost var answers: seq<bool>

    constructor ()
      ensures sent == [] && answers == []
    {
      sent, answers := [], [];
    }

    method Publish(e: OutboxEvent) returns (ok: bool)
      modifies this
      ensures sent == old(sent) + [e] && answers == old(answers) + [ok]
    {
      ok := *;
      sent, answers := sent + [e], answers + [ok];
    }
  }

  class Clock {
    ghost var readings: seq<Time>

    constructor ()
      ensures readings == []
    {
      readings := [];
    }

    method Now() returns (now: Time)
      modifies this
      ensures readings == old(readings) + [now]
    {
      now := *;
      readings := readings + [now];
    }
  }

  /** What the transport answered. */
  function Answers(ds: seq<Delivery>): seq<bool> {
    seq(|ds|, i requires 0 <= i < |ds| => ds[i].Some?)
  }

  /** When the deliveries it accepted were noted. */
  function Times(ds: seq<Delivery>): seq<Time> {
    if ds == [] then [] else
      Times(ds[..|ds| - 1]) + if ds[|ds| - 1].Some? then [ds[|ds| - 1].value] else []
  }

  /** The events it did not accept. */
  function FailedIds(selected: seq<OutboxEvent>, ds: seq<Delivery>): seq<EventId>
    requires |ds| <= |selected|
  {
    if ds == [] then [] else
      FailedIds(selected, ds[..|ds| - 1]) + if ds[|ds| - 1].None? then [selected[|ds| - 1].id] else []
  }

  datatype BatchResult = BatchResult(selected: nat, published: nat, failed: nat, failedIds: seq<EventId>)

  class Publisher {
    const repository: InMemoryOutboxRepository
    const transport: EventPublisher
    const clock: Clock

    constructor (repository: InMemoryOutboxRepository, transport: EventPublisher, clock: Clock)
      ensures this.repository == repository && this.transport == transport && this.clock == clock
    {
      this.repository, this.transport, this.clock := repository, transport, clock;
    }

    /** One event: the transport first, then the mark, which does not fail. */
    method Deliver(e: OutboxEvent) returns (d: Delivery)
      requires repository.Consistent() && e in repository.events && e.Deliverable()
      modifies repository, transport, clock
      ensures repository.Consistent()
      ensures repository.events == AttemptOn(old(repository.events), e.id, d)
      ensures transport.sent == old(transport.sent) + [e] && transport.answers == old(transport.answers) + [d.Some?]
      ensures clock.readings == if d.Some? then old(clock.readings) + [d.value] else old(clock.readings)
    {
      var ok := transport.Publish(e);
      d := None;
      if ok {
        var now := clock.Now();
        d := Some(now);
      }
      var error := repository.Mark(e.id, d);
      assert error.None?;
    }

    /** The deliveries are as the transport has answered since then, and as the clock has shown. */
    ghost predicate Tell(answers: seq<bool>, readings: seq<Time>, ds: seq<Delivery>)
      reads transport, clock
    {
      transport.answers == answers + Answers(ds) && clock.readings == readings + Times(ds)
    }

    /** One turn of the loop. */
    method DeliverNext(ghost es: seq<OutboxEvent>, selected: seq<OutboxEvent>, n: nat, ghost ds: seq<Delivery>,
                       ghost answers: seq<bool>, ghost readings: seq<Time>) returns (d: Delivery)
      requires repository.Consistent() && Progress(es, selected, n, ds, repository.events) && n < |selected|
      requires Tell(answers, readings, ds)
      modifies repository, transport, clock
      ensures repository.Consistent() && Progress(es, selected, n + 1, ds + [d], repository.events)
      ensures Tell(answers, readings, ds + [d]) && transport.sent == old(transport.sent) + [selected[n]]
    {
      ProgressNext(es, selected, n, ds, repository.events);
      d := Deliver(selected[n]);
      assert (ds + [d])[..|ds|] == ds;
      assert Answers(ds + [d]) == Answers(ds) + [d.Some?];
    }

    /** One bounded pass.  The transport is called once for each selected event, in order, and the
    repository ends as those deliveries say. */
    method PublishBatch(limit: int) returns (r: Result<BatchResult, OutboxError>, ghost ds: seq<Delivery>)
      requires repository.Consistent()
      modifies repository, transport, clock
      ensures repository.Consistent()
      ensures r.Err? <==> limit < 1
      ensures r.Err? ==> repository.events == old(repository.events) && transport.sent == old(transport.sent)
      ensures r.Ok? ==> Tell(old(transport.answers), old(clock.readings), ds)
      ensures r.Ok? ==>
        && |ds| == |Selected(old(repository.events), limit)|
        && repository.events == Batch(old(repository.events), limit, ds)
        && transport.sent == old(transport.sent) + Selected(old(repository.events), limit)
        && r.value.selected == |ds| == r.value.published + r.value.failed
        && r.value.published == Taken(ds) && |r.value.failedIds| == r.value.failed
        && r.value.failedIds == FailedIds(Selected(old(repository.events), limit), ds)
    {
      ds := [];
      var found := repository.Deliverable(limit);
      if found.Err? { return Err(found.error), ds; }
      var events := found.value;
      var published := 0;
      var failedIds: seq<EventId> := [];
      ghost var es := repository.events;
      SelectedExact(es, limit);
      for n := 0 to |events|
        invariant repository.Consistent() && Progress(es, events, n, ds, repository.events)
        invariant n == published + |failedIds| && published == Taken(ds)
        invariant transport.sent == old(transport.sent) + events[..n]
        invariant Tell(old(transport.answers), old(clock.readings), ds) && failedIds == FailedIds(events, ds)
      {
        var d := DeliverNext(es, events, n, ds, old(transport.answers), old(clock.readings));
        assert events[..n + 1] == events[..n] + [events[n]];
        if d.Some? {
          published := published + 1;
        } else {
          failedIds := failedIds + [events[n].id];
        }
        TakenMore(ds, d);
        assert (ds + [d])[..|ds|] == ds;
        ds := ds + [d];
      }
      assert events[..|events|] == events;
      r := Ok(BatchResult(|events|, published, |failedIds|, failedIds));
    }
  }

  /** The first `n` selected events have been attempted, the others are still to be. */
  ghost predicate Progress(es: seq<OutboxEvent>, selected: seq<OutboxEvent>, n: nat, ds: seq<Delivery>,
                           current: seq<OutboxEvent>) {
    && n == |ds| <= |selected|
    && current == AttemptAll(es, selected[..n], ds) && Ready(current, selected[n..])
  }

  lemma {:induction false} ProgressNext(es: seq<OutboxEvent>, selected: seq<OutboxEvent>, n: nat, ds: seq<Delivery>,
                                        current: seq<OutboxEvent>)
    requires Progress(es, selected, n, ds, current) && n < |selected|
    ensures selected[n] in current && selected[n].Deliverable() && selected[..n + 1] == selected[..n] + [selected[n]]
    ensures forall d: Delivery :: Progress(es, selected, n + 1, ds + [d], AttemptOn(current, selected[n].id, d))
  {
    var rest := selected[n..];
    assert rest[0] == selected[n] && rest[0] in rest && rest[1..] == selected[n + 1..];
    assert selected[..n + 1] == selected[..n] + [selected[n]];
    forall d: Delivery
      ensures Progress(es, selected, n + 1, ds + [d], AttemptOn(current, selected[n].id, d))
    {
      AttemptKeepsReady(current, rest, d);
      AttemptMore(es, selected[..n], ds, selected[n], d);
    }
  }

  lemma {:induction false} AttemptMore(es: seq<OutboxEvent>, selected: seq<OutboxEvent>, ds: seq<Delivery>,
                                       e: OutboxEvent, d: Delivery)
    requires |selected| == |ds|
    ensures AttemptAll(es, selected + [e], ds + [d]) == AttemptOn(AttemptAll(es, selected, ds), e.id, d)
    decreases |selected|
  {
    if selected != [] {
      assert (selected + [e])[1..] == selected[1..] + [e] && (ds + [d])[1..] == ds[1..] + [d];
      AttemptMore(AttemptOn(es, selected[0].id, ds[0]), selected[1..], ds[1..], e, d);
    } else {
      assert ([] + [e])[1..] == [] && ([] + [d])[1..] == [];
      assert AttemptAll(AttemptOn(es, e.id, d), [], []) == AttemptOn(es, e.id, d);
    }
  }

  lemma {:induction false} TakenMore(ds: seq<Delivery>, d: Delivery)
    ensures Taken(ds + [d]) == Taken(ds) + if d.Some? then 1 else 0
  {
    if ds != [] {
      assert (ds + [d])[1..] == ds[1..] + [d];
      TakenMore(ds[1..], d);
    }
  }
}
