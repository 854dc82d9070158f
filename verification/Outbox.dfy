/** The transactional outbox: events wait in a repository until the transport takes them, at least once,
oldest first, in bounded batches. */
module Outbox {
  import opened Prelude

  type EventId = nat

  datatype Status = Waiting | Failed | Published

  datatype OutboxEvent = OutboxEvent(id: EventId, occurredAt: Time, status: Status, attempts: nat,
                                     publishedAt: Option<Time>)
  {
    predicate WellFormed() { status.Published? <==> publishedAt.Some? }

    predicate Deliverable() { !status.Published? }
  }

  datatype OutboxError = AlreadyExists | DoesNotExist | NotDeliverable | Inconsistent | InvalidLimit

  /** What the transport did with an event: took it, and when that was noted, or failed. */
  type Delivery = Option<Time>

  /** The delivery state after one attempt. */
  function Attempted(e: OutboxEvent, d: Delivery): OutboxEvent {
    if d.Some? then e.(publishedAt := d, attempts := e.attempts + 1, status := Published)
    else e.(publishedAt := None, attempts := e.attempts + 1, status := Failed)
  }

  // ---------------------------------------------------------------- order

  /** Oldest first, then by identifier. */
  predicate Precedes(a: OutboxEvent, b: OutboxEvent) {
    a.occurredAt < b.occurredAt || (a.occurredAt == b.occurredAt && a.id <= b.id)
  }

  function Insert(e: OutboxEvent, es: seq<OutboxEvent>): seq<OutboxEvent> {
    if es == [] || Precedes(e, es[0]) then [e] + es else [es[0]] + Insert(e, es[1..])
  }

  function Ordered(es: seq<OutboxEvent>): seq<OutboxEvent> {
    if es == [] then [] else Insert(es[0], Ordered(es[1..]))
  }

  function Deliverables(es: seq<OutboxEvent>): seq<OutboxEvent> {
    if es == [] then [] else (if es[0].Deliverable() then [es[0]] else []) + Deliverables(es[1..])
  }

  function Take(es: seq<OutboxEvent>, limit: nat): seq<OutboxEvent> {
    if |es| <= limit then es else es[..limit]
  }

  /** What one batch works on. */
  function Selected(es: seq<OutboxEvent>, limit: nat): seq<OutboxEvent> {
    Take(Ordered(Deliverables(es)), limit)
  }

  ghost predicate UniqueEvents(es: seq<OutboxEvent>) {
    forall i, j :: 0 <= i < j < |es| ==> es[i].id != es[j].id
  }

  ghost predicate Sorted(es: seq<OutboxEvent>) {
    forall i, j :: 0 <= i < j < |es| ==> Precedes(es[i], es[j])
  }

  lemma {:induction false} InsertExact(e: OutboxEvent, es: seq<OutboxEvent>)
    requires Sorted(es)
    ensures Sorted(Insert(e, es)) && |Insert(e, es)| == |es| + 1
    ensures forall x :: x in Insert(e, es) <==> x == e || x in es
    ensures UniqueEvents(es) && (forall x :: x in es ==> x.id != e.id) ==> UniqueEvents(Insert(e, es))
  {
    if es != [] {
      assert forall x :: x in es <==> x == es[0] || x in es[1..];
      if !Precedes(e, es[0]) {
        InsertExact(e, es[1..]);
        var rest := Insert(e, es[1..]);
        assert forall x :: x in rest ==> Precedes(es[0], x);
        if UniqueEvents(es) && forall x :: x in es ==> x.id != e.id {
          assert forall x :: x in rest ==> x.id != es[0].id;
        }
      } else {
        assert forall x :: x in es ==> Precedes(e, x);
      }
    }
  }

  lemma {:induction false} OrderedExact(es: seq<OutboxEvent>)
    ensures Sorted(Ordered(es)) && |Ordered(es)| == |es|
    ensures forall x :: x in Ordered(es) <==> x in es
    ensures UniqueEvents(es) ==> UniqueEvents(Ordered(es))
  {
    if es != [] {
      assert forall x :: x in es <==> x == es[0] || x in es[1..];
      OrderedExact(es[1..]);
      InsertExact(es[0], Ordered(es[1..]));
    }
  }

  lemma {:induction false} DeliverablesExact(es: seq<OutboxEvent>)
    ensures forall x :: x in Deliverables(es) <==> x in es && x.Deliverable()
    ensures UniqueEvents(es) ==> UniqueEvents(Deliverables(es))
  {
    if es != [] {
      assert forall x :: x in es <==> x == es[0] || x in es[1..];
      DeliverablesExact(es[1..]);
      if UniqueEvents(es) {
        assert forall x :: x in es[1..] ==> x.id != es[0].id;
        assert Deliverables(es) == [es[0]] + Deliverables(es[1..]) || Deliverables(es) == Deliverables(es[1..]);
      }
    }
  }

  lemma PrefixMembers(es: seq<OutboxEvent>, n: nat)
    requires n <= |es|
    ensures forall j :: 0 <= j < n ==> es[j] in es[..n]
  {
    forall j | 0 <= j < n ensures es[j] in es[..n] { assert es[..n][j] == es[j]; }
  }

  /** `a` is due no later than `b`: it is older, or of the same age and no later in the order of identifiers. */
  predicate DueFirst(a: OutboxEvent, b: OutboxEvent) {
    a.occurredAt <= b.occurredAt && (a.occurredAt == b.occurredAt ==> a.id <= b.id)
  }

  /** A batch holds the earliest deliverable events, as many as the limit allows, each once. */
  lemma {:induction false} SelectedExact(es: seq<OutboxEvent>, limit: nat)
    requires UniqueEvents(es)
    ensures var s := Selected(es, limit);
      && UniqueEvents(s) && (forall i, j :: 0 <= i < j < |s| ==> DueFirst(s[i], s[j]))
      && |s| == (if |Deliverables(es)| <= limit then |Deliverables(es)| else limit)
      && (forall x :: x in s ==> x in es && !x.status.Published?)
      && (forall x, y :: x in s && y in es && !y.status.Published? && y !in s ==> DueFirst(x, y))
  {
    DeliverablesExact(es);
    OrderedExact(Deliverables(es));
    var all, s := Ordered(Deliverables(es)), Selected(es, limit);
    assert forall x :: x in s ==> x in all;
    PrefixMembers(all, |s|);
    forall x, y | x in s && y in es && y.Deliverable() && y !in s
      ensures DueFirst(x, y)
    {
      var i :| 0 <= i < |s| && s[i] == x;
      assert y in all;
      var j :| 0 <= j < |all| && all[j] == y;
    }
  }

  // ---------------------------------------------------------------- attempts

  /** The stored events after one attempt on an event. */
  function AttemptOn(es: seq<OutboxEvent>, id: EventId, d: Delivery): seq<OutboxEvent> {
    if es == [] then [] else if es[0].id == id then [Attempted(es[0], d)] + es[1..]
      else [es[0]] + AttemptOn(es[1..], id, d)
  }

  /** ... and after a batch: one delivery for each selected event. */
  function AttemptAll(es: seq<OutboxEvent>, selected: seq<OutboxEvent>, ds: seq<Delivery>): seq<OutboxEvent>
    requires |selected| == |ds|
    decreases |selected|
  {
    if selected == [] then es else AttemptAll(AttemptOn(es, selected[0].id, ds[0]), selected[1..], ds[1..])
  }

  function TotalAttempts(es: seq<OutboxEvent>): nat {
    if es == [] then 0 else es[0].attempts + TotalAttempts(es[1..])
  }

  ghost predicate AllWellFormed(es: seq<OutboxEvent>) {
    forall e :: e in es ==> e.WellFormed()
  }

  lemma {:induction false} AttemptExact(es: seq<OutboxEvent>, e: OutboxEvent, d: Delivery)
    requires UniqueEvents(es) && e in es && e.Deliverable()
    ensures var es' := AttemptOn(es, e.id, d);
      && |es'| == |es|
      && (forall i :: 0 <= i < |es| ==> es'[i] == if es[i].id == e.id then Attempted(es[i], d) else es[i])
      && TotalAttempts(es') == TotalAttempts(es) + 1
      && |Deliverables(es')| == |Deliverables(es)| - (if d.Some? then 1 else 0)
  {
    if es[0].id == e.id {
      forall i | 1 <= i < |es| ensures es[i].id != e.id {}
      assert es[0] == e;
    } else {
      assert e in es[1..];
      AttemptExact(es[1..], e, d);
      forall i | 1 <= i < |es| ensures AttemptOn(es, e.id, d)[i] == AttemptOn(es[1..], e.id, d)[i - 1] {}
    }
  }

  /** Deliveries that took the event. */
  function Taken(ds: seq<Delivery>): nat {
    if ds == [] then 0 else (if ds[0].Some? then 1 else 0) + Taken(ds[1..])
  }

  /** `later` is `es` after some attempts: the same events in the same places, published ones untouched. */
  ghost predicate Evolved(es: seq<OutboxEvent>, later: seq<OutboxEvent>) {
    && |later| >= |es|
    && (forall i :: 0 <= i < |es| ==> later[i].id == es[i].id && later[i].occurredAt == es[i].occurredAt)
    && (forall i :: 0 <= i < |es| ==>
          (es[i].status.Published? ==> later[i] == es[i]) && later[i].attempts >= es[i].attempts)
  }

  ghost predicate Ready(es: seq<OutboxEvent>, selected: seq<OutboxEvent>) {
    UniqueEvents(es) && UniqueEvents(selected) && forall x :: x in selected ==> x in es && x.Deliverable()
  }

  lemma {:induction false} AttemptEvolves(es: seq<OutboxEvent>, e: OutboxEvent, d: Delivery)
    requires UniqueEvents(es) && e in es && e.Deliverable()
    ensures UniqueEvents(AttemptOn(es, e.id, d)) && Evolved(es, AttemptOn(es, e.id, d))
  {
    AttemptExact(es, e, d);
    OnlyOne(es, e);
    var es' := AttemptOn(es, e.id, d);
    forall i, j | 0 <= i < j < |es'| ensures es'[i].id != es'[j].id { assert es[i].id != es[j].id; }
    forall i | 0 <= i < |es|
      ensures (es[i].status.Published? ==> es'[i] == es[i]) && es'[i].attempts >= es[i].attempts
    {
      assert es[i] in es;
    }
  }

  lemma {:induction false} OthersStay(es: seq<OutboxEvent>, e: OutboxEvent, d: Delivery, x: OutboxEvent)
    requires UniqueEvents(es) && e in es && e.Deliverable() && x in es && x.id != e.id
    ensures x in AttemptOn(es, e.id, d)
  {
    AttemptExact(es, e, d);
    var i :| 0 <= i < |es| && es[i] == x;
    assert AttemptOn(es, e.id, d)[i] == x;
  }

  lemma TailDiffers(es: seq<OutboxEvent>)
    requires es != [] && UniqueEvents(es)
    ensures UniqueEvents(es[1..]) && forall x :: x in es[1..] ==> x in es && x.id != es[0].id
  {
  }

  lemma {:induction false} AttemptKeepsReady(es: seq<OutboxEvent>, selected: seq<OutboxEvent>, d: Delivery)
    requires selected != [] && Ready(es, selected)
    ensures Ready(AttemptOn(es, selected[0].id, d), selected[1..]) && Evolved(es, AttemptOn(es, selected[0].id, d))
  {
    AttemptEvolves(es, selected[0], d);
    TailDiffers(selected);
    forall x | x in selected[1..]
      ensures x in AttemptOn(es, selected[0].id, d) && x.Deliverable()
    {
      OthersStay(es, selected[0], d, x);
    }
  }

  lemma EvolvedTwice(a: seq<OutboxEvent>, b: seq<OutboxEvent>, c: seq<OutboxEvent>)
    requires Evolved(a, b) && Evolved(b, c)
    ensures Evolved(a, c)
  {
  }

  /** A batch: every call to the transport is one more attempt on record, what it took is no longer
  deliverable, what it failed on still is, and nothing published is touched. */
  lemma {:induction false} BatchExact(es: seq<OutboxEvent>, selected: seq<OutboxEvent>, ds: seq<Delivery>)
    requires |selected| == |ds| && Ready(es, selected)
    ensures var es' := AttemptAll(es, selected, ds);
      && UniqueEvents(es') && Evolved(es, es') && |es'| == |es|
      && TotalAttempts(es') == TotalAttempts(es) + |selected|
      && |Deliverables(es')| == |Deliverables(es)| - Taken(ds)
    decreases |selected|
  {
    if selected != [] {
      AttemptExact(es, selected[0], ds[0]);
      AttemptKeepsReady(es, selected, ds[0]);
      var mid := AttemptOn(es, selected[0].id, ds[0]);
      BatchExact(mid, selected[1..], ds[1..]);
      EvolvedTwice(es, mid, AttemptAll(es, selected, ds));
    }
  }

  /** One attempt on record, and what came of it. */
  predicate AttemptMade(e: OutboxEvent, e': OutboxEvent, d: Delivery) {
    && e'.id == e.id && e'.occurredAt == e.occurredAt && e'.attempts == e.attempts + 1 && e'.publishedAt == d
    && (if d.Some? then e'.status.Published? else e'.status.Failed?)
  }

  /** What a batch leaves, event by event: an attempt on each it worked on, as it was delivered, and every other event
  as it was. */
  lemma {:induction false} BatchWrites(es: seq<OutboxEvent>, selected: seq<OutboxEvent>, ds: seq<Delivery>)
    requires |selected| == |ds| && Ready(es, selected)
    ensures |AttemptAll(es, selected, ds)| == |es|
    ensures forall i :: 0 <= i < |es| && es[i] !in selected ==> AttemptAll(es, selected, ds)[i] == es[i]
    ensures forall i, k :: 0 <= i < |es| && 0 <= k < |selected| && selected[k] == es[i] ==>
      AttemptMade(es[i], AttemptAll(es, selected, ds)[i], ds[k])
    decreases |selected|
  {
    if selected != [] {
      var mid := AttemptOn(es, selected[0].id, ds[0]);
      AttemptExact(es, selected[0], ds[0]);
      AttemptKeepsReady(es, selected, ds[0]);
      BatchWrites(mid, selected[1..], ds[1..]);
      forall i | 0 <= i < |es|
        ensures es[i] !in selected ==> AttemptAll(es, selected, ds)[i] == es[i]
        ensures forall k :: 0 <= k < |selected| && selected[k] == es[i] ==>
          AttemptMade(es[i], AttemptAll(es, selected, ds)[i], ds[k])
      {
        EventWritten(es, selected, ds, i);
      }
    }
  }

  lemma {:induction false} EventWritten(es: seq<OutboxEvent>, selected: seq<OutboxEvent>, ds: seq<Delivery>, i: nat)
    requires selected != [] && |selected| == |ds| && Ready(es, selected) && i < |es|
    requires var mid := AttemptOn(es, selected[0].id, ds[0]);
      && |mid| == |es| && |AttemptAll(mid, selected[1..], ds[1..])| == |es|
      && mid[i] == (if es[i].id == selected[0].id then Attempted(es[i], ds[0]) else es[i])
      && (mid[i] !in selected[1..] ==> AttemptAll(mid, selected[1..], ds[1..])[i] == mid[i])
      && (forall k :: 0 <= k < |selected| - 1 && selected[1..][k] == mid[i] ==>
            AttemptMade(mid[i], AttemptAll(mid, selected[1..], ds[1..])[i], ds[1..][k]))
    ensures es[i] !in selected ==> AttemptAll(es, selected, ds)[i] == es[i]
    ensures forall k :: 0 <= k < |selected| && selected[k] == es[i] ==>
      AttemptMade(es[i], AttemptAll(es, selected, ds)[i], ds[k])
  {
    OnlyOne(es, selected[0]);
    TailDiffers(selected);
    forall k | 0 <= k < |selected| && selected[k] == es[i]
      ensures AttemptMade(es[i], AttemptAll(es, selected, ds)[i], ds[k])
    {
      if k > 0 {
        assert selected[1..][k - 1] == es[i];
        assert selected[1..][k - 1] in selected[1..];
      }
    }
  }

  // ---------------------------------------------------------------- draining

  function Batch(es: seq<OutboxEvent>, limit: nat, ds: seq<Delivery>): seq<OutboxEvent>
    requires |ds| == |Selected(es, limit)|
  {
    AttemptAll(es, Selected(es, limit), ds)
  }

  /** The transport takes everything it is given. */
  predicate AllTaken(ds: seq<Delivery>) {
    forall i :: 0 <= i < |ds| ==> ds[i].Some?
  }

  lemma {:induction false} TakenAll(ds: seq<Delivery>)
    ensures Taken(ds) <= |ds| && (AllTaken(ds) ==> Taken(ds) == |ds|)
  {
    if ds != [] { TakenAll(ds[1..]); }
  }

  lemma {:induction false} OneBatch(es: seq<OutboxEvent>, limit: nat, ds: seq<Delivery>)
    requires UniqueEvents(es) && |ds| == |Selected(es, limit)|
    ensures var es' := Batch(es, limit, ds);
      && UniqueEvents(es') && Evolved(es, es') && |es'| == |es|
      && TotalAttempts(es') == TotalAttempts(es) + |ds|
      && |Deliverables(es')| == |Deliverables(es)| - Taken(ds)
  {
    SelectedExact(es, limit);
    BatchExact(es, Selected(es, limit), ds);
  }

  /** The batches fit the repository, one after another. */
  ghost predicate Fits(es: seq<OutboxEvent>, limit: nat, batches: seq<seq<Delivery>>)
    decreases |batches|
  {
    batches == [] || (|batches[0]| == |Selected(es, limit)| && Fits(Batch(es, limit, batches[0]), limit, batches[1..]))
  }

  ghost function AllBatches(es: seq<OutboxEvent>, limit: nat, batches: seq<seq<Delivery>>): seq<OutboxEvent>
    requires Fits(es, limit, batches)
    decreases |batches|
  {
    if batches == [] then es else AllBatches(Batch(es, limit, batches[0]), limit, batches[1..])
  }

  function Remaining(n: nat, taken: nat): nat {
    if n <= taken then 0 else n - taken
  }

  lemma RemainingStep(n: nat, limit: nat, k: nat)
    ensures Remaining(Remaining(n, limit), k * limit) == Remaining(n, (k + 1) * limit)
  {
    assert (k + 1) * limit == k * limit + limit;
  }

  lemma {:induction false} DrainsOne(es: seq<OutboxEvent>, limit: nat, ds: seq<Delivery>)
    requires UniqueEvents(es) && |ds| == |Selected(es, limit)| && AllTaken(ds)
    ensures UniqueEvents(Batch(es, limit, ds))
      && |Deliverables(Batch(es, limit, ds))| == Remaining(|Deliverables(es)|, limit)
  {
    SelectedExact(es, limit);
    OneBatch(es, limit, ds);
    TakenAll(ds);
  }

  /** With a transport that takes everything, every `limit` events cost one batch: `k` batches leave
  exactly what is beyond `k * limit`. */
  lemma {:induction false} Drains(es: seq<OutboxEvent>, limit: nat, batches: seq<seq<Delivery>>)
    requires UniqueEvents(es) && limit >= 1 && Fits(es, limit, batches) && forall b :: b in batches ==> AllTaken(b)
    ensures |Deliverables(AllBatches(es, limit, batches))| == Remaining(|Deliverables(es)|, |batches| * limit)
    decreases |batches|
  {
    if batches != [] {
      assert batches[0] in batches && forall b :: b in batches[1..] ==> b in batches;
      DrainsOne(es, limit, batches[0]);
      Drains(Batch(es, limit, batches[0]), limit, batches[1..]);
      RemainingStep(|Deliverables(es)|, limit, |batches| - 1);
    }
  }

  // ---------------------------------------------------------------- whole runs

  /** New events arrive, and batches of any size meet any transport. */
  datatype OutboxStep = Arrive(event: OutboxEvent) | Work(limit: nat, deliveries: seq<Delivery>)

  predicate Possible(es: seq<OutboxEvent>, step: OutboxStep) {
    match step
    case Arrive(e) => !(exists i :: 0 <= i < |es| && es[i].id == e.id)
    case Work(limit, ds) => |ds| == |Selected(es, limit)|
  }

  function Perform(es: seq<OutboxEvent>, step: OutboxStep): seq<OutboxEvent>
    requires Possible(es, step)
  {
    match step
    case Arrive(e) => es + [e]
    case Work(limit, ds) => Batch(es, limit, ds)
  }

  ghost predicate Run(es: seq<OutboxEvent>, steps: seq<OutboxStep>)
    decreases |steps|
  {
    steps == [] || (Possible(es, steps[0]) && Run(Perform(es, steps[0]), steps[1..]))
  }

  ghost function After(es: seq<OutboxEvent>, steps: seq<OutboxStep>): seq<OutboxEvent>
    requires Run(es, steps)
    decreases |steps|
  {
    if steps == [] then es else After(Perform(es, steps[0]), steps[1..])
  }

  /** Attempts that a run adds to the record: those new events bring along, and one for each call. */
  function AttemptsAdded(steps: seq<OutboxStep>): nat {
    if steps == [] then 0
    else (match steps[0] case Arrive(e) => e.attempts case Work(_, ds) => |ds|) + AttemptsAdded(steps[1..])
  }

  lemma {:induction false} TotalAppend(es: seq<OutboxEvent>, e: OutboxEvent)
    ensures TotalAttempts(es + [e]) == TotalAttempts(es) + e.attempts
  {
    if es == [] {
      assert [] + [e] == [e] && TotalAttempts([e][1..]) == 0;
    } else {
      assert (es + [e])[1..] == es[1..] + [e];
      TotalAppend(es[1..], e);
    }
  }

  lemma {:induction false} PerformConserves(es: seq<OutboxEvent>, step: OutboxStep)
    requires UniqueEvents(es) && Possible(es, step)
    ensures UniqueEvents(Perform(es, step)) && Evolved(es, Perform(es, step))
    ensures TotalAttempts(Perform(es, step)) == TotalAttempts(es) + AttemptsAdded([step])
  {
    assert [step][1..] == [];
    match step
    case Arrive(e) => TotalAppend(es, e);
    case Work(limit, ds) => OneBatch(es, limit, ds);
  }

  /** Over every run, whatever the transport does: published events stay as they are, and the attempts on
  record grow by exactly the calls that were made. */
  lemma {:induction false} RunConserves(es: seq<OutboxEvent>, steps: seq<OutboxStep>)
    requires UniqueEvents(es) && Run(es, steps)
    ensures var later := After(es, steps);
      UniqueEvents(later) && Evolved(es, later) && TotalAttempts(later) == TotalAttempts(es) + AttemptsAdded(steps)
    decreases |steps|
  {
    if steps != [] {
      PerformConserves(es, steps[0]);
      var mid := Perform(es, steps[0]);
      RunConserves(mid, steps[1..]);
      EvolvedTwice(es, mid, After(es, steps));
      assert AttemptsAdded([steps[0]]) + AttemptsAdded(steps[1..]) == AttemptsAdded(steps) by {
        assert [steps[0]][1..] == [];
      }
    }
  }

  /** So what is published is never selected, and never sent, again. */
  lemma {:induction false} PublishedNeverSentAgain(es: seq<OutboxEvent>, steps: seq<OutboxStep>, e: OutboxEvent,
                                                   limit: nat)
    requires UniqueEvents(es) && Run(es, steps) && e in es && e.status.Published?
    ensures e in After(es, steps)
    ensures forall x :: x in Selected(After(es, steps), limit) ==> x.id != e.id
  {
    RunConserves(es, steps);
    var later := After(es, steps);
    var i :| 0 <= i < |es| && es[i] == e;
    assert later[i] == e;
    SelectedExact(later, limit);
    OnlyOne(later, e);
  }

  // ---------------------------------------------------------------- what a failing head does

  /** An event without its delivery state. */
  function Bare(e: OutboxEvent): OutboxEvent {
    e.(status := Waiting, attempts := 0, publishedAt := None)
  }

  function AllBare(es: seq<OutboxEvent>): seq<OutboxEvent> {
    seq(|es|, i requires 0 <= i < |es| => Bare(es[i]))
  }

  lemma {:induction false} InsertBare(e: OutboxEvent, es: seq<OutboxEvent>)
    ensures AllBare(Insert(e, es)) == Insert(Bare(e), AllBare(es))
  {
    if es != [] {
      assert AllBare(es)[1..] == AllBare(es[1..]);
      InsertBare(e, es[1..]);
    }
  }

  lemma {:induction false} OrderedBare(es: seq<OutboxEvent>)
    ensures AllBare(Ordered(es)) == Ordered(AllBare(es))
  {
    if es != [] {
      assert AllBare(es)[1..] == AllBare(es[1..]);
      OrderedBare(es[1..]);
      InsertBare(es[0], Ordered(es[1..]));
    }
  }

  lemma {:induction false} SelectedBare(a: seq<OutboxEvent>, b: seq<OutboxEvent>, limit: nat)
    requires AllBare(Deliverables(a)) == AllBare(Deliverables(b))
    ensures AllBare(Selected(a, limit)) == AllBare(Selected(b, limit))
  {
    OrderedBare(Deliverables(a));
    OrderedBare(Deliverables(b));
    var x, y := Ordered(Deliverables(a)), Ordered(Deliverables(b));
    assert |x| == |AllBare(x)| == |AllBare(y)| == |y|;
    assert AllBare(Take(x, limit)) == Take(AllBare(x), limit);
    assert AllBare(Take(y, limit)) == Take(AllBare(y), limit);
  }

  lemma {:induction false} FailureKeepsQueue(es: seq<OutboxEvent>, id: EventId)
    requires forall e :: e in es && e.id == id ==> e.Deliverable()
    ensures AllBare(Deliverables(AttemptOn(es, id, None))) == AllBare(Deliverables(es))
  {
    if es != [] {
      if es[0].id == id {
        assert es[0] in es;
        assert AttemptOn(es, id, None)[1..] == es[1..];
        BareCons(Attempted(es[0], None), Deliverables(es[1..]));
      } else {
        FailureKeepsQueue(es[1..], id);
        assert AttemptOn(es, id, None)[1..] == AttemptOn(es[1..], id, None);
        BareCons(es[0], Deliverables(AttemptOn(es[1..], id, None)));
      }
      BareCons(es[0], Deliverables(es[1..]));
    }
  }

  lemma BareCons(e: OutboxEvent, es: seq<OutboxEvent>)
    ensures AllBare([e] + es) == [Bare(e)] + AllBare(es)
    ensures AllBare([] + es) == AllBare(es)
  {
    assert [] + es == es;
  }

  predicate NoneTaken(ds: seq<Delivery>) {
    forall i :: 0 <= i < |ds| ==> ds[i].None?
  }

  lemma {:induction false} FailedBatchKeepsQueue(es: seq<OutboxEvent>, selected: seq<OutboxEvent>, ds: seq<Delivery>)
    requires |selected| == |ds| && Ready(es, selected) && NoneTaken(ds)
    ensures AllBare(Deliverables(AttemptAll(es, selected, ds))) == AllBare(Deliverables(es))
    decreases |selected|
  {
    if selected != [] {
      AttemptKeepsReady(es, selected, ds[0]);
      OnlyOne(es, selected[0]);
      FailureKeepsQueue(es, selected[0].id);
      FailedBatchKeepsQueue(AttemptOn(es, selected[0].id, ds[0]), selected[1..], ds[1..]);
    }
  }

  lemma OnlyOne(es: seq<OutboxEvent>, e: OutboxEvent)
    requires UniqueEvents(es) && e in es
    ensures forall x :: x in es && x.id == e.id ==> x == e
  {
  }

  /** A transport that keeps failing on the earliest events holds up all later ones: every batch selects
  the same events again. */
  lemma {:induction false} FailingHeadBlocks(es: seq<OutboxEvent>, limit: nat, batches: seq<seq<Delivery>>)
    requires UniqueEvents(es) && Fits(es, limit, batches) && forall b :: b in batches ==> NoneTaken(b)
    ensures AllBare(Selected(AllBatches(es, limit, batches), limit)) == AllBare(Selected(es, limit))
    decreases |batches|
  {
    if batches != [] {
      SelectedExact(es, limit);
      assert batches[0] in batches && forall b :: b in batches[1..] ==> b in batches;
      OneBatch(es, limit, batches[0]);
      FailedBatchKeepsQueue(es, Selected(es, limit), batches[0]);
      var mid := Batch(es, limit, batches[0]);
      SelectedBare(mid, es, limit);
      FailingHeadBlocks(mid, limit, batches[1..]);
    }
  }
}
