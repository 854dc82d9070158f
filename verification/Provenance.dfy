/** What an answer rests on in any run at all, whatever is saved silently and whatever is still to be bumped:
reads made from states of the run that the stamp it was served under already covered. */
module Provenance {
  import opened Prelude
  import opened Governance
  import opened Authorization
  import opened SecurityState
  import opened TornEngine
  import opened DecisionCache
  import opened Coherence

  /** The states gone through, in order. */
  function History(cfg: Config, s: System, steps: seq<Step>): seq<System>
    decreases |steps|
  {
    if steps == [] then [s] else [s] + History(cfg, Next(cfg, s, steps[0]), steps[1..])
  }

  /** `steps` can be taken one after the other; silent saves may write anything. */
  ghost predicate Trace(cfg: Config, s: System, steps: seq<Step>)
    decreases |steps|
  {
    steps == [] || (Enabled(cfg, s, steps[0]) && Trace(cfg, Next(cfg, s, steps[0]), steps[1..]))
  }

  /** The read was made from a state whose stamp was `stamp`. */
  ghost predicate SeenAt(past: seq<System>, q: Request, stamp: Stamp, v: Repositories) {
    exists p :: p in past && p.repos == v && StampOf(p, q) == stamp
  }

  /** ... or had already passed it. */
  ghost predicate SeenSince(past: seq<System>, q: Request, stamp: Stamp, v: Repositories) {
    exists p :: p in past && p.repos == v && StampLe(stamp, StampOf(p, q))
  }

  /** `d` is what the engine makes of the reads. */
  ghost predicate MadeOf(cfg: Config, q: Request, at: Time, d: Decision, tape: Reads) {
    AuthorizeTorn(cfg.maxDepth, q, at, tape) == Got(d, [])
  }

  /** The decision was made of reads from states under the stamp. */
  ghost predicate Rests(cfg: Config, past: seq<System>, q: Request, stamp: Stamp, at: Time, d: Decision) {
    exists tape :: MadeOf(cfg, q, at, d, tape) && forall v :: v in tape ==> SeenAt(past, q, stamp, v)
  }

  ghost predicate RestsSince(cfg: Config, past: seq<System>, q: Request, stamp: Stamp, at: Time, d: Decision) {
    exists tape :: MadeOf(cfg, q, at, d, tape) && forall v :: v in tape ==> SeenSince(past, q, stamp, v)
  }

  /** The entry is an ALLOW made of reads from states under its own stamp. */
  ghost predicate EntryRests(cfg: Config, past: seq<System>, key: Request, e: Entry) {
    exists q: Request, at: Time, d: Decision :: KeyOf(q) == key && d.allowed && e.decision == FromDecision(d)
      && Rests(cfg, past, q, e.stamp, at, d)
  }

  ghost predicate ThreadRests(cfg: Config, past: seq<System>, s: System, t: Thread) {
    match t
    case Stamped(call, before) => StampLe(before, StampOf(s, call.q))
    case Looking(call, before) => StampLe(before, StampOf(s, call.q))
    case Missed(call, before, _) => StampLe(before, StampOf(s, call.q))
    case Hit(call, before, e) => e.stamp == before && EntryRests(cfg, past, KeyOf(call.q), e)
    case Confirmed(call, before, e) =>
      e.stamp == before && StampLe(before, StampOf(s, call.q)) && EntryRests(cfg, past, KeyOf(call.q), e)
    case Evaluating(call, before, _, _, tape) =>
      StampLe(before, StampOf(s, call.q)) && forall v :: v in tape ==> SeenSince(past, call.q, before, v)
    case Evaluated(call, before, _, at, d) => RestsSince(cfg, past, call.q, before, at, d)
    case Stable(call, before, _, at, d) => Rests(cfg, past, call.q, before, at, d)
    case Storing(call, before, at, d) => d.allowed && Rests(cfg, past, call.q, before, at, d)
    case _ => true
  }

  ghost predicate Traced(cfg: Config, past: seq<System>, s: System) {
    && s in past
    && (forall p, q: Request :: p in past ==> StampLe(StampOf(p, q), StampOf(s, q)))
    && (forall key :: key in s.entries ==> EntryRests(cfg, past, key, s.entries[key]))
    && (forall id :: id in s.threads ==> ThreadRests(cfg, past, s, s.threads[id]))
  }

  // ---------------------------------------------------------------- the past only grows

  lemma SeenLater(past: seq<System>, s: System, q: Request, stamp: Stamp, v: Repositories)
    ensures SeenAt(past, q, stamp, v) ==> SeenAt(past + [s], q, stamp, v)
    ensures SeenSince(past, q, stamp, v) ==> SeenSince(past + [s], q, stamp, v)
  {
    assert forall p :: p in past ==> p in past + [s];
  }

  lemma RestsLater(cfg: Config, past: seq<System>, s: System, q: Request, stamp: Stamp, at: Time, d: Decision)
    ensures Rests(cfg, past, q, stamp, at, d) ==> Rests(cfg, past + [s], q, stamp, at, d)
    ensures RestsSince(cfg, past, q, stamp, at, d) ==> RestsSince(cfg, past + [s], q, stamp, at, d)
  {
    forall v ensures SeenAt(past, q, stamp, v) ==> SeenAt(past + [s], q, stamp, v)
      ensures SeenSince(past, q, stamp, v) ==> SeenSince(past + [s], q, stamp, v)
    {
      SeenLater(past, s, q, stamp, v);
    }
  }

  lemma EntryRestsLater(cfg: Config, past: seq<System>, s: System, key: Request, e: Entry)
    requires EntryRests(cfg, past, key, e)
    ensures EntryRests(cfg, past + [s], key, e)
  {
    var q: Request, at: Time, d: Decision :| KeyOf(q) == key && d.allowed && e.decision == FromDecision(d)
      && Rests(cfg, past, q, e.stamp, at, d);
    RestsLater(cfg, past, s, q, e.stamp, at, d);
  }

  lemma ThreadRestsLater(cfg: Config, past: seq<System>, s: System, s': System, t: Thread)
    requires ThreadRests(cfg, past, s, t) && forall q: Request :: StampLe(StampOf(s, q), StampOf(s', q))
    ensures ThreadRests(cfg, past + [s'], s', t)
  {
    match t
    case Hit(call, before, e) => EntryRestsLater(cfg, past, s', KeyOf(call.q), e);
    case Confirmed(call, before, e) =>
      StampLeTransitive(before, StampOf(s, call.q), StampOf(s', call.q));
      EntryRestsLater(cfg, past, s', KeyOf(call.q), e);
    case Stamped(call, before) => StampLeTransitive(before, StampOf(s, call.q), StampOf(s', call.q));
    case Looking(call, before) => StampLeTransitive(before, StampOf(s, call.q), StampOf(s', call.q));
    case Missed(call, before, _) => StampLeTransitive(before, StampOf(s, call.q), StampOf(s', call.q));
    case Evaluating(call, before, _, _, tape) =>
      StampLeTransitive(before, StampOf(s, call.q), StampOf(s', call.q));
      forall v | v in tape ensures SeenSince(past + [s'], call.q, before, v) { SeenLater(past, s', call.q, before, v); }
    case Evaluated(call, before, _, at, d) => RestsLater(cfg, past, s', call.q, before, at, d);
    case Stable(call, before, _, at, d) => RestsLater(cfg, past, s', call.q, before, at, d);
    case Storing(call, before, at, d) => RestsLater(cfg, past, s', call.q, before, at, d);
    case _ =>
  }

  lemma StampsClimb(cfg: Config, s: System, step: Step, q: Request)
    requires Enabled(cfg, s, step)
    ensures StampLe(StampOf(s, q), StampOf(Next(cfg, s, step), q))
  {
    if step.BumpDimension? { BumpExact(s.versions, step.dimension, q.subject, q.tenant); }
  }

  // ---------------------------------------------------------------- the calls' own steps

  /** At an unmoved stamp, what was read since it was read under it. */
  lemma UnmovedSeen(cfg: Config, past: seq<System>, s: System, q: Request, at: Time, d: Decision)
    requires (forall p :: p in past ==> StampLe(StampOf(p, q), StampOf(s, q)))
    requires RestsSince(cfg, past, q, StampOf(s, q), at, d)
    ensures Rests(cfg, past, q, StampOf(s, q), at, d)
  {
    var tape :| MadeOf(cfg, q, at, d, tape) && forall v :: v in tape ==> SeenSince(past, q, StampOf(s, q), v);
    forall v | v in tape
      ensures SeenAt(past, q, StampOf(s, q), v)
    {
      var p :| p in past && p.repos == v && StampLe(StampOf(s, q), StampOf(p, q));
      assert StampLe(StampOf(p, q), StampOf(s, q));
    }
  }

  lemma ReadsRest(cfg: Config, past: seq<System>, s: System, step: Step)
    requires Traced(cfg, past, s) && Enabled(cfg, s, step)
      && (step.EngineRead? || step.EngineDecide? || step.ReadAfter?)
    ensures ThreadRests(cfg, past, s, Advance(cfg, s, step, s.threads[step.id]).0)
  {
    var t := s.threads[step.id];
    var q := t.call.q;
    assert ThreadRests(cfg, past, s, t);
    match step
    case EngineRead(_) => assert SeenSince(past, q, t.before, s.repos);
    case EngineDecide(_, d) => assert MadeOf(cfg, q, t.at, d, t.tape);
    case ReadAfter(_) => if StampOf(s, q) == t.before { UnmovedSeen(cfg, past, s, q, t.at, t.decision); }
  }

  lemma LookupsRest(cfg: Config, past: seq<System>, s: System, step: Step)
    requires step.ReadClock? || step.ReadBefore? || step.CheckRequest? || step.ConfirmStamp?
    requires Enabled(cfg, s, step) && ThreadRests(cfg, past, s, s.threads[step.id])
    ensures ThreadRests(cfg, past, s, Advance(cfg, s, step, s.threads[step.id]).0)
  {
  }

  lemma CacheGetRests(cfg: Config, past: seq<System>, s: System, step: Step)
    requires Traced(cfg, past, s) && Enabled(cfg, s, step) && step.CacheGet?
    ensures ThreadRests(cfg, past, s, Advance(cfg, s, step, s.threads[step.id]).0)
  {
    assert ThreadRests(cfg, past, s, s.threads[step.id]);
  }

  lemma ChecksRest(cfg: Config, past: seq<System>, s: System, step: Step)
    requires step.CheckCached? || step.StartEngine?
    requires Enabled(cfg, s, step) && ThreadRests(cfg, past, s, s.threads[step.id])
    ensures ThreadRests(cfg, past, s, Advance(cfg, s, step, s.threads[step.id]).0)
  {
  }

  lemma AnswersRest(cfg: Config, past: seq<System>, s: System, step: Step)
    requires step.CheckDecision? || step.Put?
    requires Enabled(cfg, s, step) && ThreadRests(cfg, past, s, s.threads[step.id])
    ensures ThreadRests(cfg, past, s, Advance(cfg, s, step, s.threads[step.id]).0)
  {
  }

  lemma OtherStepsRest(cfg: Config, past: seq<System>, s: System, step: Step)
    requires Traced(cfg, past, s) && Enabled(cfg, s, step) && CallStep(step)
    requires !step.EngineRead? && !step.EngineDecide? && !step.ReadAfter?
    ensures ThreadRests(cfg, past, s, Advance(cfg, s, step, s.threads[step.id]).0)
  {
    assert ThreadRests(cfg, past, s, s.threads[step.id]);
    if step.CacheGet? {
      CacheGetRests(cfg, past, s, step);
    } else if step.ReadClock? || step.ReadBefore? || step.CheckRequest? || step.ConfirmStamp? {
      LookupsRest(cfg, past, s, step);
    } else if step.CheckCached? || step.StartEngine? {
      ChecksRest(cfg, past, s, step);
    } else {
      AnswersRest(cfg, past, s, step);
    }
  }

  lemma StoredRests(cfg: Config, past: seq<System>, s: System, step: Step)
    requires Traced(cfg, past, s) && Enabled(cfg, s, step) && CallStep(step)
    ensures var entries := Advance(cfg, s, step, s.threads[step.id]).1;
      forall key :: key in entries ==> EntryRests(cfg, past, key, entries[key])
  {
    if step.Put? {
      var t := s.threads[step.id];
      assert ThreadRests(cfg, past, s, t);
    } else {
      EntriesShrink(cfg, s, step);
    }
  }

  lemma TracedStep(cfg: Config, past: seq<System>, s: System, step: Step)
    requires Traced(cfg, past, s) && Enabled(cfg, s, step)
    ensures Traced(cfg, past + [Next(cfg, s, step)], Next(cfg, s, step))
  {
    var s' := Next(cfg, s, step);
    forall q: Request ensures StampLe(StampOf(s, q), StampOf(s', q)) { StampsClimb(cfg, s, step, q); }
    forall p, q: Request | p in past + [s']
      ensures StampLe(StampOf(p, q), StampOf(s', q))
    {
      if p != s' { StampLeTransitive(StampOf(p, q), StampOf(s, q), StampOf(s', q)); }
    }
    if CallStep(step) {
      StoredRests(cfg, past, s, step);
      if step.EngineRead? || step.EngineDecide? || step.ReadAfter? {
        ReadsRest(cfg, past, s, step);
      } else {
        OtherStepsRest(cfg, past, s, step);
      }
    }
    StepRests(cfg, past, s, step);
  }

  lemma StepRests(cfg: Config, past: seq<System>, s: System, step: Step)
    requires Traced(cfg, past, s) && Enabled(cfg, s, step)
    requires forall q: Request :: StampLe(StampOf(s, q), StampOf(Next(cfg, s, step), q))
    requires CallStep(step) ==>
      var (t, entries) := Advance(cfg, s, step, s.threads[step.id]);
      ThreadRests(cfg, past, s, t) && forall key :: key in entries ==> EntryRests(cfg, past, key, entries[key])
    ensures var s' := Next(cfg, s, step);
      && (forall key :: key in s'.entries ==> EntryRests(cfg, past + [s'], key, s'.entries[key]))
      && (forall id :: id in s'.threads ==> ThreadRests(cfg, past + [s'], s', s'.threads[id]))
  {
    var s' := Next(cfg, s, step);
    forall key | key in s'.entries
      ensures EntryRests(cfg, past + [s'], key, s'.entries[key])
    {
      EntryRestsLater(cfg, past, s', key, s'.entries[key]);
    }
    forall id | id in s'.threads
      ensures ThreadRests(cfg, past + [s'], s', s'.threads[id])
    {
      ThreadRestsLater(cfg, past, s, s', s'.threads[id]);
    }
  }

  // ---------------------------------------------------------------- runs

  lemma {:induction false} TraceRests(cfg: Config, past: seq<System>, s: System, steps: seq<Step>)
    requires Traced(cfg, past + [s], s) && Trace(cfg, s, steps)
    ensures Traced(cfg, past + History(cfg, s, steps), After(cfg, s, steps))
    decreases |steps|
  {
    if steps != [] {
      TracedStep(cfg, past + [s], s, steps[0]);
      TraceRests(cfg, past + [s], Next(cfg, s, steps[0]), steps[1..]);
      assert past + History(cfg, s, steps) == past + [s] + History(cfg, Next(cfg, s, steps[0]), steps[1..]);
    }
  }

  lemma {:induction false} FromTheStart(cfg: Config, s: System, steps: seq<Step>)
    requires Initial(s) && Trace(cfg, s, steps)
    ensures Traced(cfg, History(cfg, s, steps), After(cfg, s, steps))
  {
    assert [] + [s] == [s];
    TraceRests(cfg, [], s, steps);
    assert [] + History(cfg, s, steps) == History(cfg, s, steps);
  }

  /** Mutations may be pending at the second stamp read: a decision served under an unmoved stamp is what
  the engine makes of reads each of which saw every change that had been bumped when the call began. */
  lemma {:induction false} EvaluatedRests(cfg: Config, s: System, steps: seq<Step>, id: nat)
    requires Initial(s) && Trace(cfg, s, steps)
    requires id in After(cfg, s, steps).threads && After(cfg, s, steps).threads[id].Evaluated?
    requires var s' := After(cfg, s, steps); StampOf(s', s'.threads[id].call.q) == s'.threads[id].before
    ensures var t := After(cfg, s, steps).threads[id];
      Rests(cfg, History(cfg, s, steps), t.call.q, t.before, t.at, t.decision)
  {
    FromTheStart(cfg, s, steps);
    var s' := After(cfg, s, steps);
    var t := s'.threads[id];
    assert ThreadRests(cfg, History(cfg, s, steps), s', t);
    UnmovedSeen(cfg, History(cfg, s, steps), s', t.call.q, t.at, t.decision);
  }

  /** And so is a cached decision, of reads under the stamp it is served under. */
  lemma {:induction false} ServedRests(cfg: Config, s: System, steps: seq<Step>, id: nat)
    requires Initial(s) && Trace(cfg, s, steps)
    requires id in After(cfg, s, steps).threads && After(cfg, s, steps).threads[id].Hit?
    ensures var Hit(call, before, e) := After(cfg, s, steps).threads[id];
      e.stamp == before && EntryRests(cfg, History(cfg, s, steps), KeyOf(call.q), e)
  {
    FromTheStart(cfg, s, steps);
    assert ThreadRests(cfg, History(cfg, s, steps), After(cfg, s, steps), After(cfg, s, steps).threads[id]);
  }
}
