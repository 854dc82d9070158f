/** One authorization call of the protocol with nothing else going on: it takes a single attempt, and this is what it
answers and what it leaves in the cache. */
module SoloCalls {
  import opened Governance
  import opened Authorization
  import opened AuthorizationTheorems
  import opened Writes
  import opened TornEngine
  import opened DecisionCache
  import opened Coherence
  import opened RuntimeObjects

  /** Only steps of the call `id`. */
  predicate StepsOf(id: nat, steps: seq<Step>) {
    forall k :: 0 <= k < |steps| ==> CallStep(steps[k]) && steps[k].id == id
  }

  /** The system with the call at `t` and these entries, and all else as it was. */
  function At(s: System, id: nat, t: Thread, entries: Entries): System {
    s.(threads := s.threads[id := t], entries := entries)
  }

  /** The steps are possible one after another, are all steps of the call, and lead there. */
  ghost predicate LeadTo(cfg: Config, s: System, id: nat, steps: seq<Step>, t: Thread, entries: Entries) {
    Run(cfg, s, steps) && StepsOf(id, steps) && After(cfg, s, steps) == At(s, id, t, entries)
  }

  lemma {:induction false} Joined(cfg: Config, s: System, a: seq<Step>, b: seq<Step>)
    requires Run(cfg, s, a) && Run(cfg, After(cfg, s, a), b)
    ensures Run(cfg, s, a + b) && After(cfg, s, a + b) == After(cfg, After(cfg, s, a), b)
    decreases |a|
  {
    if a == [] {
      assert a + b == b;
    } else {
      Joined(cfg, Next(cfg, s, a[0]), a[1..], b);
      assert (a + b)[0] == a[0] && (a + b)[1..] == a[1..] + b;
    }
  }

  lemma {:induction false} OneAfterAnother(cfg: Config, s: System, id: nat, a: seq<Step>, t: Thread, entries: Entries,
                                           b: seq<Step>, t': Thread, entries': Entries)
    requires LeadTo(cfg, s, id, a, t, entries) && LeadTo(cfg, At(s, id, t, entries), id, b, t', entries')
    ensures LeadTo(cfg, s, id, a + b, t', entries')
  {
    Joined(cfg, s, a, b);
    assert At(At(s, id, t, entries), id, t', entries') == At(s, id, t', entries');
  }

  /** One step of the call. */
  lemma {:induction false} OneStepOf(cfg: Config, s: System, id: nat, step: Step)
    requires CallStep(step) && step.id == id && Enabled(cfg, s, step)
    ensures id in s.threads
    ensures var (t, entries) := Advance(cfg, s, step, s.threads[id]); LeadTo(cfg, s, id, [step], t, entries)
  {
    assert [step][1..] == [];
    assert Run(cfg, Next(cfg, s, step), []);
  }

  // ---------------------------------------------------------------- the engine's part

  lemma {:induction false} Reading(cfg: Config, s: System, id: nat, tape: Reads, more: Reads) returns (steps: seq<Step>)
    requires id in s.threads && s.threads[id].Evaluating? && s.threads[id].tape == tape && AllFrom(more, s.repos)
    ensures LeadTo(cfg, s, id, steps, s.threads[id].(tape := tape + more), s.entries)
    decreases |more|
  {
    if more == [] {
      steps := [];
      assert tape + more == tape && s.threads[id := s.threads[id].(tape := tape)] == s.threads;
    } else {
      OneStepOf(cfg, s, id, EngineRead(id));
      var read := tape + [s.repos];
      var s1 := At(s, id, s.threads[id].(tape := read), s.entries);
      var rest := Reading(cfg, s1, id, read, more[1..]);
      assert more[0] in more && read + more[1..] == tape + more;
      OneAfterAnother(cfg, s, id, [EngineRead(id)], s.threads[id].(tape := read), s.entries, rest,
                      s.threads[id].(tape := tape + more), s.entries);
      steps := [EngineRead(id)] + rest;
    }
  }

  /** From a miss, the engine fetches what it needs from the repositories as they stand. */
  lemma {:induction false} Fetching(cfg: Config, s: System, id: nat, fed: Reads) returns (steps: seq<Step>)
    requires id in s.threads && s.threads[id].Missed? && AllFrom(fed, s.repos)
    ensures var t := s.threads[id];
      LeadTo(cfg, s, id, steps, Evaluating(t.call, t.before, t.cacheable, s.clock, fed), s.entries)
  {
    var t := s.threads[id];
    OneStepOf(cfg, s, id, StartEngine(id));
    var begun := Evaluating(t.call, t.before, t.cacheable, s.clock, []);
    var fetches := Reading(cfg, At(s, id, begun, s.entries), id, [], fed);
    assert [] + fed == fed;
    OneAfterAnother(cfg, s, id, [StartEngine(id)], begun, s.entries, fetches, begun.(tape := fed), s.entries);
    steps := [StartEngine(id)] + fetches;
  }

  /** ... and decides over them. */
  lemma {:induction false} Deciding(cfg: Config, s: System, id: nat) returns (steps: seq<Step>)
    requires Sound(s.repos) && id in s.threads && s.threads[id].Missed?
    ensures var t := s.threads[id];
      LeadTo(cfg, s, id, steps,
             Evaluated(t.call, t.before, t.cacheable, s.clock, Authorize(s.repos, cfg.maxDepth, t.call.q, s.clock)),
             s.entries)
  {
    var t := s.threads[id];
    var d := Authorize(s.repos, cfg.maxDepth, t.call.q, s.clock);
    var fed := Undisturbed(s.repos, cfg.maxDepth, t.call.q, s.clock);
    var fetches := Fetching(cfg, s, id, fed);
    var fetched := Evaluating(t.call, t.before, t.cacheable, s.clock, fed);
    OneStepOf(cfg, At(s, id, fetched, s.entries), id, EngineDecide(id, d));
    OneAfterAnother(cfg, s, id, fetches, fetched, s.entries, [EngineDecide(id, d)],
                    Evaluated(t.call, t.before, t.cacheable, s.clock, d), s.entries);
    steps := fetches + [EngineDecide(id, d)];
  }

  // ---------------------------------------------------------------- what a call comes to

  /** What is found for the request in the cache: an entry under the present stamp that has not ended. */
  ghost predicate Found(s: System, q: Request) {
    KeyOf(q) in s.entries && s.entries[KeyOf(q)].stamp == StampOf(s, q) && s.clock < s.entries[KeyOf(q)].expiresAt
  }

  /** The answer of a call that was alone, and the entries it leaves, given what the registry said about the request and
  later about what was found. */
  ghost predicate Outcome(cfg: Config, s: System, q: Request, request: Verdict, later: Verdict, t: Thread,
                          entries: Entries)
  {
    var d := Authorize(s.repos, cfg.maxDepth, q, s.clock);
    var dropped := Without(s.entries, KeyOf(q));
    if request.Revoked? || (request.NotRevoked? && later.Revoked?) then t.DeniedByRevocation? && entries == dropped
    else
      && t.Returned?
      && if request.NotRevoked? && later.NotRevoked? && Found(s, q) then
           t.decision == ToDecision(s.entries[KeyOf(q)].decision, q, s.clock) && entries == s.entries
         else
           && t.decision == d
           && if request.NotRevoked? && later.NotRevoked? && d.allowed then
                CachedIn(entries, cfg, q, StampOf(s, q), s.clock, d) && Without(entries, KeyOf(q)) == dropped
              else entries == dropped
  }

  /** From a miss to a decision under a stamp that has not moved. */
  lemma {:induction false} Stabilizing(cfg: Config, s: System, id: nat) returns (steps: seq<Step>)
    requires Sound(s.repos) && id in s.threads && s.threads[id].Missed?
    requires s.threads[id].before == StampOf(s, s.threads[id].call.q)
    ensures var t := s.threads[id];
      LeadTo(cfg, s, id, steps,
             Stable(t.call, t.before, t.cacheable, s.clock, Authorize(s.repos, cfg.maxDepth, t.call.q, s.clock)),
               s.entries)
  {
    var t := s.threads[id];
    var d := Authorize(s.repos, cfg.maxDepth, t.call.q, s.clock);
    var decided := Deciding(cfg, s, id);
    var t1 := Evaluated(t.call, t.before, t.cacheable, s.clock, d);
    OneStepOf(cfg, At(s, id, t1, s.entries), id, ReadAfter(id));
    OneAfterAnother(cfg, s, id, decided, t1, s.entries, [ReadAfter(id)],
                    Stable(t.call, t.before, t.cacheable, s.clock, d), s.entries);
    steps := decided + [ReadAfter(id)];
  }

  /** The ALLOW is stored and returned. */
  lemma {:induction false} Keeping(cfg: Config, s: System, id: nat) returns (entries: Entries)
    requires Sound(s.repos) && cfg.ttl > 0 && id in s.threads && s.threads[id].Storing?
      && s.threads[id].call.now == s.clock
    requires s.threads[id].decision == Authorize(s.repos, cfg.maxDepth, s.threads[id].call.q, s.clock)
    ensures var t := s.threads[id];
      && LeadTo(cfg, s, id, [Put(id)], Returned(t.call, t.decision), entries)
      && CachedIn(entries, cfg, t.call.q, t.before, s.clock, t.decision)
      && Without(entries, KeyOf(t.call.q)) == Without(s.entries, KeyOf(t.call.q))
  {
    var t := s.threads[id];
    DecisionWellFormed(s.repos, cfg.maxDepth, t.call.q, s.clock);
    DecisionStamped(s.repos, cfg.maxDepth, t.call.q, s.clock);
    OneStepOf(cfg, s, id, Put(id));
    entries := Advance(cfg, s, Put(id), t).1;
  }

  /** What a decision under a stamp that has not moved comes to. */
  ghost predicate Concluded(cfg: Config, s: System, t: Thread, later: Verdict, t': Thread, entries: Entries)
    requires t.Stable?
  {
    var key := KeyOf(t.call.q);
    if t.cacheable && later.Revoked? then t'.DeniedByRevocation? && entries == Without(s.entries, key)
    else
      && t'.Returned? && t'.decision == t.decision
      && if t.cacheable && later.NotRevoked? && t.decision.allowed then
           CachedIn(entries, cfg, t.call.q, t.before, s.clock, t.decision)
             && Without(entries, key) == Without(s.entries, key)
         else entries == if t.cacheable && later.RegistryDown? then Without(s.entries, key) else s.entries
  }

  lemma {:induction false} Concluding(cfg: Config, s: System, id: nat, later: Verdict)
    returns (steps: seq<Step>, t': Thread, entries: Entries)
    requires Sound(s.repos) && cfg.ttl > 0 && id in s.threads && s.threads[id].Stable?
      && s.threads[id].call.now == s.clock
    requires s.threads[id].decision == Authorize(s.repos, cfg.maxDepth, s.threads[id].call.q, s.clock)
    ensures LeadTo(cfg, s, id, steps, t', entries) && Concluded(cfg, s, s.threads[id], later, t', entries)
  {
    var check := CheckDecision(id, later);
    OneStepOf(cfg, s, id, check);
    steps := [check];
    t', entries := Advance(cfg, s, check, s.threads[id]).0, Advance(cfg, s, check, s.threads[id]).1;
    if t'.Storing? {
      var kept := Keeping(cfg, At(s, id, t', entries), id);
      var returned := Returned(t'.call, t'.decision);
      OneAfterAnother(cfg, s, id, [check], t', entries, [Put(id)], returned, kept);
      steps, t', entries := [check] + [Put(id)], returned, kept;
    }
  }

  /** From a miss to the answer. */
  lemma {:induction false} Answering(cfg: Config, s: System, id: nat, later: Verdict)
    returns (steps: seq<Step>, t': Thread, entries: Entries)
    requires Sound(s.repos) && cfg.ttl > 0 && id in s.threads && s.threads[id].Missed?
    requires s.threads[id].call.now == s.clock && s.threads[id].before == StampOf(s, s.threads[id].call.q)
    ensures LeadTo(cfg, s, id, steps, t', entries)
    ensures var t := s.threads[id];
      Concluded(cfg, s, Stable(t.call, t.before, t.cacheable, s.clock,
                               Authorize(s.repos, cfg.maxDepth, t.call.q, s.clock)), later, t', entries)
  {
    var t := s.threads[id];
    var stable := Stable(t.call, t.before, t.cacheable, s.clock, Authorize(s.repos, cfg.maxDepth, t.call.q, s.clock));
    var first := Stabilizing(cfg, s, id);
    var last;
    last, t', entries := Concluding(cfg, At(s, id, stable, s.entries), id, later);
    OneAfterAnother(cfg, s, id, first, stable, s.entries, last, t', entries);
    steps := first + last;
  }

  /** From a hit to the answer, or to the engine. */
  lemma {:induction false} Serving(cfg: Config, s: System, id: nat, later: Verdict)
    returns (steps: seq<Step>, t': Thread, entries: Entries)
    requires Sound(s.repos) && cfg.ttl > 0 && id in s.threads && s.threads[id].Hit?
    requires s.threads[id].call.now == s.clock && s.threads[id].before == StampOf(s, s.threads[id].call.q)
    ensures LeadTo(cfg, s, id, steps, t', entries)
    ensures var t := s.threads[id];
      var dropped := Without(s.entries, KeyOf(t.call.q));
      match later
      case NotRevoked =>
        t'.Returned? && t'.decision == ToDecision(t.entry.decision, t.call.q, s.clock) && entries == s.entries
      case Revoked => t'.DeniedByRevocation? && entries == dropped
      case RegistryDown =>
        t'.Returned? && t'.decision == Authorize(s.repos, cfg.maxDepth, t.call.q, s.clock) && entries == dropped
  {
    var t := s.threads[id];
    OneStepOf(cfg, s, id, ConfirmStamp(id));
    var t1 := Confirmed(t.call, t.before, t.entry);
    var s1 := At(s, id, t1, s.entries);
    var check := CheckCached(id, later);
    OneStepOf(cfg, s1, id, check);
    t', entries := Advance(cfg, s1, check, t1).0, Advance(cfg, s1, check, t1).1;
    OneAfterAnother(cfg, s, id, [ConfirmStamp(id)], t1, s.entries, [check], t', entries);
    steps := [ConfirmStamp(id)] + [check];
    if later.RegistryDown? {
      var rest, t2, entries2 := Answering(cfg, At(s, id, t', entries), id, later);
      OneAfterAnother(cfg, s, id, steps, t', entries, rest, t2, entries2);
      steps, t', entries := steps + rest, t2, entries2;
    }
  }

  /** From the first look at the registry to the answer. */
  lemma {:induction false} Continuing(cfg: Config, s: System, id: nat, request: Verdict, later: Verdict)
    returns (steps: seq<Step>, t': Thread, entries: Entries)
    requires Sound(s.repos) && cfg.ttl > 0 && id in s.threads && s.threads[id].Stamped?
    requires s.threads[id].call.now == s.clock && s.threads[id].before == StampOf(s, s.threads[id].call.q)
    ensures LeadTo(cfg, s, id, steps, t', entries)
    ensures Outcome(cfg, s, s.threads[id].call.q, request, later, t', entries)
  {
    var t := s.threads[id];
    var check := CheckRequest(id, request);
    OneStepOf(cfg, s, id, check);
    steps := [check];
    t', entries := Advance(cfg, s, check, t).0, Advance(cfg, s, check, t).1;
    if !request.Revoked? {
      var s1 := At(s, id, t', entries);
      var rest, t2, entries2;
      if request.NotRevoked? {
        rest, t2, entries2 := Resolving(cfg, s1, id, later);
      } else {
        rest, t2, entries2 := Answering(cfg, s1, id, later);
      }
      OneAfterAnother(cfg, s, id, steps, t', entries, rest, t2, entries2);
      steps, t', entries := steps + rest, t2, entries2;
    }
  }

  /** From looking in the cache to the answer. */
  lemma {:induction false} Resolving(cfg: Config, s: System, id: nat, later: Verdict)
    returns (steps: seq<Step>, t': Thread, entries: Entries)
    requires Sound(s.repos) && cfg.ttl > 0 && id in s.threads && s.threads[id].Looking?
    requires s.threads[id].call.now == s.clock && s.threads[id].before == StampOf(s, s.threads[id].call.q)
    ensures LeadTo(cfg, s, id, steps, t', entries)
    ensures Outcome(cfg, s, s.threads[id].call.q, NotRevoked, later, t', entries)
  {
    var t := s.threads[id];
    var get := CacheGet(id);
    OneStepOf(cfg, s, id, get);
    var t1, entries1 := Advance(cfg, s, get, t).0, Advance(cfg, s, get, t).1;
    var rest;
    if t1.Hit? {
      rest, t', entries := Serving(cfg, At(s, id, t1, entries1), id, later);
    } else {
      rest, t', entries := Answering(cfg, At(s, id, t1, entries1), id, later);
      DroppedTwice(s.entries, KeyOf(t.call.q));
    }
    OneAfterAnother(cfg, s, id, [get], t1, entries1, rest, t', entries);
    steps := [get] + rest;
  }

  lemma {:induction false} DroppedTwice(entries: Entries, key: Request)
    ensures Without(Without(entries, key), key) == Without(entries, key)
  {
  }

  /** The clock and the first stamp. */
  lemma {:induction false} Starting(cfg: Config, s: System, id: nat) returns (steps: seq<Step>)
    requires id in s.threads && s.threads[id].Begun?
    ensures var call := s.threads[id].call.(now := s.clock);
      LeadTo(cfg, s, id, steps, Stamped(call, StampOf(s, call.q)), s.entries)
  {
    var call := s.threads[id].call.(now := s.clock);
    OneStepOf(cfg, s, id, ReadClock(id));
    OneStepOf(cfg, At(s, id, Timed(call), s.entries), id, ReadBefore(id));
    OneAfterAnother(cfg, s, id, [ReadClock(id)], Timed(call), s.entries, [ReadBefore(id)],
                    Stamped(call, StampOf(s, call.q)), s.entries);
    steps := [ReadClock(id)] + [ReadBefore(id)];
  }

  lemma {:induction false} AfterBegin(cfg: Config, s: System, id: nat, q: Request, steps: seq<Step>, t: Thread,
                                      entries: Entries)
    requires id !in s.threads
    requires LeadTo(cfg, At(s, id, Begun(Call(q, [], s.clock)), s.entries), id, steps, t, entries)
    ensures Run(cfg, s, [Begin(id, q)] + steps) && After(cfg, s, [Begin(id, q)] + steps) == At(s, id, t, entries)
  {
    var s0 := At(s, id, Begun(Call(q, [], s.clock)), s.entries);
    assert Next(cfg, s, Begin(id, q)) == s0;
    assert ([Begin(id, q)] + steps)[1..] == steps && At(s0, id, t, entries) == At(s, id, t, entries);
  }

  /** A call that is alone takes one attempt to its answer, whatever the registry says, and leaves the cache so. */
  lemma {:induction false} SoloCall(cfg: Config, s: System, id: nat, q: Request, request: Verdict, later: Verdict)
    returns (steps: seq<Step>, t: Thread, entries: Entries)
    requires Sound(s.repos) && cfg.ttl > 0 && id !in s.threads
    ensures Run(cfg, s, [Begin(id, q)] + steps) && StepsOf(id, steps)
    ensures After(cfg, s, [Begin(id, q)] + steps) == At(s, id, t, entries)
    ensures Outcome(cfg, s, q, request, later, t, entries)
  {
    var s0 := At(s, id, Begun(Call(q, [], s.clock)), s.entries);
    var stamped := Stamped(Call(q, [], s.clock), StampOf(s, q));
    var first := Starting(cfg, s0, id);
    var rest;
    rest, t, entries := Continuing(cfg, At(s0, id, stamped, s.entries), id, request, later);
    OneAfterAnother(cfg, s0, id, first, stamped, s.entries, rest, t, entries);
    steps := first + rest;
    AfterBegin(cfg, s, id, q, steps, t, entries);
  }

  /** A stamp that has moved costs the attempt: it goes on record, the call begins again or gives up, and what the
  engine has decided is dropped from the cache, while an entry that could not be confirmed stays. */
  lemma {:induction false} MovedStamp(cfg: Config, s: System, id: nat)
    requires id in s.threads && (s.threads[id].Hit? || s.threads[id].Evaluated?)
    requires s.threads[id].before != StampOf(s, s.threads[id].call.q)
    ensures var t := s.threads[id];
      var step := if t.Hit? then ConfirmStamp(id) else ReadAfter(id);
      var t' := Next(cfg, s, step).threads[id];
      && Enabled(cfg, s, step)
      && Next(cfg, s, step) == At(s, id, t', if t.Hit? then s.entries else Without(s.entries, KeyOf(t.call.q)))
      && (if |t.call.failures| < cfg.maxRetries then t'.Begun? else t'.Unavailable?) && t'.call.q == t.call.q
      && t'.call.failures == t.call.failures + [(t.before, StampOf(s, t.call.q))]
  {
  }
}
