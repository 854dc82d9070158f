/** The distributed runtime as a protocol of interleaved steps, and why its cache stays coherent.
Mutators save to a repository and only afterwards bump a version dimension that covers the save.  Any
number of authorization calls run at the same time, each between two reads of its stamp; the engine's own
reads fall anywhere between them, each from the repositories as they stand at that instant, and the
decision is what the engine makes of what it read. */
module Coherence {
  import opened Prelude
  import opened Governance
  import opened Authorization
  import opened AuthorizationTheorems
  import opened SecurityState
  import opened Writes
  import opened KeptAllows
  import opened TornEngine
  import opened DecisionCache

  /** The settings of the runtime; and whether the environment is `still`, so that a save that publishes
  nothing only ever writes back what is stored. */
  datatype Config = Config(maxDepth: nat, ttl: Time, maxRetries: nat, still: bool)

  /** What a look at the revocation registry tells a call. */
  datatype Verdict = NotRevoked | Revoked | RegistryDown

  /** One authorization call: its request, the stamp pairs of its failed attempts, and the instant of
  the current attempt. */
  datatype Call = Call(q: Request, failures: seq<(Stamp, Stamp)>, now: Time)

  datatype Thread =
    | Begun(call: Call)
    | Timed(call: Call)
    | Stamped(call: Call, before: Stamp)
    | Looking(call: Call, before: Stamp)
    | Hit(call: Call, before: Stamp, entry: Entry)
    | Confirmed(call: Call, before: Stamp, entry: Entry)
    | Missed(call: Call, before: Stamp, cacheable: bool)
    | Evaluating(call: Call, before: Stamp, cacheable: bool, at: Time, tape: Reads)
    | Evaluated(call: Call, before: Stamp, cacheable: bool, at: Time, decision: Decision)
    | Stable(call: Call, before: Stamp, cacheable: bool, at: Time, decision: Decision)
    | Storing(call: Call, before: Stamp, at: Time, decision: Decision)
    | Returned(call: Call, decision: Decision)
    | DeniedByRevocation(call: Call)
    | Unavailable(call: Call)

  datatype System = System(
    clock: Time,
    repos: Repositories,
    versions: Versions,
    pending: multiset<Dimension>,
    entries: Entries,
    threads: map<nat, Thread>)

  datatype Step =
    | Tick(to: Time)
    | Save(write: Write, dimension: Dimension)
    | Announce(dimension: Dimension)
    | SilentSave(write: Write)
    | BumpDimension(dimension: Dimension)
    | Evict(key: Request)
    | Begin(id: nat, q: Request)
    | ReadClock(id: nat)
    | ReadBefore(id: nat)
    | CheckRequest(id: nat, verdict: Verdict)
    | CacheGet(id: nat)
    | ConfirmStamp(id: nat)
    | CheckCached(id: nat, verdict: Verdict)
    | StartEngine(id: nat)
    | EngineRead(id: nat)
    | EngineDecide(id: nat, decision: Decision)
    | ReadAfter(id: nat)
    | CheckDecision(id: nat, verdict: Verdict)
    | Put(id: nat)

  function StampOf(s: System, q: Request): Stamp {
    StampFor(s.versions, q.subject, q.tenant)
  }

  function ViewOf(s: System, q: Request): Repositories {
    View(s.repos, q.subject, q.tenant)
  }

  ghost predicate Enabled(cfg: Config, s: System, step: Step) {
    match step
    case Tick(to) => s.clock <= to
    case Save(w, d) => Permitted(s.repos, w, s.clock) && Covers(d, w)
    case Announce(_) => true
    case SilentSave(w) => Permitted(s.repos, w, s.clock)
    case BumpDimension(d) => d in s.pending
    case Evict(_) => true
    case Begin(id, q) => id !in s.threads
    case ReadClock(id) => id in s.threads && s.threads[id].Begun?
    case ReadBefore(id) => id in s.threads && s.threads[id].Timed?
    case CheckRequest(id, _) => id in s.threads && s.threads[id].Stamped?
    case CacheGet(id) => id in s.threads && s.threads[id].Looking?
    case ConfirmStamp(id) => id in s.threads && s.threads[id].Hit?
    case CheckCached(id, _) => id in s.threads && s.threads[id].Confirmed?
    case StartEngine(id) => id in s.threads && s.threads[id].Missed?
    case EngineRead(id) => id in s.threads && s.threads[id].Evaluating?
    case EngineDecide(id, d) =>
      id in s.threads && s.threads[id].Evaluating? &&
      var t := s.threads[id];
      AuthorizeTorn(cfg.maxDepth, t.call.q, t.at, t.tape) == Got(d, [])
    case ReadAfter(id) => id in s.threads && s.threads[id].Evaluated?
    case CheckDecision(id, _) => id in s.threads && s.threads[id].Stable?
    case Put(id) => id in s.threads && s.threads[id].Storing?
  }

  /** The attempt failed: try again, or give up after the configured number of retries. */
  function Retry(cfg: Config, s: System, call: Call, before: Stamp): Thread {
    var failed := call.failures + [(before, StampOf(s, call.q))];
    if |failed| > cfg.maxRetries then Unavailable(call.(failures := failed))
    else Begun(call.(failures := failed))
  }

  function ExpiryOf(cfg: Config, d: Decision, at: Time): Time {
    if d.validUntil.Some? && d.validUntil.value < at + cfg.ttl then d.validUntil.value else at + cfg.ttl
  }

  /** The thread after its step, and the cache after it. */
  function Advance(cfg: Config, s: System, step: Step, t: Thread): (Thread, Entries) {
    var call := t.call;
    var key := KeyOf(call.q);
    match (step, t)
    case (ReadClock(_), Begun(_)) => (Timed(call.(now := s.clock)), s.entries)
    case (ReadBefore(_), Timed(_)) => (Stamped(call, StampOf(s, call.q)), s.entries)
    case (CheckRequest(_, v), Stamped(_, before)) =>
      (match v
       case NotRevoked => (Looking(call, before), s.entries)
       case Revoked => (DeniedByRevocation(call), Without(s.entries, key))
       case RegistryDown => (Missed(call, before, false), Without(s.entries, key)))
    case (CacheGet(_), Looking(_, before)) =>
      if key in s.entries && s.entries[key].ValidFor(before, call.now) then
        (Hit(call, before, s.entries[key]), s.entries)
      else (Missed(call, before, true), Without(s.entries, key))
    case (ConfirmStamp(_), Hit(_, before, entry)) =>
      if StampOf(s, call.q) != before then (Retry(cfg, s, call, before), s.entries)
        else (Confirmed(call, before, entry), s.entries)
    case (CheckCached(_, v), Confirmed(_, before, entry)) =>
      (match v
       case NotRevoked => (Returned(call, ToDecision(entry.decision, call.q, call.now)), s.entries)
       case Revoked => (DeniedByRevocation(call), Without(s.entries, key))
       case RegistryDown => (Missed(call, before, false), Without(s.entries, key)))
    case (StartEngine(_), Missed(_, before, cacheable)) => (Evaluating(call, before, cacheable, s.clock, []), s.entries)
    case (EngineRead(_), Evaluating(_, before, cacheable, at, tape)) =>
      (Evaluating(call, before, cacheable, at, tape + [s.repos]), s.entries)
    case (EngineDecide(_, d), Evaluating(_, before, cacheable, at, _)) =>
      (Evaluated(call, before, cacheable, at, d), s.entries)
    case (ReadAfter(_), Evaluated(_, before, cacheable, at, d)) =>
      if StampOf(s, call.q) != before then (Retry(cfg, s, call, before), Without(s.entries, key))
      else (Stable(call, before, cacheable, at, d), s.entries)
    case (CheckDecision(_, v), Stable(_, before, cacheable, at, d)) =>
      if !cacheable then (Returned(call, d), s.entries)
      else (match v
            case NotRevoked => (if d.allowed then Storing(call, before, at, d) else Returned(call, d), s.entries)
            case Revoked => (DeniedByRevocation(call), Without(s.entries, key))
            case RegistryDown => (Returned(call, d), Without(s.entries, key)))
    case (Put(_), Storing(_, before, at, d)) =>
      var expiry := ExpiryOf(cfg, d, call.now);
      (Returned(call, d),
       if expiry <= call.now then s.entries else s.entries[key := Entry(FromDecision(d), before, call.now, expiry)])
    case _ => (t, s.entries)
  }

  function Next(cfg: Config, s: System, step: Step): System {
    match step
    case Tick(to) => s.(clock := to)
    case Save(w, d) => s.(repos := ApplyWrite(s.repos, w), pending := s.pending + multiset{d})
    case Announce(d) => s.(pending := s.pending + multiset{d})
    case SilentSave(w) => s.(repos := ApplyWrite(s.repos, w))
    case BumpDimension(d) => s.(versions := Bump(s.versions, d), pending := s.pending - multiset{d})
    case Evict(key) => s.(entries := Without(s.entries, key))
    case Begin(id, q) => s.(threads := s.threads[id := Begun(Call(q, [], s.clock))])
    case _ =>
      if step.id !in s.threads then s
      else
        var (t, entries) := Advance(cfg, s, step, s.threads[step.id]);
        s.(threads := s.threads[step.id := t], entries := entries)
  }

  // ---------------------------------------------------------------- the invariant

  /** No announced mutation that touches this subject and tenant is between its save and its bump. */
  ghost predicate Quiet(s: System, q: Request) {
    forall d :: d in s.pending ==> !Touches(d, q.subject, q.tenant)
  }

  /** The stamp is the current one and nothing is about to move it. */
  ghost predicate UpToDate(s: System, q: Request, stamp: Stamp) {
    StampOf(s, q) == stamp && Quiet(s, q)
  }

  /** The entry is the ALLOW the engine makes at `t` from this view, kept no longer than it is valid. */
  ghost predicate JustifiedAt(cfg: Config, view: Repositories, key: Request, e: Entry, t: Time) {
    && NothingPostdated(view, key, t)
    && Authorize(view, cfg.maxDepth, key, t).allowed
    && e.decision == FromDecision(Authorize(view, cfg.maxDepth, key, t))
    && (e.decision.validUntil.Some? ==> e.expiresAt <= e.decision.validUntil.value)
  }

  ghost predicate Justified(cfg: Config, s: System, key: Request, e: Entry) {
    UpToDate(s, key, e.stamp) ==> exists t :: t <= s.clock && JustifiedAt(cfg, ViewOf(s, key), key, e, t)
  }

  ghost predicate EntryOk(cfg: Config, s: System, key: Request, e: Entry) {
    StampLe(e.stamp, StampOf(s, key)) && Justified(cfg, s, key, e)
  }

  ghost predicate DecisionOk(cfg: Config, s: System, q: Request, before: Stamp, at: Time, d: Decision) {
    UpToDate(s, q, before) ==>
      && NothingPostdated(ViewOf(s, q), q, at)
      && (cfg.still || d.allowed ==> d == Authorize(ViewOf(s, q), cfg.maxDepth, q, at))
  }

  /** What was read is kept by the repositories as they stand, once nothing can have moved the stamp. */
  ghost predicate TapeOk(cfg: Config, s: System, q: Request, before: Stamp, tape: Reads) {
    && (forall v :: v in tape ==> RolesPersist(v.roles, s.repos.roles))
    && (UpToDate(s, q, before) ==> forall v :: v in tape ==>
          Keeps(cfg.still, View(v, q.subject, q.tenant), ViewOf(s, q)))
  }

  ghost predicate FailuresOk(cfg: Config, t: Thread) {
    && (forall f :: f in t.call.failures ==> f.0 != f.1)
    && (if t.Unavailable? then |t.call.failures| == cfg.maxRetries + 1 else |t.call.failures| <= cfg.maxRetries)
  }

  ghost predicate ThreadOk(cfg: Config, s: System, t: Thread) {
    && t.call.now <= s.clock
    && FailuresOk(cfg, t)
    && match t
       case Stamped(call, before) => StampLe(before, StampOf(s, call.q))
       case Looking(call, before) => StampLe(before, StampOf(s, call.q))
       case Missed(call, before, _) => StampLe(before, StampOf(s, call.q))
       case Hit(call, before, e) => e.ValidFor(before, call.now) && EntryOk(cfg, s, KeyOf(call.q), e)
       case Confirmed(call, before, e) => e.ValidFor(before, call.now) && EntryOk(cfg, s, KeyOf(call.q), e)
       case Evaluating(call, before, _, at, tape) =>
         && call.now <= at <= s.clock && StampLe(before, StampOf(s, call.q)) && TapeOk(cfg, s, call.q, before, tape)
         && (UpToDate(s, call.q, before) ==> NothingPostdated(ViewOf(s, call.q), call.q, at))
       case Evaluated(call, before, _, at, d) =>
         call.now <= at <= s.clock && StampLe(before, StampOf(s, call.q)) && DecisionOk(cfg, s, call.q, before, at, d)
       case Stable(call, before, _, at, d) =>
         call.now <= at <= s.clock && StampLe(before, StampOf(s, call.q)) && DecisionOk(cfg, s, call.q, before, at, d)
       case Storing(call, before, at, d) =>
         d.allowed && call.now <= at <= s.clock && StampLe(before, StampOf(s, call.q))
           && DecisionOk(cfg, s, call.q, before, at, d)
       case _ => true
  }

  ghost predicate Invariant(cfg: Config, s: System) {
    && Sound(s.repos) && StartedBy(s.repos, s.clock)
    && (forall key :: key in s.entries ==> EntryOk(cfg, s, key, s.entries[key]))
    && (forall id :: id in s.threads ==> ThreadOk(cfg, s, s.threads[id]))
  }

  // ---------------------------------------------------------------- how the environment may evolve

  /** From `s` to `s'`, stamps only climb, and a stamp that is up to date in `s'` and was the same in `s`
  was up to date there too, with a view that the present one keeps. */
  ghost predicate Evolves(cfg: Config, s: System, s': System) {
    && s.clock <= s'.clock && RolesPersist(s.repos.roles, s'.repos.roles)
    && forall q: Request ::
         && StampLe(StampOf(s, q), StampOf(s', q))
         && (StampOf(s', q) == StampOf(s, q) && Quiet(s', q) ==>
               Quiet(s, q) && Keeps(cfg.still, ViewOf(s, q), ViewOf(s', q)))
  }

  lemma StampLeTransitive(a: Stamp, b: Stamp, c: Stamp)
    requires StampLe(a, b) && StampLe(b, c)
    ensures StampLe(a, c) && (a == c ==> a == b)
  {
  }

  lemma UpToDateBefore(cfg: Config, s: System, s': System, q: Request, stamp: Stamp)
    requires Evolves(cfg, s, s') && StampLe(stamp, StampOf(s, q))
    ensures StampLe(stamp, StampOf(s', q))
    ensures UpToDate(s', q, stamp) ==> UpToDate(s, q, stamp) && Keeps(cfg.still, ViewOf(s, q), ViewOf(s', q))
  {
    StampLeTransitive(stamp, StampOf(s, q), StampOf(s', q));
  }

  lemma PostdatedKept(still: bool, v: Repositories, w: Repositories, q: Request, now: Time)
    requires Keeps(still, v, w)
    ensures NothingPostdated(v, q, now) == NothingPostdated(w, q, now)
  {
  }

  lemma EntryEvolves(cfg: Config, s: System, s': System, key: Request, e: Entry)
    requires Evolves(cfg, s, s') && EntryOk(cfg, s, key, e)
    ensures EntryOk(cfg, s', key, e)
  {
    UpToDateBefore(cfg, s, s', key, e.stamp);
    if UpToDate(s', key, e.stamp) {
      var t :| t <= s.clock && JustifiedAt(cfg, ViewOf(s, key), key, e, t);
      AllowKept(cfg.still, ViewOf(s, key), ViewOf(s', key), cfg.maxDepth, key, t);
      PostdatedKept(cfg.still, ViewOf(s, key), ViewOf(s', key), key, t);
      assert t <= s'.clock && JustifiedAt(cfg, ViewOf(s', key), key, e, t);
    }
  }

  lemma TapeEvolves(cfg: Config, s: System, s': System, q: Request, before: Stamp, tape: Reads)
    requires Evolves(cfg, s, s') && StampLe(before, StampOf(s, q)) && TapeOk(cfg, s, q, before, tape)
    ensures TapeOk(cfg, s', q, before, tape)
  {
    UpToDateBefore(cfg, s, s', q, before);
    if UpToDate(s', q, before) {
      forall v | v in tape
        ensures Keeps(cfg.still, View(v, q.subject, q.tenant), ViewOf(s', q))
      {
        KeepsTwice(cfg.still, View(v, q.subject, q.tenant), ViewOf(s, q), ViewOf(s', q));
      }
    }
  }

  lemma DecisionEvolves(cfg: Config, s: System, s': System, q: Request, before: Stamp, at: Time, d: Decision)
    requires Evolves(cfg, s, s') && StampLe(before, StampOf(s, q)) && DecisionOk(cfg, s, q, before, at, d)
    ensures DecisionOk(cfg, s', q, before, at, d)
  {
    UpToDateBefore(cfg, s, s', q, before);
    if UpToDate(s', q, before) {
      PostdatedKept(cfg.still, ViewOf(s, q), ViewOf(s', q), q, at);
      if d.allowed { AllowKept(cfg.still, ViewOf(s, q), ViewOf(s', q), cfg.maxDepth, q, at); }
    }
  }

  lemma EvaluatingEvolves(cfg: Config, s: System, s': System, t: Thread)
    requires t.Evaluating? && Evolves(cfg, s, s') && ThreadOk(cfg, s, t)
    ensures ThreadOk(cfg, s', t)
  {
    UpToDateBefore(cfg, s, s', t.call.q, t.before);
    TapeEvolves(cfg, s, s', t.call.q, t.before, t.tape);
    if UpToDate(s', t.call.q, t.before) {
      PostdatedKept(cfg.still, ViewOf(s, t.call.q), ViewOf(s', t.call.q), t.call.q, t.at);
    }
  }

  lemma ThreadEvolves(cfg: Config, s: System, s': System, t: Thread)
    requires Evolves(cfg, s, s') && ThreadOk(cfg, s, t)
    ensures ThreadOk(cfg, s', t)
  {
    match t
    case Hit(call, before, e) => EntryEvolves(cfg, s, s', KeyOf(call.q), e);
    case Confirmed(call, before, e) => EntryEvolves(cfg, s, s', KeyOf(call.q), e);
    case Stamped(call, before) => UpToDateBefore(cfg, s, s', call.q, before);
    case Looking(call, before) => UpToDateBefore(cfg, s, s', call.q, before);
    case Missed(call, before, _) => UpToDateBefore(cfg, s, s', call.q, before);
    case Evaluating(_, _, _, _, _) => EvaluatingEvolves(cfg, s, s', t);
    case Evaluated(call, before, _, at, d) =>
      UpToDateBefore(cfg, s, s', call.q, before);
      DecisionEvolves(cfg, s, s', call.q, before, at, d);
    case Stable(call, before, _, at, d) =>
      UpToDateBefore(cfg, s, s', call.q, before);
      DecisionEvolves(cfg, s, s', call.q, before, at, d);
    case Storing(call, before, at, d) =>
      UpToDateBefore(cfg, s, s', call.q, before);
      DecisionEvolves(cfg, s, s', call.q, before, at, d);
    case _ =>
  }

  predicate EnvironmentStep(step: Step) {
    step.Tick? || step.Save? || step.Announce? || step.SilentSave? || step.BumpDimension?
  }

  /** A save that publishes nothing is harmless when it is safe; in a still environment, when it writes
  back what the repository holds. */
  ghost predicate Harmless(cfg: Config, s: System, step: Step) {
    step.SilentSave? ==> if cfg.still then ApplyWrite(s.repos, step.write) == s.repos else SafeSave(s.repos, step.write)
  }

  lemma PermittedPersist(r: Repositories, w: Write, clock: Time)
    requires Permitted(r, w, clock)
    ensures RolesPersist(r.roles, ApplyWrite(r, w).roles)
  {
  }

  lemma SaveEvolves(cfg: Config, s: System, w: Write, d: Dimension, q: Request)
    requires Sound(s.repos) && Permitted(s.repos, w, s.clock) && Covers(d, w)
    ensures var s' := Next(cfg, s, Save(w, d));
      && StampOf(s', q) == StampOf(s, q)
      && (Quiet(s', q) ==> Quiet(s, q) && Keeps(cfg.still, ViewOf(s, q), ViewOf(s', q)))
  {
    var s' := Next(cfg, s, Save(w, d));
    assert d in s'.pending;
    assert forall x :: x in s.pending ==> x in s'.pending;
    if !Touches(DimensionOf(w), q.subject, q.tenant) {
      UntouchedView(s.repos, w, s.clock, q.subject, q.tenant);
      KeepsSelf(cfg.still, ViewOf(s, q));
    }
  }

  lemma SilentSaveEvolves(cfg: Config, s: System, w: Write, q: Request)
    requires Permitted(s.repos, w, s.clock) && Harmless(cfg, s, SilentSave(w))
    ensures Keeps(cfg.still, ViewOf(s, q), ViewOf(Next(cfg, s, SilentSave(w)), q))
  {
    if !cfg.still { SafeSaveKeeps(s.repos, w, s.clock, q.subject, q.tenant); }
  }

  lemma BumpEvolves(cfg: Config, s: System, d: Dimension, q: Request)
    requires d in s.pending
    ensures var s' := Next(cfg, s, BumpDimension(d));
      && StampLe(StampOf(s, q), StampOf(s', q))
      && (StampOf(s', q) == StampOf(s, q) && Quiet(s', q) ==>
            Quiet(s, q) && Keeps(cfg.still, ViewOf(s, q), ViewOf(s', q)))
  {
    var s' := Next(cfg, s, BumpDimension(d));
    BumpExact(s.versions, d, q.subject, q.tenant);
    assert forall x :: x in s.pending ==> x == d || x in s'.pending;
    KeepsSelf(cfg.still, ViewOf(s, q));
  }

  lemma EnvironmentEvolves(cfg: Config, s: System, step: Step)
    requires Invariant(cfg, s) && Enabled(cfg, s, step) && Harmless(cfg, s, step) && EnvironmentStep(step)
    ensures Evolves(cfg, s, Next(cfg, s, step))
    ensures Sound(Next(cfg, s, step).repos) && StartedBy(Next(cfg, s, step).repos, Next(cfg, s, step).clock)
  {
    var s' := Next(cfg, s, step);
    if step.Save? || step.SilentSave? {
      PermittedKeepsSound(s.repos, step.write, s.clock);
      PermittedPersist(s.repos, step.write, s.clock);
    }
    forall q: Request
      ensures StampLe(StampOf(s, q), StampOf(s', q))
      ensures StampOf(s', q) == StampOf(s, q) && Quiet(s', q) ==>
        Quiet(s, q) && Keeps(cfg.still, ViewOf(s, q), ViewOf(s', q))
    {
      match step
      case Announce(d) =>
        assert forall x :: x in s.pending ==> x in s'.pending;
        KeepsSelf(cfg.still, ViewOf(s, q));
      case Save(w, d) => SaveEvolves(cfg, s, w, d, q);
      case SilentSave(w) => SilentSaveEvolves(cfg, s, w, q);
      case BumpDimension(d) => BumpEvolves(cfg, s, d, q);
      case Tick(_) => KeepsSelf(cfg.still, ViewOf(s, q));
    }
  }

  // ---------------------------------------------------------------- the calls' own steps

  lemma ViewPostdated(s: System, q: Request)
    requires StartedBy(s.repos, s.clock)
    ensures NothingPostdated(ViewOf(s, q), q, s.clock)
  {
    BindingsOfMember(s.repos.bindings, q.subject, q.tenant);
  }

  /** What is stored for a request is right for every request with its key. */
  lemma StoredIsJustified(cfg: Config, s: System, q: Request, before: Stamp, at: Time, d: Decision, now: Time)
    requires Invariant(cfg, s) && now <= at <= s.clock && d.allowed && StampLe(before, StampOf(s, q))
      && DecisionOk(cfg, s, q, before, at, d)
    ensures EntryOk(cfg, s, KeyOf(q), Entry(FromDecision(d), before, now, ExpiryOf(cfg, d, now)))
  {
    var key := KeyOf(q);
    var e := Entry(FromDecision(d), before, now, ExpiryOf(cfg, d, now));
    if UpToDate(s, key, before) {
      RehydratedDecision(ViewOf(s, q), cfg.maxDepth, q, key, at, at);
      assert JustifiedAt(cfg, ViewOf(s, key), key, e, at);
    }
  }

  predicate CallStep(step: Step) {
    !EnvironmentStep(step) && !step.Evict? && !step.Begin?
  }

  lemma EntriesShrink(cfg: Config, s: System, step: Step)
    requires Enabled(cfg, s, step) && CallStep(step) && !step.Put?
    ensures var entries := Advance(cfg, s, step, s.threads[step.id]).1;
      forall key :: key in entries ==> key in s.entries && entries[key] == s.entries[key]
  {
  }

  lemma EntriesAdvance(cfg: Config, s: System, step: Step)
    requires Invariant(cfg, s) && Enabled(cfg, s, step) && CallStep(step)
    ensures var entries := Advance(cfg, s, step, s.threads[step.id]).1;
      forall key :: key in entries ==> EntryOk(cfg, s, key, entries[key])
  {
    if step.Put? {
      var t := s.threads[step.id];
      assert ThreadOk(cfg, s, t);
      StoredIsJustified(cfg, s, t.call.q, t.before, t.at, t.decision, t.call.now);
    } else {
      EntriesShrink(cfg, s, step);
    }
  }

  lemma LookupAdvances(cfg: Config, s: System, step: Step)
    requires step.ReadClock? || step.ReadBefore? || step.CheckRequest? || step.ConfirmStamp?
    requires Enabled(cfg, s, step) && ThreadOk(cfg, s, s.threads[step.id])
    ensures ThreadOk(cfg, s, Advance(cfg, s, step, s.threads[step.id]).0)
  {
    var t := s.threads[step.id];
    if step.ConfirmStamp? && StampOf(s, t.call.q) != t.before { RetryOk(cfg, s, t.call, t.before); }
  }

  lemma CacheGetAdvances(cfg: Config, s: System, step: Step)
    requires Invariant(cfg, s) && Enabled(cfg, s, step) && step.CacheGet?
    ensures ThreadOk(cfg, s, Advance(cfg, s, step, s.threads[step.id]).0)
  {
    var t := s.threads[step.id];
    assert ThreadOk(cfg, s, t);
    if KeyOf(t.call.q) in s.entries { assert EntryOk(cfg, s, KeyOf(t.call.q), s.entries[KeyOf(t.call.q)]); }
  }

  lemma CachedAdvances(cfg: Config, s: System, step: Step)
    requires step.CheckCached?
    requires Enabled(cfg, s, step) && ThreadOk(cfg, s, s.threads[step.id])
    ensures ThreadOk(cfg, s, Advance(cfg, s, step, s.threads[step.id]).0)
  {
  }

  lemma ReadAdvances(cfg: Config, s: System, step: Step)
    requires Invariant(cfg, s) && Enabled(cfg, s, step) && (step.StartEngine? || step.EngineRead?)
    ensures ThreadOk(cfg, s, Advance(cfg, s, step, s.threads[step.id]).0)
  {
    var t := s.threads[step.id];
    assert ThreadOk(cfg, s, t);
    ViewPostdated(s, t.call.q);
    KeepsSelf(cfg.still, ViewOf(s, t.call.q));
  }

  /** What the engine made of its reads is right while the stamp it started from is up to date. */
  lemma DecideAdvances(cfg: Config, s: System, step: Step)
    requires Invariant(cfg, s) && Enabled(cfg, s, step) && step.EngineDecide?
    ensures ThreadOk(cfg, s, Advance(cfg, s, step, s.threads[step.id]).0)
  {
    var t := s.threads[step.id];
    assert ThreadOk(cfg, s, t);
    var q := t.call.q;
    if UpToDate(s, q, t.before) {
      assert AllLead(cfg.still, t.tape, s.repos, q.subject, q.tenant);
      TornIsCurrent(cfg.still, s.repos, cfg.maxDepth, q, t.at, t.tape);
      ViewDecides(s.repos, cfg.maxDepth, q, t.at);
    }
  }

  lemma RetryOk(cfg: Config, s: System, call: Call, before: Stamp)
    requires StampOf(s, call.q) != before && |call.failures| <= cfg.maxRetries
      && forall f :: f in call.failures ==> f.0 != f.1
    requires call.now <= s.clock
    ensures ThreadOk(cfg, s, Retry(cfg, s, call, before))
  {
  }

  lemma SecondReadAdvances(cfg: Config, s: System, step: Step)
    requires step.ReadAfter?
    requires Enabled(cfg, s, step) && ThreadOk(cfg, s, s.threads[step.id])
    ensures ThreadOk(cfg, s, Advance(cfg, s, step, s.threads[step.id]).0)
  {
    var t := s.threads[step.id];
    if StampOf(s, t.call.q) != t.before { RetryOk(cfg, s, t.call, t.before); }
  }

  lemma AnswerAdvances(cfg: Config, s: System, step: Step)
    requires step.CheckDecision? || step.Put?
    requires Enabled(cfg, s, step) && ThreadOk(cfg, s, s.threads[step.id])
    ensures ThreadOk(cfg, s, Advance(cfg, s, step, s.threads[step.id]).0)
  {
  }

  lemma ThreadAdvances(cfg: Config, s: System, step: Step)
    requires Invariant(cfg, s) && Enabled(cfg, s, step) && CallStep(step)
    ensures ThreadOk(cfg, s, Advance(cfg, s, step, s.threads[step.id]).0)
  {
    assert ThreadOk(cfg, s, s.threads[step.id]);
    if step.ReadClock? || step.ReadBefore? || step.CheckRequest? || step.ConfirmStamp? {
      LookupAdvances(cfg, s, step);
    } else if step.CacheGet? {
      CacheGetAdvances(cfg, s, step);
    } else if step.CheckCached? {
      CachedAdvances(cfg, s, step);
    } else if step.StartEngine? || step.EngineRead? {
      ReadAdvances(cfg, s, step);
    } else if step.EngineDecide? {
      DecideAdvances(cfg, s, step);
    } else if step.ReadAfter? {
      SecondReadAdvances(cfg, s, step);
    } else {
      AnswerAdvances(cfg, s, step);
    }
  }

  lemma EnvironmentKeepsInvariant(cfg: Config, s: System, step: Step)
    requires Invariant(cfg, s) && Enabled(cfg, s, step) && Harmless(cfg, s, step) && EnvironmentStep(step)
    ensures Invariant(cfg, Next(cfg, s, step))
  {
    var s' := Next(cfg, s, step);
    EnvironmentEvolves(cfg, s, step);
    forall key | key in s'.entries
      ensures EntryOk(cfg, s', key, s'.entries[key])
    {
      EntryEvolves(cfg, s, s', key, s.entries[key]);
    }
    forall id | id in s'.threads ensures ThreadOk(cfg, s', s'.threads[id]) { ThreadEvolves(cfg, s, s', s.threads[id]); }
  }

  /** Nothing but the cache and the calls changes. */
  lemma CallsKeepInvariant(cfg: Config, s: System, s': System)
    requires Sound(s.repos) && StartedBy(s.repos, s.clock) && s' == s.(entries := s'.entries, threads := s'.threads)
    requires forall key :: key in s'.entries ==> EntryOk(cfg, s, key, s'.entries[key])
    requires forall id :: id in s'.threads ==> ThreadOk(cfg, s, s'.threads[id])
    ensures Invariant(cfg, s')
  {
    forall q: Request ensures Keeps(cfg.still, ViewOf(s, q), ViewOf(s', q)) { KeepsSelf(cfg.still, ViewOf(s, q)); }
    assert Evolves(cfg, s, s');
    forall key | key in s'.entries
      ensures EntryOk(cfg, s', key, s'.entries[key])
    {
      EntryEvolves(cfg, s, s', key, s'.entries[key]);
    }
    forall id | id in s'.threads
      ensures ThreadOk(cfg, s', s'.threads[id])
    {
      ThreadEvolves(cfg, s, s', s'.threads[id]);
    }
  }

  lemma InvariantStep(cfg: Config, s: System, step: Step)
    requires Invariant(cfg, s) && Enabled(cfg, s, step) && Harmless(cfg, s, step)
    ensures Invariant(cfg, Next(cfg, s, step))
  {
    if EnvironmentStep(step) {
      EnvironmentKeepsInvariant(cfg, s, step);
    } else {
      if CallStep(step) { ThreadAdvances(cfg, s, step); EntriesAdvance(cfg, s, step); }
      CallsKeepInvariant(cfg, s, Next(cfg, s, step));
    }
  }

  // ---------------------------------------------------------------- runs

  ghost predicate Initial(s: System) {
    Sound(s.repos) && StartedBy(s.repos, s.clock) && s.entries == map[] && s.threads == map[]
  }

  /** `steps` can be taken one after the other from `s`, and every silent save among them is harmless. */
  ghost predicate Run(cfg: Config, s: System, steps: seq<Step>)
    decreases |steps|
  {
    steps == []
      || (Enabled(cfg, s, steps[0]) && Harmless(cfg, s, steps[0]) && Run(cfg, Next(cfg, s, steps[0]), steps[1..]))
  }

  function After(cfg: Config, s: System, steps: seq<Step>): System
    decreases |steps|
  {
    if steps == [] then s else After(cfg, Next(cfg, s, steps[0]), steps[1..])
  }

  lemma {:induction false} RunInvariant(cfg: Config, s: System, steps: seq<Step>)
    requires Invariant(cfg, s) && Run(cfg, s, steps)
    ensures Invariant(cfg, After(cfg, s, steps))
    decreases |steps|
  {
    if steps != [] {
      InvariantStep(cfg, s, steps[0]);
      RunInvariant(cfg, Next(cfg, s, steps[0]), steps[1..]);
    }
  }

  /** Every unexpired entry under a current stamp is the ALLOW the engine would make now. */
  ghost predicate Coherent(cfg: Config, s: System) {
    forall key :: key in s.entries && UpToDate(s, key, s.entries[key].stamp) && s.clock < s.entries[key].expiresAt ==>
      && s.entries[key].decision.allowed
      && s.entries[key].decision == FromDecision(Authorize(s.repos, cfg.maxDepth, key, s.clock))
  }

  lemma JustifiedIsCurrent(cfg: Config, s: System, key: Request, e: Entry, t: Time, at: Time)
    requires Sound(s.repos) && JustifiedAt(cfg, ViewOf(s, key), key, e, t) && t <= at < e.expiresAt
    ensures e.decision.allowed && e.decision == FromDecision(Authorize(s.repos, cfg.maxDepth, key, at))
  {
    var view := ViewOf(s, key);
    BindingsOfMember(s.repos.bindings, key.subject, key.tenant);
    AllowIsStable(view, cfg.maxDepth, key, t, at);
    ViewDecides(s.repos, cfg.maxDepth, key, at);
  }

  lemma InvariantCoherent(cfg: Config, s: System)
    requires Invariant(cfg, s)
    ensures Coherent(cfg, s)
  {
    forall key | key in s.entries && UpToDate(s, key, s.entries[key].stamp) && s.clock < s.entries[key].expiresAt
      ensures s.entries[key].decision.allowed
      ensures s.entries[key].decision == FromDecision(Authorize(s.repos, cfg.maxDepth, key, s.clock))
    {
      var e := s.entries[key];
      assert EntryOk(cfg, s, key, e);
      var t :| t <= s.clock && JustifiedAt(cfg, ViewOf(s, key), key, e, t);
      JustifiedIsCurrent(cfg, s, key, e, t, s.clock);
    }
  }

  /** Cache coherence: in every interleaving of saves, bumps, evictions and authorization calls, from
  an empty cache, the cache is coherent after every step. */
  lemma {:induction false} CacheCoherence(cfg: Config, s: System, steps: seq<Step>)
    requires Initial(s) && Run(cfg, s, steps)
    ensures Coherent(cfg, After(cfg, s, steps))
  {
    RunInvariant(cfg, s, steps);
    InvariantCoherent(cfg, After(cfg, s, steps));
  }

  /** A call that confirms a cached decision answers with the engine's own decision, at an instant
  within the call, over the repositories as they stand when the stamp is confirmed. */
  lemma {:induction false} ServedDecisionIsCurrent(cfg: Config, s: System, steps: seq<Step>, id: nat)
    requires Initial(s) && Run(cfg, s, steps)
    requires id in After(cfg, s, steps).threads && After(cfg, s, steps).threads[id].Hit?
    requires var s' := After(cfg, s, steps); UpToDate(s', s'.threads[id].call.q, s'.threads[id].before)
    ensures var s' := After(cfg, s, steps);
      var Hit(call, before, e) := s'.threads[id];
      exists t :: call.now <= t <= s'.clock && Authorize(s'.repos, cfg.maxDepth, call.q, t).allowed
               && ToDecision(e.decision, call.q, call.now)
                 == Authorize(s'.repos, cfg.maxDepth, call.q, t).(evaluatedAt := call.now)
  {
    RunInvariant(cfg, s, steps);
    var s' := After(cfg, s, steps);
    var Hit(call, before, e) := s'.threads[id];
    var key := KeyOf(call.q);
    assert ThreadOk(cfg, s', s'.threads[id]) && UpToDate(s', key, e.stamp);
    var t0 :| t0 <= s'.clock && JustifiedAt(cfg, ViewOf(s', key), key, e, t0);
    var t := if t0 <= call.now then call.now else t0;
    if t0 <= call.now {
      JustifiedIsCurrent(cfg, s', key, e, t0, t);
    } else {
      ViewDecides(s'.repos, cfg.maxDepth, key, t0);
    }
    RehydratedDecision(s'.repos, cfg.maxDepth, key, call.q, t, call.now);
    assert Authorize(s'.repos, cfg.maxDepth, call.q, t).allowed;
  }

  /** A call that evaluated and found its stamp unmoved: its ALLOW is the engine's, at an instant within the
  call, over the repositories as they stand at the second stamp read; in a still environment so is every
  decision. */
  lemma {:induction false} EvaluatedDecisionIsCurrent(cfg: Config, s: System, steps: seq<Step>, id: nat)
    requires Initial(s) && Run(cfg, s, steps)
    requires id in After(cfg, s, steps).threads && After(cfg, s, steps).threads[id].Evaluated?
    requires var s' := After(cfg, s, steps); UpToDate(s', s'.threads[id].call.q, s'.threads[id].before)
    ensures var s' := After(cfg, s, steps);
      var t := s'.threads[id];
      && t.call.now <= t.at <= s'.clock
      && (cfg.still || t.decision.allowed ==> t.decision == Authorize(s'.repos, cfg.maxDepth, t.call.q, t.at))
  {
    RunInvariant(cfg, s, steps);
    var s' := After(cfg, s, steps);
    var t := s'.threads[id];
    assert ThreadOk(cfg, s', t);
    ViewDecides(s'.repos, cfg.maxDepth, t.call.q, t.at);
  }

  /** A call gives up only after its stamp moved during each of its `maxRetries + 1` attempts. */
  lemma {:induction false} UnavailableOnlyWhenUnstable(cfg: Config, s: System, steps: seq<Step>, id: nat)
    requires Initial(s) && Run(cfg, s, steps)
    requires id in After(cfg, s, steps).threads && After(cfg, s, steps).threads[id].Unavailable?
    ensures var failures := After(cfg, s, steps).threads[id].call.failures;
      |failures| == cfg.maxRetries + 1 && forall f :: f in failures ==> f.0 != f.1
  {
    RunInvariant(cfg, s, steps);
    assert ThreadOk(cfg, After(cfg, s, steps), After(cfg, s, steps).threads[id]);
  }
}
