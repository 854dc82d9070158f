/** Where cache coherence ends: a save that publishes no event.
A service that finds nothing to change (a parent already there, a flag already set) still saves
the copy it loaded, and publishes nothing, so no version moves.  If the aggregate changed between
that load and that save, the save puts an old value back under an unmoved stamp. */
module SilentSaves {
  import opened Prelude
  import opened RoleGraph
  import opened RoleHierarchy
  import opened Governance
  import opened Authorization
  import opened SecurityState
  import opened Writes
  import opened TornEngine
  import opened DecisionCache
  import opened Coherence
  import opened Mutations
  import opened Services

  /** The write changes no ALLOW the engine makes. */
  ghost predicate KeepsAllows(maxDepth: nat, r: Repositories, w: Write) {
    forall key: Request, at: Time :: key == KeyOf(key) && Authorize(r, maxDepth, key, at).allowed ==>
      FromDecision(Authorize(ApplyWrite(r, w), maxDepth, key, at)) == FromDecision(Authorize(r, maxDepth, key, at))
  }

  function Holding(r: Repositories, clock: Time, key: Request, d: Decision): System {
    System(clock, r, NoVersions, multiset{},
           map[key := Entry(FromDecision(d), StampFor(NoVersions, key.subject, key.tenant), clock, clock + 1)], map[])
  }

  ghost predicate KeyedEntries(s: System) {
    forall key :: key in s.entries ==> key == KeyOf(key)
  }

  lemma KeptAllowsKeepCoherence(cfg: Config, s: System, w: Write)
    requires KeepsAllows(cfg.maxDepth, s.repos, w) && KeyedEntries(s) && Coherent(cfg, s)
    ensures Coherent(cfg, Next(cfg, s, SilentSave(w)))
  {
    var s' := Next(cfg, s, SilentSave(w));
    forall key | key in s'.entries && UpToDate(s', key, s'.entries[key].stamp) && s'.clock < s'.entries[key].expiresAt
      ensures s'.entries[key].decision.allowed
      ensures s'.entries[key].decision == FromDecision(Authorize(s'.repos, cfg.maxDepth, key, s'.clock))
    {
      assert UpToDate(s, key, s.entries[key].stamp);
    }
  }

  /** A cache holding an ALLOW that the save changes. */
  lemma LostAllowBreaksCoherence(cfg: Config, r: Repositories, w: Write, key: Request, at: Time)
    requires key == KeyOf(key) && Authorize(r, cfg.maxDepth, key, at).allowed
    requires FromDecision(Authorize(ApplyWrite(r, w), cfg.maxDepth, key, at))
      != FromDecision(Authorize(r, cfg.maxDepth, key, at))
    ensures var s := Holding(r, at, key, Authorize(r, cfg.maxDepth, key, at));
      s.repos == r && KeyedEntries(s) && Coherent(cfg, s) && !Coherent(cfg, Next(cfg, s, SilentSave(w)))
  {
    var s := Holding(r, at, key, Authorize(r, cfg.maxDepth, key, at));
    var s' := Next(cfg, s, SilentSave(w));
    assert key in s'.entries && UpToDate(s', key, s'.entries[key].stamp);
  }

  /** A silent save keeps every coherent cache coherent exactly when it changes no ALLOW.  This is about a
  cache at rest; what it takes with calls in flight is the subject of SilentSafety. */
  lemma SilentSaveExact(cfg: Config, r: Repositories, w: Write)
    ensures KeepsAllows(cfg.maxDepth, r, w) <==>
      forall s: System :: s.repos == r && KeyedEntries(s) && Coherent(cfg, s) ==>
        Coherent(cfg, Next(cfg, s, SilentSave(w)))
  {
    if KeepsAllows(cfg.maxDepth, r, w) {
      forall s: System | s.repos == r && KeyedEntries(s) && Coherent(cfg, s)
        ensures Coherent(cfg, Next(cfg, s, SilentSave(w)))
      {
        KeptAllowsKeepCoherence(cfg, s, w);
      }
    } else {
      var key: Request, at: Time :| key == KeyOf(key) && Authorize(r, cfg.maxDepth, key, at).allowed
        && FromDecision(Authorize(ApplyWrite(r, w), cfg.maxDepth, key, at))
          != FromDecision(Authorize(r, cfg.maxDepth, key, at));
      LostAllowBreaksCoherence(cfg, r, w, key, at);
    }
  }

  // ---------------------------------------------------------------- a run that goes wrong

  const READ: PermissionCode := "invoice.read"

  /** The Role before and after a colleague grants it the permission. */
  const OldRole := Role(Some(1), ActiveRole, {}, {}, true, false)
  const NewRole := OldRole.(permissions := {READ})

  const Before := Repositories(
    map[1 := Active], map[1 := Active],
    [Membership(1, 1, 1, MembershipActive, 0, None)],
    {READ},
    map[1 := OldRole],
    [RoleBinding(1, 1, 1, 1, 1, BindingActive, 0, None)],
    [], [], [])

  const Query := Request(1, 1, READ, 1, None, None, None)

  function Granted(): Repositories {
    ApplyWrite(Before, SaveRole(1, NewRole))
  }

  function Verdict(): Decision {
    Allow(Query, 0, Before.memberships[0], Before.bindings[0], [1])
  }

  lemma GrantedAllows(maxDepth: nat)
    ensures Authorize(Granted(), maxDepth, Query, 0) == Verdict()
  {
    var r := Granted();
    var b := Before.bindings[0];
    assert Available(r.roles, 1) && r.roles[1] == NewRole;
    assert PermissionPath(r.roles, maxDepth, 1, READ) == Ok(Some([1]));
    assert BindingsOf([b], 1, 1) == [b] && ActiveBindings([b], 0) == [b] && InScope([b], 1) == [b];
    assert SortById([b]) == [b];
    var m := Before.memberships[0];
    assert FindMembership([m], 1, 1) == Some(m);
    assert TryBinding(r, maxDepth, Query, 0, m, [b], b) == Some(Allow(Query, 0, m, b, [1]));
  }

  lemma OldDenies(maxDepth: nat)
    ensures Authorize(Before, maxDepth, Query, 0).reason == DenyPermissionNotGranted
  {
    var b := Before.bindings[0];
    var m := Before.memberships[0];
    assert Sorted({}) == [];
    assert FindInParents(Before.roles, maxDepth, READ, 1, [], {} + {1}, 0) == Ok(None);
    assert PermissionPath(Before.roles, maxDepth, 1, READ) == Ok(None);
    assert BindingsOf([b], 1, 1) == [b] && ActiveBindings([b], 0) == [b] && InScope([b], 1) == [b];
    assert SortById([b]) == [b];
    assert FindMembership([m], 1, 1) == Some(m);
    assert TryBinding(Before, maxDepth, Query, 0, m, [b], b).None?;
    assert TryBindings(Before, maxDepth, Query, 0, m, [b], [b]) == TryBindings(Before, maxDepth, Query, 0, m, [b], []);
  }

  const Start := System(0, Before, NoVersions, multiset{}, map[], map[])

  /** The two services of the run: one grants the permission, saves and announces it; the other, which
  loaded the Role before that, finds its flag already as it should be, and saves its copy. */
  lemma ServicesOfTheRun(maxDepth: nat)
    ensures Execute(Before, maxDepth, 0, AddPermission(1, READ))
         == Ok(Saved(SaveRole(1, NewRole), [RoleEvent(PermissionAdded, 1, Some(1), 0)]))
    ensures Advances(RoleEvent(PermissionAdded, 1, Some(1), 0)) == Some(TenantAuthorization(1))
    ensures Execute(Before, maxDepth, 0, Command.SetSensitive(1, false)) == Ok(Saved(SaveRole(1, OldRole), []))
  {
    assert {} + {READ} == {READ};
  }

  // ---------------------------------------------------------------- a call on its own

  lemma {:induction false} Extended(cfg: Config, s: System, steps: seq<Step>, step: Step)
    requires Run(cfg, s, steps) && Enabled(cfg, After(cfg, s, steps), step) && Harmless(cfg, After(cfg, s, steps), step)
    ensures Run(cfg, s, steps + [step]) && After(cfg, s, steps + [step]) == Next(cfg, After(cfg, s, steps), step)
    decreases |steps|
  {
    if steps == [] {
      assert [step][1..] == [];
    } else {
      Extended(cfg, Next(cfg, s, steps[0]), steps[1..], step);
      assert (steps + [step])[1..] == steps[1..] + [step];
    }
  }

  function In(s: System, t: Thread): System {
    s.(threads := map[7 := t])
  }

  /** After `base`, nothing happens but the steps of calls. */
  ghost predicate OnlyCalls(base: seq<Step>, steps: seq<Step>) {
    base <= steps && forall k :: |base| <= k < |steps| ==> CallStep(steps[k]) || steps[k].Begin?
  }

  lemma OneMoreCall(base: seq<Step>, steps: seq<Step>, step: Step)
    requires OnlyCalls(base, steps) && (CallStep(step) || step.Begin?)
    ensures OnlyCalls(base, steps + [step])
  {
  }

  /** `s` with the only call in the state `t` is reached from `s0`. */
  ghost predicate Reached(cfg: Config, s0: System, s: System, base: seq<Step>, steps: seq<Step>, t: Thread) {
    Run(cfg, s0, steps) && After(cfg, s0, steps) == In(s, t) && OnlyCalls(base, steps)
  }

  lemma Moves(cfg: Config, s0: System, s: System, base: seq<Step>, steps: seq<Step>, t: Thread, step: Step, t': Thread)
    requires Reached(cfg, s0, s, base, steps, t) && CallStep(step) && step.id == 7
    requires Enabled(cfg, In(s, t), step) && Advance(cfg, In(s, t), step, t) == (t', s.entries)
    ensures Reached(cfg, s0, s, base, steps + [step], t')
  {
    Extended(cfg, s0, steps, step);
    OneMoreCall(base, steps, step);
    assert In(s, t).threads[7 := t'] == map[7 := t'];
  }

  /** A call over an empty cache runs to the point of evaluating. */
  lemma CallLooks(cfg: Config, s0: System, s: System, base: seq<Step>, prefix: seq<Step>, q: Request)
    returns (steps: seq<Step>)
    requires s.entries == map[] && Reached(cfg, s0, s, base, prefix, Begun(Call(q, [], s.clock)))
    ensures Reached(cfg, s0, s, base, steps, Missed(Call(q, [], s.clock), StampOf(s, q), true))
  {
    var call, stamp := Call(q, [], s.clock), StampOf(s, q);
    steps := prefix;
    Moves(cfg, s0, s, base, steps, Begun(call), ReadClock(7), Timed(call));
    steps := steps + [ReadClock(7)];
    Moves(cfg, s0, s, base, steps, Timed(call), ReadBefore(7), Stamped(call, stamp));
    steps := steps + [ReadBefore(7)];
    Moves(cfg, s0, s, base, steps, Stamped(call, stamp), CheckRequest(7, NotRevoked), Looking(call, stamp));
    steps := steps + [CheckRequest(7, NotRevoked)];
    assert Without(s.entries, KeyOf(q)) == s.entries;
    Moves(cfg, s0, s, base, steps, Looking(call, stamp), CacheGet(7), Missed(call, stamp, true));
    steps := steps + [CacheGet(7)];
  }

  /** ... makes as many reads as it needs ... */
  lemma {:induction false} CallReads(cfg: Config, s0: System, s: System, base: seq<Step>, prefix: seq<Step>, call: Call,
                                     stamp: Stamp, fed: Reads)
    returns (steps: seq<Step>)
    requires Reached(cfg, s0, s, base, prefix, Evaluating(call, stamp, true, s.clock, [])) && AllFrom(fed, s.repos)
    ensures Reached(cfg, s0, s, base, steps, Evaluating(call, stamp, true, s.clock, fed))
    decreases |fed|
  {
    steps := prefix;
    if fed != [] {
      var less := fed[..|fed| - 1];
      steps := CallReads(cfg, s0, s, base, prefix, call, stamp, less);
      assert less + [s.repos] == fed;
      Moves(cfg, s0, s, base, steps, Evaluating(call, stamp, true, s.clock, less), EngineRead(7),
            Evaluating(call, stamp, true, s.clock, fed));
      steps := steps + [EngineRead(7)];
    }
  }

  /** ... comes to the engine's decision ... */
  lemma CallDecides(cfg: Config, s0: System, s: System, base: seq<Step>, prefix: seq<Step>, q: Request)
    returns (steps: seq<Step>)
    requires Sound(s.repos) && s.entries == map[] && Reached(cfg, s0, s, base, prefix, Begun(Call(q, [], s.clock)))
    ensures Reached(cfg, s0, s, base, steps,
                    Evaluated(Call(q, [], s.clock), StampOf(s, q), true, s.clock,
                              Authorize(s.repos, cfg.maxDepth, q, s.clock)))
  {
    var call, stamp := Call(q, [], s.clock), StampOf(s, q);
    var d := Authorize(s.repos, cfg.maxDepth, q, s.clock);
    steps := CallLooks(cfg, s0, s, base, prefix, q);
    Moves(cfg, s0, s, base, steps, Missed(call, stamp, true), StartEngine(7),
          Evaluating(call, stamp, true, s.clock, []));
    steps := steps + [StartEngine(7)];
    var fed := Undisturbed(s.repos, cfg.maxDepth, q, s.clock);
    steps := CallReads(cfg, s0, s, base, steps, call, stamp, fed);
    Moves(cfg, s0, s, base, steps, Evaluating(call, stamp, true, s.clock, fed), EngineDecide(7, d),
          Evaluated(call, stamp, true, s.clock, d));
    steps := steps + [EngineDecide(7, d)];
  }

  /** ... and stores it, if it is an ALLOW. */
  lemma CallStores(cfg: Config, s0: System, s: System, base: seq<Step>, prefix: seq<Step>, q: Request, d: Decision)
    returns (steps: seq<Step>)
    requires Reached(cfg, s0, s, base, prefix, Evaluated(Call(q, [], s.clock), StampOf(s, q), true, s.clock, d))
    requires s.entries == map[] && d.allowed && d.validUntil.None? && cfg.ttl > 0
    ensures Run(cfg, s0, steps) && OnlyCalls(base, steps)
    ensures var s' := After(cfg, s0, steps);
      && s'.repos == s.repos && s'.pending == s.pending && s'.clock == s.clock && s'.versions == s.versions
      && s'.entries == map[KeyOf(q) := Entry(FromDecision(d), StampOf(s, q), s.clock, s.clock + cfg.ttl)]
  {
    var call, stamp := Call(q, [], s.clock), StampOf(s, q);
    steps := prefix;
    Moves(cfg, s0, s, base, steps, Evaluated(call, stamp, true, s.clock, d), ReadAfter(7),
          Stable(call, stamp, true, s.clock, d));
    steps := steps + [ReadAfter(7)];
    Moves(cfg, s0, s, base, steps, Stable(call, stamp, true, s.clock, d), CheckDecision(7, NotRevoked),
          Storing(call, stamp, s.clock, d));
    steps := steps + [CheckDecision(7, NotRevoked)];
    Extended(cfg, s0, steps, Coherence.Put(7));
    OneMoreCall(base, steps, Coherence.Put(7));
    steps := steps + [Coherence.Put(7)];
  }

  /** From a system at rest, a call that the engine allows leaves its ALLOW in the cache. */
  lemma CallCaches(cfg: Config, s0: System, s: System, prefix: seq<Step>, q: Request) returns (steps: seq<Step>)
    requires Run(cfg, s0, prefix) && After(cfg, s0, prefix) == s && s.threads == map[] && s.entries == map[]
      && Sound(s.repos)
    requires var d := Authorize(s.repos, cfg.maxDepth, q, s.clock); d.allowed && d.validUntil.None? && cfg.ttl > 0
    ensures Run(cfg, s0, steps) && OnlyCalls(prefix, steps)
    ensures var s' := After(cfg, s0, steps);
      var d := Authorize(s.repos, cfg.maxDepth, q, s.clock);
      && s'.repos == s.repos && s'.pending == s.pending && s'.clock == s.clock && s'.versions == s.versions
      && s'.entries == map[KeyOf(q) := Entry(FromDecision(d), StampOf(s, q), s.clock, s.clock + cfg.ttl)]
  {
    steps := prefix + [Begin(7, q)];
    Extended(cfg, s0, prefix, Begin(7, q));
    OneMoreCall(prefix, prefix, Begin(7, q));
    steps := CallDecides(cfg, s0, s, prefix, steps, q);
    steps := CallStores(cfg, s0, s, prefix, steps, q, Authorize(s.repos, cfg.maxDepth, q, s.clock));
  }

  // ---------------------------------------------------------------- the run

  lemma StartIsInitial()
    ensures Initial(Start) && Sound(Granted()) && Permitted(Before, SaveRole(1, NewRole), 0)
  {
  }

  /** The steps of the service that grants. */
  const Granting: seq<Step> :=
    [Save(SaveRole(1, NewRole), TenantAuthorization(1)), BumpDimension(TenantAuthorization(1))]

  lemma RoleGranted(cfg: Config) returns (s: System)
    ensures Run(cfg, Start, Granting) && After(cfg, Start, Granting) == s
    ensures s.repos == Granted() && s.clock == 0 && s.pending == multiset{} && s.entries == map[] && s.threads == map[]
  {
    StartIsInitial();
    var steps := [];
    Extended(cfg, Start, steps, Granting[0]);
    steps := steps + [Granting[0]];
    Extended(cfg, Start, steps, Granting[1]);
    assert steps + [Granting[1]] == Granting;
    s := After(cfg, Start, Granting);
    assert s.pending == multiset{};
  }

  /** One service loads the old Role; another grants the permission, saves and bumps; then a call
  evaluates and caches its ALLOW. */
  lemma AllowIsCached(cfg: Config) returns (steps: seq<Step>)
    requires cfg.ttl > 0
    ensures Run(cfg, Start, steps) && OnlyCalls(Granting, steps)
    ensures var s := After(cfg, Start, steps);
      && s.repos == Granted() && s.pending == multiset{} && s.clock == 0
      && s.entries == map[Query := Entry(FromDecision(Verdict()), StampOf(s, Query), 0, cfg.ttl)]
  {
    var s := RoleGranted(cfg);
    StartIsInitial();
    GrantedAllows(cfg.maxDepth);
    steps := CallCaches(cfg, Start, s, Granting, Query);
  }

  /** Coherence fails without the restriction on silent saves.  In this run every save is one that the
  services make: AddPermission saves the Role with the permission and bumps; SetSensitive, which loaded
  the Role before that, finds nothing to change and saves its copy, publishing nothing.  The cache then
  holds an unexpired ALLOW under the current stamp that the engine denies. */
  lemma SilentSaveBreaksCoherence(cfg: Config) returns (steps: seq<Step>, granting: Saved, setting: Saved)
    requires cfg.ttl > 0
    ensures Execute(Before, cfg.maxDepth, 0, AddPermission(1, READ)) == Ok(granting)
    ensures Execute(Before, cfg.maxDepth, 0, Command.SetSensitive(1, false)) == Ok(setting) && setting.events == []
    ensures |granting.events| == 1 && Advances(granting.events[0]).Some?
    ensures var d := Advances(granting.events[0]).value; OnlyCalls([Save(granting.write, d), BumpDimension(d)], steps)
    ensures Initial(Start) && Run(cfg, Start, steps)
    ensures var s := After(cfg, Start, steps);
      var step := SilentSave(setting.write);
      Coherent(cfg, s) && Enabled(cfg, s, step) && !Harmless(cfg, s, step) && !Coherent(cfg, Next(cfg, s, step))
  {
    ServicesOfTheRun(cfg.maxDepth);
    granting := Saved(SaveRole(1, NewRole), [RoleEvent(PermissionAdded, 1, Some(1), 0)]);
    setting := Saved(SaveRole(1, OldRole), []);
    steps := AllowIsCached(cfg);
    StaleAllowRun(cfg, steps);
  }

  lemma {:induction false} StaleAllowRun(cfg: Config, steps: seq<Step>)
    requires cfg.ttl > 0 && Run(cfg, Start, steps)
    requires var s := After(cfg, Start, steps);
      && s.repos == Granted() && s.pending == multiset{} && s.clock == 0
      && s.entries == map[Query := Entry(FromDecision(Verdict()), StampOf(s, Query), 0, cfg.ttl)]
    ensures Initial(Start)
    ensures var s := After(cfg, Start, steps);
      var step := SilentSave(SaveRole(1, OldRole));
      Coherent(cfg, s) && Enabled(cfg, s, step) && !Harmless(cfg, s, step) && !Coherent(cfg, Next(cfg, s, step))
  {
    StartIsInitial();
    CacheCoherence(cfg, Start, steps);
    StaleAllow(cfg, After(cfg, Start, steps));
  }

  lemma StaleAllow(cfg: Config, s: System)
    requires cfg.ttl > 0 && s.repos == Granted() && s.pending == multiset{} && s.clock == 0
    requires s.entries == map[Query := Entry(FromDecision(Verdict()), StampOf(s, Query), 0, cfg.ttl)]
    ensures var step := SilentSave(SaveRole(1, OldRole));
      Enabled(cfg, s, step) && !Harmless(cfg, s, step) && !Coherent(cfg, Next(cfg, s, step))
  {
    var s' := Next(cfg, s, SilentSave(SaveRole(1, OldRole)));
    assert s'.repos.roles == Before.roles && s'.repos == Before;
    assert s.repos.roles[1] == NewRole && READ in NewRole.permissions;
    OldDenies(cfg.maxDepth);
    assert Query in s'.entries && UpToDate(s', Query, s'.entries[Query].stamp);
  }
}
