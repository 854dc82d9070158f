/** A whole deployment: the services, the engine and the distributed runtime over one database, one version
store, one registry and one cache, run for as long as one likes. */
module Deployments {
  import opened Prelude
  import opened Governance
  import opened Authorization
  import opened SecurityState
  import opened Writes
  import opened DecisionCache
  import opened Revocation
  import opened Mutations
  import opened Services
  import opened ServiceObjects
  import opened AuthorizationRuntime
  import opened RuntimeObjects
  import opened Coherence
  import opened DenyFast

  /** What a deployment is asked to do. */
  datatype Job = Perform(command: Command) | Ask(request: Request)

  datatype Outcome =
    | Done(error: Option<ServiceError>)
    | IdentifierTaken
    | Answered(decision: Decision, began: Time, heard: Checked)
    | Unavailable(moved: seq<(Stamp, Stamp)>)

  /** One job, begun and done: the repositories it met, the versions and markers as they were when it was done, the
  repositories it left, and what came of it. */
  datatype Turn = Turn(job: Job, since: Time, before: Repositories, versions: Versions, markers: Markers,
                       at: Time, outcome: Outcome, after: Repositories)
  {
    /** A service call does what is specified of it.  An answer changes nothing; it is the denial of a marker that the
    registry holds, or the engine's decision; and none is given only if every attempt saw its stamp move. */
    ghost predicate Right(maxDepth: nat, maxRetries: nat) {
      match job
      case Perform(c) =>
        if FreshIds(before, c) then
          var x := Execute(before, maxDepth, at, c);
          && outcome == Done(if x.Err? then Some(x.error) else None)
          && after == if x.Err? then before else ApplyWrite(before, x.value.write)
        else
          outcome == IdentifierTaken && after == before
      case Ask(q) =>
        && after == before
        && ((outcome.Answered? && since <= outcome.began <= outcome.decision.evaluatedAt <= at
             && Told(before, maxDepth, markers, q, StampFor(versions, q.subject, q.tenant), outcome.began,
                     outcome.heard, outcome.decision))
            || (outcome.Unavailable? && |outcome.moved| == maxRetries + 1
                && forall p :: p in outcome.moved ==> p.0 != p.1))
    }
  }

  /** The turns taken, the last one outermost. */
  datatype Log = Empty | Log(earlier: Log, last: Turn)
  {
    function Jobs(): seq<Job> {
      if Empty? then [] else earlier.Jobs() + [last.job]
    }

    /** Every turn is right, and starts from what the one before it left, and no earlier. */
    ghost predicate LeadsTo(start: Repositories, end: Repositories, maxDepth: nat, maxRetries: nat) {
      if Empty? then
        end == start
      else
        && last.Right(maxDepth, maxRetries) && last.after == end
        && (earlier.Log? ==> earlier.last.at <= last.since)
        && earlier.LeadsTo(start, last.before, maxDepth, maxRetries)
    }
  }

  lemma {:induction false} LogGrows(log: Log, turn: Turn, start: Repositories, maxDepth: nat, maxRetries: nat)
    requires log.LeadsTo(start, turn.before, maxDepth, maxRetries) && turn.Right(maxDepth, maxRetries)
    requires log.Log? ==> log.last.at <= turn.since
    ensures Log.Log(log, turn).LeadsTo(start, turn.after, maxDepth, maxRetries)
  {
  }

  /** The services that have no object of their own: load, check, change, save, publish. */
  class OtherServices {
    const db: Database
    const sink: MutationSink
    const maxDepth: nat

    constructor (db: Database, sink: MutationSink, maxDepth: nat)
      ensures this.db == db && this.sink == sink && this.maxDepth == maxDepth
    {
      this.db, this.sink, this.maxDepth := db, sink, maxDepth;
    }

    method Perform(c: Command, now: Time) returns (error: Option<ServiceError>)
      modifies db, sink, sink.store, sink.registry
      ensures Completed(Execute(old(db.Contents()), maxDepth, now, c), error, old(Snap(db, sink)), Snap(db, sink))
    {
      var outcome := Execute(db.Contents(), maxDepth, now, c);
      if outcome.Err? { return Some(outcome.error); }
      error := SaveAndPublish(outcome.value);
    }

    method SaveAndPublish(saved: Saved) returns (error: Option<ServiceError>)
      modifies db, sink, sink.store, sink.registry
      ensures SavedThen(saved, old(Snap(db, sink)), Snap(db, sink), error.Some?)
      ensures error.Some? ==> error.value.MarkerConflict?
    {
      db.Save(saved.write);
      var raised := sink.Publish(saved.events);
      error := Raised(raised);
    }
  }

  class Deployment {
    const db: Database
    const clock: Clock
    const store: SecurityStateStore
    const registry: RevocationRegistry
    const sink: MutationSink
    const cache: AuthorizationCache
    const roles: RoleService
    const bindings: BindingService
    const memberships: MembershipService
    const others: OtherServices
    const runtime: DistributedRuntime

    /** Everything is wired together and the runtime is in order. */
    ghost predicate InOrder()
      reads runtime, runtime.db, runtime.clock, runtime.store, runtime.registry`markers, runtime.cache, runtime.engine
    {
      && Wired() && runtime.InOrder()
    }

    ghost predicate Wired() {
      && sink.store == store && sink.registry == registry
      && roles.db == db && roles.sink == sink && roles.resolver.maxDepth == runtime.engine.maxDepth
      && bindings.db == db && bindings.sink == sink && bindings.resolver.maxDepth == runtime.engine.maxDepth
      && memberships.db == db && memberships.sink == sink
      && others.db == db && others.sink == sink && others.maxDepth == runtime.engine.maxDepth
      && runtime.db == db && runtime.clock == clock && runtime.store == store && runtime.registry == registry
      && runtime.cache == cache
    }

    constructor (start: Time, maxDepth: nat, ttl: Time, maxRetries: nat, cacheDenials: bool)
      requires ttl > 0
      ensures InOrder() && runtime.engine.maxDepth == maxDepth && fresh(db) && fresh(clock) && fresh(store)
      ensures fresh(registry) && fresh(sink) && fresh(cache) && fresh(runtime.engine)
    {
      var data := new Database();
      var time := new Clock(start);
      var versions := new SecurityStateStore();
      var markers := new RevocationRegistry();
      var events := new MutationSink(versions, markers);
      var entries := new AuthorizationCache(cacheDenials);
      db, clock, store, registry, sink, cache := data, time, versions, markers, events, entries;
      roles := new RoleService(data, events, maxDepth);
      bindings := new BindingService(data, events, maxDepth);
      memberships := new MembershipService(data, events);
      others := new OtherServices(data, events, maxDepth);
      runtime := new DistributedRuntime(data, time, versions, markers, entries, maxDepth, ttl, maxRetries);
      new;
      NewIsTrusted(runtime.Settings(), start);
    }

    predicate HierarchyCommand(c: Command) {
      c.AddPermission? || c.RemovePermission? || c.DisableRole? || c.AddParent? || c.RemoveParent?
    }

    method DispatchRole(c: Command, now: Time) returns (error: Option<ServiceError>)
      requires Wired() && HierarchyCommand(c)
      modifies db, sink, store, registry
      ensures Completed(Execute(old(db.Contents()), runtime.engine.maxDepth, now, c), error, old(Snap(db, sink)),
                        Snap(db, sink))
    {
      match c {
        case AddPermission(id, p) => error := roles.AddPermission(id, p, now);
        case RemovePermission(id, p) => error := roles.RemovePermission(id, p, now);
        case DisableRole(id) => error := roles.DisableRole(id, now);
        case AddParent(id, parent) => error := roles.AddParentRole(id, parent, now);
        case RemoveParent(id, parent) => error := roles.RemoveParentRole(id, parent, now);
      }
    }

    /** The service that the command is for. */
    method Dispatch(c: Command, now: Time) returns (error: Option<ServiceError>)
      requires Wired()
      modifies db, sink, store, registry
      ensures Completed(Execute(old(db.Contents()), runtime.engine.maxDepth, now, c), error, old(Snap(db, sink)),
                        Snap(db, sink))
    {
      if HierarchyCommand(c) {
        error := DispatchRole(c, now);
        return;
      }
      if c.AssignRole? {
        error := bindings.AssignRole(c.binding, c.identity, c.role, c.tenant, c.scope, c.validUntil, c.guarded, now);
      } else if c.ChangeBinding? {
        error := bindings.Change(c.binding, c.bindingCommand, now);
      } else if c.CreateMembership? {
        error := memberships.Create(c.membership, c.identity, c.tenant, c.validUntil, now);
      } else if c.ChangeMembership? {
        error := memberships.Change(c.membership, c.membershipCommand, now);
      } else {
        error := others.Perform(c, now);
      }
    }

    /** One service call: it never meets a conflicting marker, and leaves the deployment in order.  If it took
    something away and the registry was reached, a marker stands over it. */
    method Call(c: Command) returns (error: Option<ServiceError>)
      requires InOrder() && FreshIds(db.Contents(), c)
      modifies db, clock, sink, store, registry
      ensures InOrder() && clock.time >= old(clock.time)
      ensures var outcome := Execute(old(db.Contents()), runtime.engine.maxDepth, clock.time, c);
        && error == (if outcome.Err? then Some(outcome.error) else None)
        && db.Contents() == if outcome.Err? then old(db.Contents())
          else ApplyWrite(old(db.Contents()), outcome.value.write)
      ensures error.None? && registry.failures == old(registry.failures) ==>
        forall target, id :: TakesAway(c, target, id) ==>
          Standing(db.Contents(), store.State(), registry.markers, target, id, clock.time)
    {
      var now := clock.Now();
      error := Dispatch(c, now);
      CallDone(runtime.Settings(), old(clock.time), now, c, old(Snap(db, sink)), Snap(db, sink), cache.entries, error);
    }

    lemma CallDone(cfg: Config, since: Time, now: Time, c: Command, before: Snapshot, after: Snapshot, entries: Entries,
                   error: Option<ServiceError>)
      requires Trusted(cfg, since, before.repos, before.versions, entries, before.markers) && since <= now
      requires FreshIds(before.repos, c) && Completed(Execute(before.repos, cfg.maxDepth, now, c), error, before, after)
      ensures Trusted(cfg, now, after.repos, after.versions, entries, after.markers)
      ensures var outcome := Execute(before.repos, cfg.maxDepth, now, c);
        && error == (if outcome.Err? then Some(outcome.error) else None)
        && after.repos == if outcome.Err? then before.repos else ApplyWrite(before.repos, outcome.value.write)
      ensures error.None? && after.failures == before.failures ==>
        forall target, id :: TakesAway(c, target, id) ==>
          Standing(after.repos, after.versions, after.markers, target, id, now)
    {
      if Execute(before.repos, cfg.maxDepth, now, c).Ok? {
        CallKeepsTrusted(cfg, since, before.repos, before.versions, entries, before.markers, now, c, after.versions,
                         after.markers, error.Some?, after.failures - before.failures);
        if after.failures == before.failures {
          MarkersStand(cfg, since, before.repos, before.versions, entries, before.markers, now, c, after.versions,
                       after.markers);
        }
      } else {
        TimePasses(cfg, since, now, before.repos, before.versions, entries, before.markers);
      }
    }

    lemma MarkersStand(cfg: Config, since: Time, r: Repositories, v: Versions, entries: Entries, ms: Markers, now: Time,
                       c: Command, v': Versions, ms': Markers)
      requires Trusted(cfg, since, r, v, entries, ms) && since <= now && FreshIds(r, c)
      requires Execute(r, cfg.maxDepth, now, c).Ok?
      requires Published(v, ms, Execute(r, cfg.maxDepth, now, c).value.events, v', ms', false, 0)
      ensures forall target, id :: TakesAway(c, target, id) ==>
        Standing(ApplyWrite(r, Execute(r, cfg.maxDepth, now, c).value.write), v', ms', target, id, now)
    {
      forall target, id | TakesAway(c, target, id)
        ensures Standing(ApplyWrite(r, Execute(r, cfg.maxDepth, now, c).value.write), v', ms', target, id, now)
      {
        RevocationHeld(cfg, since, r, v, entries, ms, now, c, v', ms', false, target, id);
      }
    }

    method Do(job: Job) returns (ghost turn: Turn)
      requires InOrder()
      modifies db, clock, sink, store, registry, cache, runtime.engine
      ensures InOrder() && turn.since == old(clock.time) <= clock.time == turn.at
      ensures turn.job == job && turn.before == old(db.Contents()) && turn.after == db.Contents()
      ensures turn.Right(runtime.engine.maxDepth, runtime.maxRetries)
    {
      ghost var since, was := clock.time, db.Contents();
      ghost var outcome := IdentifierTaken;
      match job {
        case Perform(c) =>
          if FreshIds(db.Contents(), c) {
            var error := Call(c);
            outcome := Done(error);
          }
        case Ask(q) =>
          var answer, moved, at, heard := runtime.Authorize(q);
          outcome := if answer.Ok? then Outcome.Answered(answer.value, at, heard) else Outcome.Unavailable(moved);
      }
      turn := Turn(job, since, was, store.State(), registry.markers, clock.time, outcome, db.Contents());
    }

    /** Any jobs in any order: service calls, each with identifiers of its own for what it creates, and
    requests.  The deployment stays in order, every call does what is specified of it, and every answer is
    the engine's over what the calls before it left. */
    method Operate(jobs: seq<Job>) returns (ghost log: Log)
      requires InOrder()
      modifies db, clock, sink, store, registry, cache, runtime.engine
      ensures InOrder() && log.Jobs() == jobs
      ensures log.LeadsTo(old(db.Contents()), db.Contents(), runtime.engine.maxDepth, runtime.maxRetries)
    {
      log := Log.Empty;
      ghost var start, depth, retries := db.Contents(), runtime.engine.maxDepth, runtime.maxRetries;
      for n := 0 to |jobs|
        invariant InOrder() && log.Jobs() == jobs[..n]
        invariant log.Log? ==> log.last.at <= clock.time
        invariant log.LeadsTo(start, db.Contents(), depth, retries)
      {
        ghost var turn := Do(jobs[n]);
        LogGrows(log, turn, start, depth, retries);
        log := Log.Log(log, turn);
        assert jobs[..n + 1] == jobs[..n] + [jobs[n]];
      }
      assert jobs[..|jobs|] == jobs;
    }
  }
}
