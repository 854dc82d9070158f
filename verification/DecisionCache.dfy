/** Cached authorization decisions: keys, entries bounded by a stamp and an expiry, and the
process-local cache. */
module DecisionCache {
  import opened Prelude
  import opened Governance
  import opened Authorization
  import opened SecurityState

  /** The cache key is an injective digest of everything in the request but the correlation id. */
  function KeyOf(q: Request): Request {
    q.(correlation := None)
  }

  datatype CachedDecision = CachedDecision(
    allowed: bool,
    reason: Reason,
    validUntil: Option<Time>,
    membership: Option<MembershipId>,
    boundRole: Option<RoleId>,
    binding: Option<BindingId>,
    role: Option<RoleId>,
    rule: Option<RuleId>,
    requiredLevel: Option<AssuranceLevel>,
    requiredMfa: Option<bool>,
    explanation: seq<Explanation>)

  function FromDecision(d: Decision): CachedDecision {
    CachedDecision(d.allowed, d.reason, d.validUntil, d.membership, d.boundRole, d.binding, d.role, d.rule,
                   d.requiredLevel, d.requiredMfa, d.explanation)
  }

  function ToDecision(c: CachedDecision, q: Request, at: Time): Decision {
    Decision(c.allowed, c.reason, q.subject, q.tenant, q.permission, q.scope, at, c.validUntil, c.membership,
             c.boundRole,
             c.binding, c.role, c.rule, c.requiredLevel, c.requiredMfa, q.resource, q.correlation, c.explanation)
  }

  datatype Entry = Entry(decision: CachedDecision, stamp: Stamp, cachedAt: Time, expiresAt: Time)
  {
    /** What the constructor demands. */
    predicate WellFormed() { expiresAt > cachedAt }

    predicate ValidFor(current: Stamp, at: Time) { stamp == current && at < expiresAt }
  }

  type Entries = map<Request, Entry>

  function Without(entries: Entries, key: Request): Entries {
    map k | k in entries && k != key :: entries[k]
  }

  /** The process-local cache with exact stamp validation. */
  class AuthorizationCache {
    const cacheDenials: bool
    var entries: Entries

    constructor (cacheDenials: bool := false)
      ensures entries == map[] && this.cacheDenials == cacheDenials
    {
      this.cacheDenials := cacheDenials;
      entries := map[];
    }

    /** An entry that is not valid for the stamp and instant is dropped. */
    method Lookup(key: Request, current: Stamp, at: Time) returns (found: Option<Entry>)
      modifies this
      ensures found.Some?
         <==> key in old(entries) && old(entries)[key].stamp == current && at < old(entries)[key].expiresAt
      ensures found.Some? ==> found.value == old(entries)[key] && entries == old(entries)
      ensures found.None? ==> entries == Without(old(entries), key)
    {
      if key !in entries {
        assert entries == Without(entries, key);
        return None;
      }
      var entry := entries[key];
      if !entry.ValidFor(current, at) {
        entries := Without(entries, key);
        return None;
      }
      return Some(entry);
    }

    method Put(key: Request, entry: Entry)
      modifies this
      ensures entries == if cacheDenials || entry.decision.allowed then old(entries)[key := entry] else old(entries)
    {
      if !cacheDenials && !entry.decision.allowed { return; }
      entries := entries[key := entry];
    }

    method Delete(key: Request)
      modifies this
      ensures entries == Without(old(entries), key)
    {
      entries := Without(entries, key);
    }

    method Clear()
      modifies this
      ensures entries == map[]
    {
      entries := map[];
    }
  }

  // ---------------------------------------------------------------- one key, one decision

  lemma {:induction false} SameKeySameConstraints(rules: seq<Constraint>, q1: Request, q2: Request)
    requires KeyOf(q1) == KeyOf(q2)
    ensures FirstConstraintViolation(rules, q1) == FirstConstraintViolation(rules, q2)
  {
    if rules != [] { SameKeySameConstraints(rules[1..], q1, q2); }
  }

  lemma {:induction false} SameKeySameDynamic(rules: seq<DynamicRule>, q1: Request, q2: Request)
    requires KeyOf(q1) == KeyOf(q2)
    ensures FirstDynamicViolation(rules, q1) == FirstDynamicViolation(rules, q2)
  {
    if rules != [] { SameKeySameDynamic(rules[1..], q1, q2); }
  }

  lemma SameKeySameGovernance(r: Repositories, maxDepth: nat, q1: Request, q2: Request, bindings: seq<RoleBinding>)
    requires KeyOf(q1) == KeyOf(q2)
    ensures EvaluateGovernance(r, maxDepth, q1, bindings) == EvaluateGovernance(r, maxDepth, q2, bindings)
  {
    SameKeySameConstraints(ConstraintsFor(r.constraints, q1.permission, q1.tenant), q1, q2);
    SameKeySameDynamic(DynamicRulesFor(r.dynamicRules, q1.permission, q1.tenant), q1, q2);
  }

  /** The fields a decision copies from its request and from its clock. */
  predicate Carries(d: Decision, q: Request, now: Time) {
    && d.subject == q.subject && d.tenant == q.tenant && d.permission == q.permission && d.scope == q.scope
    && d.resource == q.resource && d.correlation == q.correlation && d.evaluatedAt == now
  }

  /** An entry keeps all of a decision but what it has from its request and its clock. */
  lemma EntryKeeps(d: Decision)
    ensures var c := FromDecision(d);
      && c.allowed == d.allowed && c.reason == d.reason && c.validUntil == d.validUntil
      && c.membership == d.membership && c.boundRole == d.boundRole && c.binding == d.binding && c.role == d.role
      && c.rule == d.rule && c.requiredLevel == d.requiredLevel && c.requiredMfa == d.requiredMfa
      && c.explanation == d.explanation
  {
  }

  /** Requests share a cache entry exactly when they differ in nothing but their correlation. */
  lemma KeyExact(q1: Request, q2: Request)
    ensures KeyOf(q1) == KeyOf(q2)
       <==> q1.subject == q2.subject && q1.tenant == q2.tenant && q1.permission == q2.permission && q1.scope == q2.scope
            && q1.resource == q2.resource && q1.authentication == q2.authentication
  {
  }

  /** Two decisions for two requests that agree on everything the requests agree on. */
  predicate SameDecision(d1: Decision, q1: Request, d2: Decision, q2: Request, now: Time) {
    Carries(d1, q1, now) && Carries(d2, q2, now) && FromDecision(d1) == FromDecision(d2)
  }

  lemma SameKeySameTry(r: Repositories, maxDepth: nat, q1: Request, q2: Request, now: Time, m: Membership,
                       bindings: seq<RoleBinding>, b: RoleBinding)
    requires KeyOf(q1) == KeyOf(q2)
    requires EvaluateGovernance(r, maxDepth, q1, bindings) == EvaluateGovernance(r, maxDepth, q2, bindings)
    ensures var t1, t2 := TryBinding(r, maxDepth, q1, now, m, bindings, b),
      TryBinding(r, maxDepth, q2, now, m, bindings, b);
      if t1.None? then t2.None? else t2.Some? && SameDecision(t1.value, q1, t2.value, q2, now)
  {
  }

  lemma {:induction false} SameKeySameTries(r: Repositories, maxDepth: nat, q1: Request, q2: Request, now: Time,
                                            m: Membership, bindings: seq<RoleBinding>, candidates: seq<RoleBinding>)
    requires KeyOf(q1) == KeyOf(q2)
    requires EvaluateGovernance(r, maxDepth, q1, bindings) == EvaluateGovernance(r, maxDepth, q2, bindings)
    ensures SameDecision(TryBindings(r, maxDepth, q1, now, m, bindings, candidates), q1,
                         TryBindings(r, maxDepth, q2, now, m, bindings, candidates), q2, now)
  {
    if candidates != [] {
      SameKeySameTry(r, maxDepth, q1, q2, now, m, bindings, candidates[0]);
      SameKeySameTries(r, maxDepth, q1, q2, now, m, bindings, candidates[1..]);
    }
  }

  /** Requests with one key get one decision, up to the correlation id they carry. */
  lemma SameKeySameDecision(r: Repositories, maxDepth: nat, q1: Request, q2: Request, now: Time)
    requires KeyOf(q1) == KeyOf(q2)
    ensures SameDecision(Authorize(r, maxDepth, q1, now), q1, Authorize(r, maxDepth, q2, now), q2, now)
  {
    if Screen(r, q1, now).None? {
      var m := FindMembership(r.memberships, q1.subject, q1.tenant).value;
      var bs := ActiveBindings(BindingsOf(r.bindings, q1.subject, q1.tenant), now);
      SameKeySameGovernance(r, maxDepth, q1, q2, bs);
      SameKeySameTries(r, maxDepth, q1, q2, now, m, bs, SortById(InScope(bs, q1.scope)));
    }
  }

  lemma Rehydrate(d1: Decision, q1: Request, d2: Decision, q2: Request, now: Time, at: Time)
    requires SameDecision(d1, q1, d2, q2, now)
    ensures ToDecision(FromDecision(d1), q2, at) == d2.(evaluatedAt := at)
    ensures FromDecision(d1) == FromDecision(d2)
  {
  }

  /** Caching a decision and rehydrating it, for any request with the same key and at any instant,
  gives the decision the engine makes for that request, stamped with that instant. */
  lemma RehydratedDecision(r: Repositories, maxDepth: nat, q1: Request, q2: Request, evaluatedAt: Time, at: Time)
    requires KeyOf(q1) == KeyOf(q2)
    ensures ToDecision(FromDecision(Authorize(r, maxDepth, q1, evaluatedAt)), q2, at)
         == Authorize(r, maxDepth, q2, evaluatedAt).(evaluatedAt := at)
    ensures FromDecision(Authorize(r, maxDepth, q1, evaluatedAt))
      == FromDecision(Authorize(r, maxDepth, q2, evaluatedAt))
  {
    SameKeySameDecision(r, maxDepth, q1, q2, evaluatedAt);
    Rehydrate(Authorize(r, maxDepth, q1, evaluatedAt), q1, Authorize(r, maxDepth, q2, evaluatedAt), q2, evaluatedAt,
              at);
  }

  lemma DecisionStamped(r: Repositories, maxDepth: nat, q: Request, now: Time)
    ensures Carries(Authorize(r, maxDepth, q, now), q, now)
  {
    SameKeySameDecision(r, maxDepth, q, q, now);
  }
}
