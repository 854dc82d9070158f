/** Security-state versions: nine dimensions, bumped one at a time, read as one stamp. */
module SecurityState {
  import opened Prelude

  datatype Stamp = Stamp(
    runtimeGeneration: nat,
    identity: nat,
    tenant: nat,
    membership: nat,
    subjectAuthorization: nat,
    tenantAuthorization: nat,
    globalAuthorization: nat,
    governance: nat,
    authentication: nat)

  /** Componentwise order on stamps. */
  predicate StampLe(a: Stamp, b: Stamp) {
    && a.runtimeGeneration <= b.runtimeGeneration && a.identity <= b.identity && a.tenant <= b.tenant
    && a.membership <= b.membership && a.subjectAuthorization <= b.subjectAuthorization
    && a.tenantAuthorization <= b.tenantAuthorization && a.globalAuthorization <= b.globalAuthorization
    && a.governance <= b.governance && a.authentication <= b.authentication
  }

  type Pair = (IdentityId, TenantId)

  datatype Versions = Versions(
    runtimeGeneration: nat,
    identity: map<IdentityId, nat>,
    tenant: map<TenantId, nat>,
    membership: map<Pair, nat>,
    subjectAuthorization: map<Pair, nat>,
    tenantAuthorization: map<TenantId, nat>,
    globalAuthorization: nat,
    governance: map<TenantId, nat>,
    authentication: map<IdentityId, nat>)

  const NoVersions := Versions(0, map[], map[], map[], map[], map[], 0, map[], map[])

  datatype Dimension =
    | RuntimeGeneration
    | IdentityState(identity: IdentityId)
    | TenantState(tenant: TenantId)
    | MembershipState(identity: IdentityId, tenant: TenantId)
    | SubjectAuthorization(identity: IdentityId, tenant: TenantId)
    | TenantAuthorization(tenant: TenantId)
    | GlobalAuthorization
    | GovernanceState(tenant: TenantId)
    | AuthenticationState(identity: IdentityId)

  function Get<K>(m: map<K, nat>, k: K): nat {
    if k in m then m[k] else 0
  }

  function StampFor(v: Versions, i: IdentityId, t: TenantId): Stamp {
    Stamp(v.runtimeGeneration, Get(v.identity, i), Get(v.tenant, t), Get(v.membership, (i, t)),
          Get(v.subjectAuthorization, (i, t)), Get(v.tenantAuthorization, t), v.globalAuthorization,
          Get(v.governance, t), Get(v.authentication, i))
  }

  function VersionOf(v: Versions, d: Dimension): nat {
    match d
    case RuntimeGeneration => v.runtimeGeneration
    case IdentityState(i) => Get(v.identity, i)
    case TenantState(t) => Get(v.tenant, t)
    case MembershipState(i, t) => Get(v.membership, (i, t))
    case SubjectAuthorization(i, t) => Get(v.subjectAuthorization, (i, t))
    case TenantAuthorization(t) => Get(v.tenantAuthorization, t)
    case GlobalAuthorization => v.globalAuthorization
    case GovernanceState(t) => Get(v.governance, t)
    case AuthenticationState(i) => Get(v.authentication, i)
  }

  function Bump(v: Versions, d: Dimension): Versions {
    match d
    case RuntimeGeneration => v.(runtimeGeneration := v.runtimeGeneration + 1)
    case IdentityState(i) => v.(identity := v.identity[i := Get(v.identity, i) + 1])
    case TenantState(t) => v.(tenant := v.tenant[t := Get(v.tenant, t) + 1])
    case MembershipState(i, t) => v.(membership := v.membership[(i, t) := Get(v.membership, (i, t)) + 1])
    case SubjectAuthorization(i, t) =>
      v.(subjectAuthorization := v.subjectAuthorization[(i, t) := Get(v.subjectAuthorization, (i, t)) + 1])
    case TenantAuthorization(t) =>
      v.(tenantAuthorization := v.tenantAuthorization[t := Get(v.tenantAuthorization, t) + 1])
    case GlobalAuthorization => v.(globalAuthorization := v.globalAuthorization + 1)
    case GovernanceState(t) => v.(governance := v.governance[t := Get(v.governance, t) + 1])
    case AuthenticationState(i) => v.(authentication := v.authentication[i := Get(v.authentication, i) + 1])
  }

  /** The dimension is part of the stamp of this subject in this tenant. */
  predicate Touches(d: Dimension, i: IdentityId, t: TenantId) {
    match d
    case RuntimeGeneration => true
    case IdentityState(x) => x == i
    case TenantState(y) => y == t
    case MembershipState(x, y) => x == i && y == t
    case SubjectAuthorization(x, y) => x == i && y == t
    case TenantAuthorization(y) => y == t
    case GlobalAuthorization => true
    case GovernanceState(y) => y == t
    case AuthenticationState(x) => x == i
  }

  /** A bump moves a stamp strictly up when it touches it and leaves it alone otherwise, and it
  moves exactly one version, by one. */
  lemma BumpExact(v: Versions, d: Dimension, i: IdentityId, t: TenantId)
    ensures StampLe(StampFor(v, i, t), StampFor(Bump(v, d), i, t))
    ensures StampFor(Bump(v, d), i, t) != StampFor(v, i, t) <==> Touches(d, i, t)
    ensures forall e :: VersionOf(Bump(v, d), e) == if e == d then VersionOf(v, e) + 1 else VersionOf(v, e)
  {
  }

  /** The process-local store of versions. */
  class SecurityStateStore {
    var runtimeGeneration: nat
    var identity: map<IdentityId, nat>
    var tenant: map<TenantId, nat>
    var membership: map<Pair, nat>
    var subjectAuthorization: map<Pair, nat>
    var tenantAuthorization: map<TenantId, nat>
    var globalAuthorization: nat
    var governance: map<TenantId, nat>
    var authentication: map<IdentityId, nat>

    function State(): Versions
      reads this
    {
      Versions(runtimeGeneration, identity, tenant, membership, subjectAuthorization, tenantAuthorization,
               globalAuthorization, governance, authentication)
    }

    constructor ()
      ensures State() == NoVersions
    {
      runtimeGeneration, globalAuthorization := 0, 0;
      identity, tenant, membership, subjectAuthorization := map[], map[], map[], map[];
      tenantAuthorization, governance, authentication := map[], map[], map[];
    }

    method ReadStamp(i: IdentityId, t: TenantId) returns (s: Stamp)
      ensures s == StampFor(State(), i, t)
    {
      s :=
        Stamp(runtimeGeneration, Get(identity, i), Get(tenant, t), Get(membership, (i, t)),
              Get(subjectAuthorization, (i, t)), Get(tenantAuthorization, t), globalAuthorization,
              Get(governance, t), Get(authentication, i));
    }

    /** The `bump_*` writers, chosen by the dimension they advance. */
    method Advance(d: Dimension) returns (version: nat)
      modifies this
      ensures State() == Bump(old(State()), d)
      ensures version == VersionOf(State(), d) == VersionOf(old(State()), d) + 1
    {
      match d {
        case RuntimeGeneration =>
          runtimeGeneration := runtimeGeneration + 1;
          version := runtimeGeneration;
        case IdentityState(i) =>
          version := Get(identity, i) + 1;
          identity := identity[i := version];
        case TenantState(t) =>
          version := Get(tenant, t) + 1;
          tenant := tenant[t := version];
        case MembershipState(i, t) =>
          version := Get(membership, (i, t)) + 1;
          membership := membership[(i, t) := version];
        case SubjectAuthorization(i, t) =>
          version := Get(subjectAuthorization, (i, t)) + 1;
          subjectAuthorization := subjectAuthorization[(i, t) := version];
        case TenantAuthorization(t) =>
          version := Get(tenantAuthorization, t) + 1;
          tenantAuthorization := tenantAuthorization[t := version];
        case GlobalAuthorization =>
          globalAuthorization := globalAuthorization + 1;
          version := globalAuthorization;
        case GovernanceState(t) =>
          version := Get(governance, t) + 1;
          governance := governance[t := version];
        case AuthenticationState(i) =>
          version := Get(authentication, i) + 1;
          authentication := authentication[i := version];
      }
    }
  }
}
