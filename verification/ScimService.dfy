/** The SCIM provisioning service as an object over the repositories it changes, each operation step by
step and proved against the operation of the same name in ScimProvisioning. */
module ScimService {
  import opened Prelude
  import opened Authorization
  import opened Writes
  import opened Services
  import opened ScimFilter
  import opened ScimUsers
  import opened ScimProvisioning
  import opened ScimRuns

  /** A loaded copy of a resource. */
  class ProvisioningUser {
    const created: Resource
    var version: nat
    var userName: string
    var externalId: Option<string>
    var active: bool
    var live: bool

    constructor Load(r: Resource)
      ensures State() == r
    {
      created, version, userName, externalId, active, live := r, r.version, r.userName, r.externalId, r.active, r.live;
    }

    function State(): Resource
      reads this
    {
      created.(version := version, userName := userName, externalId := externalId, active := active, live := live)
    }

    /** A deleted resource stays as it is. */
    method Replace(u: UserInput) returns (error: Option<ProvisioningError>)
      modifies this
      ensures error == if old(live) then None else Some(ManagedStateConflict)
      ensures if error.None? then State() == Replaced(old(State()), u) else State() == old(State())
      ensures error.None? ==>
        userName == u.userName && externalId == u.externalId && active == u.active && live
          && version == old(version) + 1
    {
      if !live { return Some(ManagedStateConflict); }
      userName := u.userName;
      externalId := u.externalId;
      active := u.active;
      Touch();
      error := None;
    }

    method Delete()
      modifies this
      ensures State() == if old(live) then Deleted(old(State())) else old(State())
      ensures !live && userName == old(userName) && externalId == old(externalId)
      ensures old(live) ==> !active && version == old(version) + 1
    {
      if !live { return; }
      live := false;
      active := false;
      Touch();
    }

    method Touch()
      modifies this`version
      ensures version == old(version) + 1
    {
      version := version + 1;
    }
  }

  /** The identity and tenancy services that provisioning calls. */
  class Accounts {
    var profiles: map<IdentityId, Profile>
    var repos: Repositories

    constructor (repos: Repositories)
      ensures this.repos == repos && profiles == map[]
    {
      this.repos, profiles := repos, map[];
    }

    method CreateIdentity(i: IdentityId, profile: Profile)
      modifies this
      ensures repos == ApplyWrite(old(repos), SaveIdentity(i, Pending)) && profiles == old(profiles)[i := profile]
    {
      repos := ApplyWrite(repos, SaveIdentity(i, Pending));
      profiles := profiles[i := profile];
    }

    method ActivateIdentity(i: IdentityId, now: Time)
      modifies this`repos
      ensures repos == Done(old(repos), IdentityCall(old(repos), i, Activate, now))
    {
      repos := Done(repos, IdentityCall(repos, i, Activate, now));
    }

    method UpdateProfile(i: IdentityId, u: UserInput) returns (error: Option<ProvisioningError>)
      modifies this`profiles
      ensures error == if i !in repos.identities then Some(ServiceFailed(IdentityNotFound))
                       else if ProfileOf(u).Err? then Some(ProfileOf(u).error) else None
      ensures profiles == if error.None? then old(profiles)[i := ProfileOf(u).value] else old(profiles)
    {
      if i !in repos.identities { return Some(ServiceFailed(IdentityNotFound)); }
      var profile := ProfileOf(u);
      if profile.Err? { return Some(profile.error); }
      profiles := profiles[i := profile.value];
      error := None;
    }

    method CreateMembership(id: MembershipId, i: IdentityId, t: TenantId, now: Time)
      returns (error: Option<ServiceError>)
      modifies this`repos
      ensures var call := CreateMembershipCall(old(repos), id, i, t, None, now);
        repos == Done(old(repos), call) && error == if call.Err? then Some(call.error) else None
    {
      var call := CreateMembershipCall(repos, id, i, t, None, now);
      repos := Done(repos, call);
      error := if call.Err? then Some(call.error) else None;
    }

    method ChangeMembership(id: MembershipId, c: MembershipCommand, now: Time) returns (error: Option<ServiceError>)
      modifies this`repos
      ensures var call := MembershipCall(old(repos), id, c, now);
        repos == Done(old(repos), call) && error == if call.Err? then Some(call.error) else None
    {
      var call := MembershipCall(repos, id, c, now);
      repos := Done(repos, call);
      error := if call.Err? then Some(call.error) else None;
    }
  }

  class ScimProvisioningService {
    const source: string
    const tenant: TenantId
    const accounts: Accounts
    const resources: InMemoryProvisioningUserRepository

    constructor (source: string, tenant: TenantId, accounts: Accounts, resources: InMemoryProvisioningUserRepository)
      ensures this.source == source && this.tenant == tenant && this.accounts == accounts && this.resources == resources
    {
      this.source, this.tenant, this.accounts, this.resources := source, tenant, accounts, resources;
    }

    function State(): Directory
      reads this, accounts, resources
    {
      Directory(accounts.profiles, accounts.repos, resources.items)
    }

    method EnsureUnique(u: UserInput, current: Option<ResourceId>) returns (error: Option<ProvisioningError>)
      ensures error == if Taken(resources.items, source, u, current) then Some(Conflict) else None
    {
      var byName := resources.FindByUserName(source, u.userName);
      if byName.Some? && Some(byName.value.id) != current { return Some(Conflict); }
      if u.externalId.Some? {
        var byExternal := resources.FindByExternalId(source, u.externalId.value);
        if byExternal.Some? && Some(byExternal.value.id) != current { return Some(Conflict); }
      }
      error := None;
    }

    method RequireResource(id: ResourceId) returns (found: Option<Resource>)
      ensures found == Required(resources.items, source, tenant, id)
    {
      found := resources.Get(id);
      if found.Some? && (!found.value.live || found.value.source != source || found.value.tenant != tenant) {
        found := None;
      }
    }

    method ReconcileMembership(id: MembershipId, active: bool, now: Time) returns (error: Option<ProvisioningError>)
      modifies accounts`repos
      ensures (error, accounts.repos) == Reconcile(old(accounts.repos), id, active, now)
    {
      var found := MembershipById(accounts.repos.memberships, id);
      if found.None? { return Some(ManagedStateConflict); }
      var status := found.value.status;
      if status.MembershipPending? {
        var refused := accounts.ChangeMembership(id, ActivateMembership, now);
        if refused.Some? { return Some(ServiceFailed(refused.value)); }
        if !active { var _ := accounts.ChangeMembership(id, SuspendMembership, now); }
      } else if status.MembershipActive? {
        if !active { var _ := accounts.ChangeMembership(id, SuspendMembership, now); }
      } else if status.MembershipSuspended? {
        if active { var _ := accounts.ChangeMembership(id, ReactivateMembership, now); }
      } else {
        return Some(ManagedStateConflict);
      }
      error := None;
    }

    method CreateUser(u: UserInput, ids: NewIds, now: Time) returns (answer: Answer)
      modifies accounts, resources
      ensures (answer, State()) == ScimProvisioning.CreateUser(old(State()), source, tenant, u, ids, now)
    {
      var taken := EnsureUnique(u, None);
      if taken.Some? { return Err(taken.value); }
      var profile := ProfileOf(u);
      if profile.Err? { return Err(profile.error); }
      accounts.CreateIdentity(ids.identity, profile.value.(givenName := None, familyName := None));
      accounts.ActivateIdentity(ids.identity, now);
      var _ := accounts.UpdateProfile(ids.identity, u);
      assert accounts.profiles == old(accounts.profiles)[ids.identity := profile.value];
      var refused := accounts.CreateMembership(ids.membership, ids.identity, tenant, now);
      if refused.Some? { return Err(ServiceFailed(refused.value)); }
      refused := accounts.ChangeMembership(ids.membership, ActivateMembership, now);
      if refused.Some? { return Err(ServiceFailed(refused.value)); }
      if !u.active { refused := accounts.ChangeMembership(ids.membership, SuspendMembership, now); }
      var resource :=
        Resource(ids.resource, 0, source, ids.identity, tenant, ids.membership, u.userName, u.externalId, u.active,
                 true);
      resources.Save(resource);
      answer := Ok(resource);
    }

    method ReplaceUser(id: ResourceId, u: UserInput, ifMatch: Option<string>, now: Time) returns (answer: Answer)
      modifies accounts, resources
      ensures (answer, State()) == ScimProvisioning.ReplaceUser(old(State()), source, tenant, id, u, ifMatch, now)
    {
      var found := RequireResource(id);
      if found.None? { return Err(NotFound); }
      ByIdExact(resources.items, id);
      if !TagMatches(found.value, ifMatch) { return Err(PreconditionFailed); }
      var taken := EnsureUnique(u, Some(id));
      if taken.Some? { return Err(taken.value); }
      var error := accounts.UpdateProfile(found.value.identity, u);
      if error.Some? { return Err(error.value); }
      error := ReconcileMembership(found.value.membership, u.active, now);
      if error.Some? { return Err(error.value); }
      var resource := new ProvisioningUser.Load(found.value);
      var _ := resource.Replace(u);
      resources.Save(resource.State());
      answer := Ok(resource.State());
    }

    method PatchUser(id: ResourceId, operations: seq<PatchOperation>, ifMatch: Option<string>, now: Time)
      returns (answer: Answer)
      modifies accounts, resources
      ensures (answer, State())
        == ScimProvisioning.PatchUser(old(State()), source, tenant, id, operations, ifMatch, now)
    {
      var found := RequireResource(id);
      if found.None? { return Err(NotFound); }
      if found.value.identity !in accounts.profiles { return Err(ManagedStateConflict); }
      var desired := ApplyUserPatch(Shown(found.value, accounts.profiles[found.value.identity]), operations);
      if desired.Err? { return Err(BadPatch(desired.error)); }
      answer := ReplaceUser(id, desired.value, ifMatch, now);
    }

    method DeleteUser(id: ResourceId, ifMatch: Option<string>, now: Time) returns (answer: Answer)
      modifies accounts, resources
      ensures (answer, State()) == ScimProvisioning.DeleteUser(old(State()), source, tenant, id, ifMatch, now)
    {
      var found := RequireResource(id);
      if found.None? { return Err(NotFound); }
      if !TagMatches(found.value, ifMatch) { return Err(PreconditionFailed); }
      var membership := MembershipById(accounts.repos.memberships, found.value.membership);
      if membership.None? { return Err(ManagedStateConflict); }
      MembershipByIdFound(accounts.repos.memberships, found.value.membership);
      var status := membership.value.status;
      if status.MembershipPending? || status.MembershipActive? || status.MembershipSuspended? {
        var _ := accounts.ChangeMembership(found.value.membership, RevokeMembership, now);
      }
      var resource := new ProvisioningUser.Load(found.value);
      resource.Delete();
      resources.Save(resource.State());
      answer := Ok(resource.State());
    }

    /** The first clause looks a candidate up; every clause then checks it. */
    method FindByClauses(clauses: seq<Clause>) returns (found: Option<Resource>)
      requires clauses != []
      ensures found == FindByExpression(resources.items, source, clauses)
    {
      var candidate;
      if clauses[0].attribute.UserName? {
        candidate := resources.FindByUserName(source, clauses[0].value);
      } else {
        candidate := resources.FindByExternalId(source, clauses[0].value);
      }
      if candidate.None? { return None; }
      for n := 0 to |clauses|
        invariant forall k :: 0 <= k < n ==> Satisfies(candidate.value, clauses[k])
      {
        if !Satisfies(candidate.value, clauses[n]) { return None; }
      }
      found := candidate;
    }
  }
}
