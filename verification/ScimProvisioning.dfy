/** SCIM provisioning: every operation on a provisioned user keeps the managed identity, the tenant
membership and the stored resource in step (sections 3.3, 3.5 and 3.14 of RFC 7644). */
module ScimProvisioning {
  import opened Prelude
  import opened Authorization
  import opened Writes
  import opened Services
  import opened FilterSplitter
  import opened ScimUsers

  datatype Profile = Profile(displayName: string, email: Option<string>, givenName: Option<string>,
                             familyName: Option<string>)

  datatype Directory = Directory(profiles: map<IdentityId, Profile>, repos: Repositories, items: seq<Resource>)

  datatype ProvisioningError =
    | Conflict | NotFound | PreconditionFailed | ManagedStateConflict | InvalidEmail | InvalidDisplayName
    | ServiceFailed(error: ServiceError) | BadPatch(patch: PatchError)

  /** The identifiers an operation draws for what it creates. */
  datatype NewIds = NewIds(identity: IdentityId, membership: MembershipId, resource: ResourceId)

  type Answer = Result<Resource, ProvisioningError>

  // ---------------------------------------------------------------- email addresses

  function Position(s: string, ch: char): Option<nat> {
    if s == "" then None else if s[0] == ch then Some(0)
    else match Position(s[1..], ch) case None => None case Some(i) => Some(i + 1)
  }

  function ParseEmail(s: string): Option<string> {
    var n := Strip(s);
    match Position(n, '@')
    case None => None
    case Some(at) =>
      if at == 0 || at + 1 >= |n| || ' ' in n || '.' !in n[at + 1..] || |n| > 320 then None
      else Some(n[..at + 1] + Fold(n[at + 1..]))
  }

  function EmailOf(u: UserInput): Result<Option<string>, ProvisioningError> {
    match u.PrimaryEmail()
    case None => Ok(None)
    case Some(raw) => if ParseEmail(raw).None? then Err(InvalidEmail) else Ok(ParseEmail(raw))
  }

  function ProfileOf(u: UserInput): Result<Profile, ProvisioningError> {
    match EmailOf(u)
    case Err(e) => Err(e)
    case Ok(email) =>
      if |u.EffectiveDisplayName()| > 255 then Err(InvalidDisplayName)
      else Ok(Profile(u.EffectiveDisplayName(), email, u.givenName, u.familyName))
  }

  // ---------------------------------------------------------------- checks

  /** Another live resource of the source has the user name or the external identifier. */
  predicate Taken(items: seq<Resource>, source: string, u: UserInput, current: Option<ResourceId>) {
    || (FirstByName(items, source, u.userName).Some?
        && Some(FirstByName(items, source, u.userName).value.id) != current)
    || (u.externalId.Some? && FirstByExternal(items, source, u.externalId.value).Some?
        && Some(FirstByExternal(items, source, u.externalId.value).value.id) != current)
  }

  function Required(items: seq<Resource>, source: string, tenant: TenantId, id: ResourceId): Option<Resource> {
    var r := ById(items, id);
    if r.None? || !r.value.live || r.value.source != source || r.value.tenant != tenant then None else r
  }

  /** The `If-Match` header: absent, any, or the resource's own tag. */
  predicate TagMatches(r: Resource, ifMatch: Option<string>) {
    ifMatch.None? || Strip(ifMatch.value) == "*" || Strip(ifMatch.value) == r.Etag()
  }

  // ---------------------------------------------------------------- the operations

  function Done(r: Repositories, o: Outcome): Repositories {
    match o
    case Err(_) => r
    case Ok(saved) => ApplyWrite(r, saved.write)
  }

  function CreateIdentity(r: Repositories, i: IdentityId, now: Time): Repositories {
    var created := ApplyWrite(r, SaveIdentity(i, Pending));
    Done(created, IdentityCall(created, i, Activate, now))
  }

  function CreateUser(d: Directory, source: string, tenant: TenantId, u: UserInput, ids: NewIds, now: Time)
    : (Answer, Directory)
  {
    if Taken(d.items, source, u, None) then (Err(Conflict), d)
    else
      match ProfileOf(u)
      case Err(e) => (Err(e), d)
      case Ok(profile) =>
        var r1 := CreateIdentity(d.repos, ids.identity, now);
        var profiles := d.profiles[ids.identity := profile];
        var created := CreateMembershipCall(r1, ids.membership, ids.identity, tenant, None, now);
        if created.Err? then (Err(ServiceFailed(created.error)), Directory(profiles, r1, d.items))
        else
          var r2 := Done(r1, created);
          var activated := MembershipCall(r2, ids.membership, ActivateMembership, now);
          if activated.Err? then (Err(ServiceFailed(activated.error)), Directory(profiles, r2, d.items))
          else
            var r3 := Done(r2, activated);
            var r4 := if u.active then r3 else Done(r3, MembershipCall(r3, ids.membership, SuspendMembership, now));
            var resource :=
              Resource(ids.resource, 0, source, ids.identity, tenant, ids.membership, u.userName, u.externalId,
                       u.active, true);
            (Ok(resource), Directory(profiles, r4, PutResource(d.items, resource)))
  }

  /** Brings the membership to what `active` asks for. */
  function Reconcile(r: Repositories, id: MembershipId, active: bool, now: Time)
    : (Option<ProvisioningError>, Repositories)
  {
    match MembershipById(r.memberships, id)
    case None => (Some(ManagedStateConflict), r)
    case Some(m) =>
      match m.status
      case MembershipPending =>
        var activated := MembershipCall(r, id, ActivateMembership, now);
        if activated.Err? then (Some(ServiceFailed(activated.error)), r)
        else if active then (None, Done(r, activated))
        else (None, Done(Done(r, activated), MembershipCall(Done(r, activated), id, SuspendMembership, now)))
      case MembershipActive => (None, if active then r else Done(r, MembershipCall(r, id, SuspendMembership, now)))
      case MembershipSuspended =>
        (None, if active then Done(r, MembershipCall(r, id, ReactivateMembership, now)) else r)
      case _ => (Some(ManagedStateConflict), r)
  }

  function Replaced(r: Resource, u: UserInput): Resource {
    r.(version := r.version + 1, userName := u.userName, externalId := u.externalId, active := u.active)
  }

  function ReplaceUser(d: Directory, source: string, tenant: TenantId, id: ResourceId, u: UserInput,
                       ifMatch: Option<string>, now: Time)
    : (Answer, Directory)
  {
    match Required(d.items, source, tenant, id)
    case None => (Err(NotFound), d)
    case Some(resource) =>
      if !TagMatches(resource, ifMatch) then (Err(PreconditionFailed), d)
      else if Taken(d.items, source, u, Some(id)) then (Err(Conflict), d)
      else if resource.identity !in d.repos.identities then (Err(ServiceFailed(IdentityNotFound)), d)
      else
        match ProfileOf(u)
        case Err(e) => (Err(e), d)
        case Ok(profile) =>
          var profiles := d.profiles[resource.identity := profile];
          var (problem, repos) := Reconcile(d.repos, resource.membership, u.active, now);
          if problem.Some? then (Err(problem.value), Directory(profiles, repos, d.items))
          else (Ok(Replaced(resource, u)), Directory(profiles, repos, PutResource(d.items, Replaced(resource, u))))
  }

  /** The user a resource shows. */
  function Shown(resource: Resource, p: Profile): UserInput {
    UserInput(resource.userName, Some(p.displayName), resource.externalId, resource.active, p.givenName, p.familyName,
              if p.email.None? then [] else [Email(p.email.value, true, Some("work"))])
  }

  function PatchUser(d: Directory, source: string, tenant: TenantId, id: ResourceId, operations: seq<PatchOperation>,
                     ifMatch: Option<string>, now: Time): (Answer, Directory)
  {
    match Required(d.items, source, tenant, id)
    case None => (Err(NotFound), d)
    case Some(resource) =>
      if resource.identity !in d.profiles then (Err(ManagedStateConflict), d)
      else
        match Patched(Shown(resource, d.profiles[resource.identity]), operations)
        case Err(e) => (Err(BadPatch(e)), d)
        case Ok(desired) => ReplaceUser(d, source, tenant, id, desired, ifMatch, now)
  }

  function Deleted(r: Resource): Resource {
    r.(version := r.version + 1, active := false, live := false)
  }

  function DeleteUser(d: Directory, source: string, tenant: TenantId, id: ResourceId, ifMatch: Option<string>,
                      now: Time): (Answer, Directory) {
    match Required(d.items, source, tenant, id)
    case None => (Err(NotFound), d)
    case Some(resource) =>
      if !TagMatches(resource, ifMatch) then (Err(PreconditionFailed), d)
      else if MembershipById(d.repos.memberships, resource.membership).None? then (Err(ManagedStateConflict), d)
      else
        // Refused, and so without effect, exactly when the membership has expired or is revoked already.
        var repos := Done(d.repos, MembershipCall(d.repos, resource.membership, RevokeMembership, now));
        (Ok(Deleted(resource)), d.(repos := repos, items := PutResource(d.items, Deleted(resource))))
  }

  // ---------------------------------------------------------------- what every operation keeps

  function ExpectedStatus(r: Resource): MembershipStatus {
    if !r.live then MembershipStatus.MembershipRevoked
    else if r.active then MembershipActive else MembershipStatus.MembershipSuspended
  }

  /** The resource is well formed and has its identity, profile and membership, which nothing expires. */
  ghost predicate Anchored(d: Directory, tenant: TenantId, r: Resource) {
    && r.tenant == tenant && r.identity in d.repos.identities && r.identity in d.profiles
    && Trimmed(r.userName) && Proper(r.externalId) && (!r.live ==> !r.active)
    && MembershipById(d.repos.memberships, r.membership).Some?
    && !MembershipById(d.repos.memberships, r.membership).value.status.MembershipExpired?
  }

  /** And its membership says the same as it does. */
  ghost predicate InStep(d: Directory, tenant: TenantId, r: Resource) {
    Anchored(d, tenant, r) && MembershipById(d.repos.memberships, r.membership).value.status == ExpectedStatus(r)
  }

  /** Two live resources of one source share neither user name nor external identifier. */
  ghost predicate Apart(a: Resource, b: Resource) {
    a.live && b.live && a.id != b.id ==>
      Fold(a.userName) != Fold(b.userName) && (a.externalId.Some? ==> a.externalId != b.externalId)
  }

  ghost predicate UniqueResources(items: seq<Resource>) {
    forall i, j :: 0 <= i < j < |items| ==> items[i].id != items[j].id
  }

  /** The resources of the source are anchored and apart, and in step, but for those whose memberships are in
  `touched`: the ones that other services have changed. */
  ghost predicate Tended(d: Directory, source: string, tenant: TenantId, touched: set<MembershipId>) {
    && UniqueResources(d.items)
    && (forall r :: r in d.items && r.source == source ==>
          Anchored(d, tenant, r) && (r.membership !in touched ==> InStep(d, tenant, r)))
    && (forall a, b :: a in d.items && b in d.items && a.source == source && b.source == source ==>
          Apart(a, b) && (a.id != b.id ==> a.membership != b.membership))
  }

  lemma {:induction false} ByIdExact(items: seq<Resource>, id: ResourceId)
    ensures ById(items, id).Some? ==> ById(items, id).value in items && ById(items, id).value.id == id
    ensures ById(items, id).None? ==> forall r :: r in items ==> r.id != id
    ensures UniqueResources(items) ==> forall r :: r in items && r.id == id ==> ById(items, id) == Some(r)
  {
    if items != [] {
      ByIdExact(items[1..], id);
      assert forall r :: r in items <==> r == items[0] || r in items[1..];
    }
  }

  lemma {:induction false} PutExact(items: seq<Resource>, r: Resource)
    requires UniqueResources(items)
    ensures UniqueResources(PutResource(items, r))
    ensures forall x :: x in PutResource(items, r) <==> x == r || (x in items && x.id != r.id)
  {
    if items != [] {
      PutExact(items[1..], r);
      assert forall x :: x in items <==> x == items[0] || x in items[1..];
      assert forall x :: x in items[1..] ==> x.id != items[0].id;
      if items[0].id != r.id {
        var rest := PutResource(items[1..], r);
        assert forall x :: x in rest ==> x.id != items[0].id;
      }
    }
  }

  lemma {:induction false} FirstByNameExact(items: seq<Resource>, source: string, name: string)
    ensures var r := FirstByName(items, source, name);
      if r.Some? then r.value in items && HasName(r.value, source, name)
        else forall x :: x in items ==> !HasName(x, source, name)
  {
    if items != [] {
      FirstByNameExact(items[1..], source, name);
      assert forall r :: r in items <==> r == items[0] || r in items[1..];
    }
  }

  lemma {:induction false} FirstByExternalExact(items: seq<Resource>, source: string, external: string)
    ensures var r := FirstByExternal(items, source, external);
      if r.Some? then r.value in items && HasExternal(r.value, source, external)
      else forall x :: x in items ==> !HasExternal(x, source, external)
  {
    if items != [] {
      FirstByExternalExact(items[1..], source, external);
      assert forall r :: r in items <==> r == items[0] || r in items[1..];
    }
  }

  /** What the uniqueness check finds: nobody else of the source stands in the way. */
  lemma NotTakenIsApart(d: Directory, source: string, tenant: TenantId, touched: set<MembershipId>, u: UserInput,
                        current: Option<ResourceId>)
    requires Tended(d, source, tenant, touched) && Addressable(u) && !Taken(d.items, source, u, current)
    ensures forall x :: x in d.items && x.source == source && x.live && Some(x.id) != current ==>
      Fold(x.userName) != Fold(u.userName) && (u.externalId.Some? ==> x.externalId != u.externalId)
  {
    StripNothing(u.userName);
    FirstByNameExact(d.items, source, u.userName);
    if u.externalId.Some? {
      StripNothing(u.externalId.value);
      FirstByExternalExact(d.items, source, u.externalId.value);
    }
    forall x | x in d.items && x.source == source && x.live && Some(x.id) != current
      ensures Fold(x.userName) != Fold(u.userName) && (u.externalId.Some? ==> x.externalId != u.externalId)
    {
      assert HasName(x, source, u.userName) ==> Apart(FirstByName(d.items, source, u.userName).value, x);
      if u.externalId.Some? {
        assert HasExternal(x, source, u.externalId.value) ==>
          Apart(FirstByExternal(d.items, source, u.externalId.value).value, x);
      }
    }
  }

  /** Nothing that other resources rely on has changed. */
  ghost predicate OthersKept(d: Directory, d': Directory, id: MembershipId) {
    && (forall x :: x != id && MembershipById(d.repos.memberships, x).Some? ==>
          MembershipById(d'.repos.memberships, x) == MembershipById(d.repos.memberships, x))
    && (forall i :: i in d.repos.identities ==> i in d'.repos.identities)
    && (forall i :: i in d.profiles ==> i in d'.profiles)
  }

  /** Saving a resource that is in step settles it. */
  lemma {:induction false} SaveKeepsTended(d: Directory, d': Directory, source: string, tenant: TenantId,
                                           touched: set<MembershipId>, r: Resource)
    requires Tended(d, source, tenant, touched) && d'.items == PutResource(d.items, r)
      && OthersKept(d, d', r.membership)
    requires r.source == source && InStep(d', tenant, r)
    requires forall x :: x in d.items && x.source == source && x.id != r.id ==>
      Apart(r, x) && x.membership != r.membership
    ensures Tended(d', source, tenant, touched - {r.membership})
  {
    PutExact(d.items, r);
    forall x | x in d'.items && x.source == source
      ensures Anchored(d', tenant, x) && (x.membership !in touched - {r.membership} ==> InStep(d', tenant, x))
    {
      if x != r { assert Anchored(d, tenant, x); }
    }
  }

  lemma UntouchedKeepsTended(d: Directory, d': Directory, source: string, tenant: TenantId, touched: set<MembershipId>)
    requires Tended(d, source, tenant, touched) && d'.items == d.items
    requires forall x :: MembershipById(d.repos.memberships, x).Some? ==>
      && MembershipById(d'.repos.memberships, x).Some?
      && (MembershipById(d'.repos.memberships, x).value.status.MembershipExpired? ==>
            MembershipById(d.repos.memberships, x).value.status.MembershipExpired?)
      && (x !in touched ==> MembershipById(d'.repos.memberships, x) == MembershipById(d.repos.memberships, x))
    requires (forall i :: i in d.repos.identities ==> i in d'.repos.identities)
      && (forall i :: i in d.profiles ==> i in d'.profiles)
    ensures Tended(d', source, tenant, touched)
  {
    forall r | r in d'.items && r.source == source
      ensures Anchored(d', tenant, r) && (r.membership !in touched ==> InStep(d', tenant, r))
    {
      assert Anchored(d, tenant, r);
    }
  }

  // ---------------------------------------------------------------- replacing

  lemma {:induction false} MembershipCallExact(r: Repositories, id: MembershipId, c: MembershipCommand, now: Time)
    ensures var r' := Done(r, MembershipCall(r, id, c, now));
      && r' == r.(memberships := r'.memberships)
      && (forall x :: x != id ==> MembershipById(r'.memberships, x) == MembershipById(r.memberships, x))
      && (MembershipCall(r, id, c, now).Ok? ==>
            MembershipById(r'.memberships, id)
            == var m := MembershipById(r.memberships, id).value;
               Some(m.(status := MembershipTransition(m.status, c).value.0)))
  {
    MembershipByIdFound(r.memberships, id);
    if MembershipCall(r, id, c, now).Ok? {
      forall x ensures MembershipById(PutMembership(r.memberships,
                                                    MembershipCall(r, id, c, now).value.write.membership), x)
        == if x == id then Some(MembershipCall(r, id, c, now).value.write.membership)
          else MembershipById(r.memberships, x)
      {
        MembershipStays(r.memberships, MembershipCall(r, id, c, now).value.write.membership, x);
      }
    }
  }

  /** Reconciling leaves the membership as asked or changes nothing, and succeeds on an active or a suspended one. */
  lemma {:induction false} ReconcileExact(r: Repositories, id: MembershipId, active: bool, now: Time)
    requires MembershipById(r.memberships, id).Some?
    ensures var (problem, r') := Reconcile(r, id, active, now);
      var m := MembershipById(r.memberships, id).value;
      && (m.status.MembershipActive? || m.status.MembershipSuspended? ==> problem.None?)
      && (problem.Some? ==> r' == r)
      && (problem.None? ==>
            && r' == r.(memberships := r'.memberships)
            && (forall x :: x != id ==> MembershipById(r'.memberships, x) == MembershipById(r.memberships, x))
            && MembershipById(r'.memberships, id)
               == Some(m.(status := if active then MembershipActive else MembershipStatus.MembershipSuspended)))
  {
    MembershipCallExact(r, id, SuspendMembership, now);
    MembershipCallExact(r, id, ReactivateMembership, now);
    if MembershipById(r.memberships, id).value.status.MembershipPending?
      && MembershipCall(r, id, ActivateMembership, now).Ok? {
      ActivatedExact(r, id, active, now);
    }
  }

  /** PUT: when it succeeds it leaves exactly what was asked for; when it fails it has changed nothing but, if the
  membership was touched, the profile. */
  lemma {:induction false} ReplaceExact(d: Directory, source: string, tenant: TenantId, touched: set<MembershipId>,
                                        id: ResourceId, u: UserInput, ifMatch: Option<string>, now: Time)
    requires Tended(d, source, tenant, touched) && Addressable(u)
    ensures var (answer, d') := ReplaceUser(d, source, tenant, id, u, ifMatch, now);
      && (answer.Err? ==>
            && d' == d.(profiles := d'.profiles) && (forall i :: i in d.profiles ==> i in d'.profiles)
            && (ById(d.items, id).Some? && ById(d.items, id).value.membership !in touched ==>
                  d' == d && !answer.error.ManagedStateConflict? && !answer.error.ServiceFailed?))
      && (answer.Ok? ==>
            && answer.value == Replaced(ById(d.items, id).value, u)
            && ProfileOf(u).Ok? && d'.profiles == d.profiles[answer.value.identity := ProfileOf(u).value]
            && d'.items == PutResource(d.items, answer.value)
            && OthersKept(d, d', answer.value.membership)
            && InStep(d', tenant, answer.value))
  {
    ByIdExact(d.items, id);
    if Required(d.items, source, tenant, id).Some? {
      var resource := Required(d.items, source, tenant, id).value;
      assert Anchored(d, tenant, resource);
      ReconcileExact(d.repos, resource.membership, u.active, now);
    }
  }

  lemma ReplacedApart(d: Directory, source: string, tenant: TenantId, touched: set<MembershipId>, u: UserInput,
                      r: Resource)
    requires Tended(d, source, tenant, touched) && Addressable(u) && !Taken(d.items, source, u, Some(r.id))
    requires r in d.items && r.source == source
    ensures forall x :: x in d.items && x.source == source && x.id != r.id ==>
      Apart(Replaced(r, u), x) && x.membership != r.membership
  {
    NotTakenIsApart(d, source, tenant, touched, u, Some(r.id));
  }

  /** What an answered request settles. */
  function Settled(touched: set<MembershipId>, answer: Answer): set<MembershipId> {
    if answer.Ok? then touched - {answer.value.membership} else touched
  }

  lemma ReplaceKeepsTended(d: Directory, source: string, tenant: TenantId, touched: set<MembershipId>, id: ResourceId,
                           u: UserInput, ifMatch: Option<string>, now: Time)
    requires Tended(d, source, tenant, touched) && Addressable(u)
    ensures var (answer, d') := ReplaceUser(d, source, tenant, id, u, ifMatch, now);
      Tended(d', source, tenant, Settled(touched, answer))
  {
    ReplaceExact(d, source, tenant, touched, id, u, ifMatch, now);
    var (answer, d') := ReplaceUser(d, source, tenant, id, u, ifMatch, now);
    if answer.Ok? {
      ByIdExact(d.items, id);
      ReplacedApart(d, source, tenant, touched, u, ById(d.items, id).value);
      SaveKeepsTended(d, d', source, tenant, touched, answer.value);
    } else {
      UntouchedKeepsTended(d, d', source, tenant, touched);
    }
  }

  /** The membership can be brought to what is asked. */
  predicate Reconcilable(r: Repositories, id: MembershipId) {
    match MembershipById(r.memberships, id)
    case None => false
    case Some(m) =>
      || m.status.MembershipActive? || m.status.MembershipSuspended?
      || (m.status.MembershipPending? && m.identity in r.identities && r.identities[m.identity] == Active
          && m.tenant in r.tenants && r.tenants[m.tenant] == Active)
  }

  lemma ReconcileFailsExactly(r: Repositories, id: MembershipId, active: bool, now: Time)
    ensures var (problem, r') := Reconcile(r, id, active, now);
      (problem.Some? <==> !Reconcilable(r, id)) && (problem.Some? ==> r' == r)
  {
    MembershipByIdFound(r.memberships, id);
  }

  predicate PassesChecks(d: Directory, source: string, tenant: TenantId, id: ResourceId, u: UserInput,
                         ifMatch: Option<string>) {
    && Required(d.items, source, tenant, id).Some?
    && TagMatches(Required(d.items, source, tenant, id).value, ifMatch)
    && !Taken(d.items, source, u, Some(id))
    && Required(d.items, source, tenant, id).value.identity in d.repos.identities
    && ProfileOf(u).Ok?
  }

  /** PUT in any state at all: it fails and yet changes something exactly when every check passes, the
  profile is new, and the membership, changed by someone else, can no longer be reconciled; and then
  what it has changed is the profile. */
  lemma {:induction false} FailedReplaceExact(d: Directory, source: string, tenant: TenantId, id: ResourceId,
                                              u: UserInput, ifMatch: Option<string>, now: Time)
    ensures var (answer, d') := ReplaceUser(d, source, tenant, id, u, ifMatch, now);
      && (answer.Err? && d' != d <==>
            && PassesChecks(d, source, tenant, id, u, ifMatch)
            && !Reconcilable(d.repos, ById(d.items, id).value.membership)
            && d.profiles[ById(d.items, id).value.identity := ProfileOf(u).value] != d.profiles)
      && (answer.Err? && d' != d ==>
            d' == d.(profiles := d.profiles[ById(d.items, id).value.identity := ProfileOf(u).value]))
  {
    if PassesChecks(d, source, tenant, id, u, ifMatch) {
      ReconcileFailsExactly(d.repos, ById(d.items, id).value.membership, u.active, now);
    }
  }

  /** PATCH keeps what it finds in step in step and settles what it writes; where the membership was not touched,
  a failure changes nothing. */
  lemma {:induction false} PatchExact(d: Directory, source: string, tenant: TenantId, touched: set<MembershipId>,
                                      id: ResourceId,
                                      operations: seq<PatchOperation>, ifMatch: Option<string>, now: Time)
    requires Tended(d, source, tenant, touched)
    ensures var (answer, d') := PatchUser(d, source, tenant, id, operations, ifMatch, now);
      && Tended(d', source, tenant, Settled(touched, answer))
      && (answer.Err? && ById(d.items, id).Some? && ById(d.items, id).value.membership !in touched ==>
            d' == d && !answer.error.ManagedStateConflict? && !answer.error.ServiceFailed?)
  {
    ByIdExact(d.items, id);
    if Required(d.items, source, tenant, id).Some? {
      var resource := Required(d.items, source, tenant, id).value;
      assert Anchored(d, tenant, resource);
      var shown := Shown(resource, d.profiles[resource.identity]);
      if Patched(shown, operations).Ok? {
        PatchKeepsAddress(shown, operations);
        ReplaceExact(d, source, tenant, touched, id, Patched(shown, operations).value, ifMatch, now);
        ReplaceKeepsTended(d, source, tenant, touched, id, Patched(shown, operations).value, ifMatch, now);
      }
    }
  }

  // ---------------------------------------------------------------- deleting

  /** DELETE fails only on a missing resource or a stale tag, and otherwise revokes the membership. */
  lemma {:induction false} DeleteExact(d: Directory, source: string, tenant: TenantId, touched: set<MembershipId>,
                                       id: ResourceId, ifMatch: Option<string>, now: Time)
    requires Tended(d, source, tenant, touched)
    ensures var (answer, d') := DeleteUser(d, source, tenant, id, ifMatch, now);
      && (answer.Err? ==> d' == d && (answer.error.NotFound? || answer.error.PreconditionFailed?))
      && (answer.Ok? ==>
            && answer.value == Deleted(ById(d.items, id).value)
            && d'.profiles == d.profiles && d'.items == PutResource(d.items, answer.value)
            && OthersKept(d, d', answer.value.membership)
            && InStep(d', tenant, answer.value)
            && MembershipById(d'.repos.memberships, answer.value.membership).value.status
              == MembershipStatus.MembershipRevoked)
  {
    ByIdExact(d.items, id);
    if Required(d.items, source, tenant, id).Some? {
      var resource := Required(d.items, source, tenant, id).value;
      assert Anchored(d, tenant, resource);
      MembershipCallExact(d.repos, resource.membership, RevokeMembership, now);
    }
  }

  lemma DeletedApart(d: Directory, source: string, tenant: TenantId, touched: set<MembershipId>, r: Resource)
    requires Tended(d, source, tenant, touched) && r in d.items && r.source == source
    ensures forall x :: x in d.items && x.source == source && x.id != r.id ==>
      Apart(Deleted(r), x) && x.membership != r.membership
  {
  }

  lemma DeleteKeepsTended(d: Directory, source: string, tenant: TenantId, touched: set<MembershipId>, id: ResourceId,
                          ifMatch: Option<string>, now: Time)
    requires Tended(d, source, tenant, touched)
    ensures var (answer, d') := DeleteUser(d, source, tenant, id, ifMatch, now);
      Tended(d', source, tenant, Settled(touched, answer))
  {
    DeleteExact(d, source, tenant, touched, id, ifMatch, now);
    var (answer, d') := DeleteUser(d, source, tenant, id, ifMatch, now);
    if answer.Ok? {
      ByIdExact(d.items, id);
      DeletedApart(d, source, tenant, touched, ById(d.items, id).value);
      SaveKeepsTended(d, d', source, tenant, touched, answer.value);
    }
  }

  // ---------------------------------------------------------------- creating

  /** Identifiers that nothing stored has. */
  ghost predicate Unused(d: Directory, ids: NewIds) {
    && ids.identity !in d.repos.identities
    && (forall m :: m in d.repos.memberships ==> m.id != ids.membership && m.identity != ids.identity)
    && (forall r :: r in d.items ==> r.id != ids.resource)
  }

  lemma {:induction false} NoMembershipYet(ms: seq<Membership>, i: IdentityId, t: TenantId)
    requires forall m :: m in ms ==> m.identity != i
    ensures FindMembership(ms, i, t).None?
  {
    if ms != [] { NoMembershipYet(ms[1..], i, t); }
  }

  /** The new identity's membership, created and activated. */
  lemma MembershipCreated(r: Repositories, ids: NewIds, tenant: TenantId, now: Time)
    requires (forall m :: m in r.memberships ==> m.id != ids.membership && m.identity != ids.identity)
    requires ids.identity in r.identities && r.identities[ids.identity] == Active
    ensures var created := CreateMembershipCall(r, ids.membership, ids.identity, tenant, None, now);
      var r2 := Done(r, created);
      && (created.Ok? <==> tenant in r.tenants)
      && (created.Ok? ==>
            && r2 == r.(memberships := r2.memberships)
            && MembershipById(r2.memberships, ids.membership)
               == Some(Membership(ids.membership, ids.identity, tenant, MembershipPending, now, None))
            && (MembershipCall(r2, ids.membership, ActivateMembership, now).Ok? <==> r.tenants[tenant] == Active)
            && forall x :: x != ids.membership ==>
              MembershipById(r2.memberships, x) == MembershipById(r.memberships, x))
  {
    NoMembershipYet(r.memberships, ids.identity, tenant);
    var m := Membership(ids.membership, ids.identity, tenant, MembershipPending, now, None);
    forall x
      ensures MembershipById(PutMembership(r.memberships, m), x) == if x == m.id then Some(m)
        else MembershipById(r.memberships, x)
    {
      MembershipStays(r.memberships, m, x);
    }
  }

  lemma {:induction false} ActivatedExact(r: Repositories, id: MembershipId, active: bool, now: Time)
    requires MembershipById(r.memberships, id).Some?
      && MembershipById(r.memberships, id).value.status.MembershipPending?
    requires MembershipCall(r, id, ActivateMembership, now).Ok?
    ensures var r3 := Done(r, MembershipCall(r, id, ActivateMembership, now));
      var r4 := if active then r3 else Done(r3, MembershipCall(r3, id, SuspendMembership, now));
      && r4 == r.(memberships := r4.memberships)
      && (forall x :: x != id ==> MembershipById(r4.memberships, x) == MembershipById(r.memberships, x))
      && MembershipById(r4.memberships, id)
         == var to := if active then MembershipActive else MembershipStatus.MembershipSuspended;
            Some(MembershipById(r.memberships, id).value.(status := to))
  {
    MembershipCallExact(r, id, ActivateMembership, now);
    MembershipCallExact(Done(r, MembershipCall(r, id, ActivateMembership, now)), id, SuspendMembership, now);
  }

  /** POST: when it succeeds, and what it leaves.  A refusal after the first checks, which can only
  come from the tenant, leaves an identity behind that no resource owns. */
  lemma CreateExact(d: Directory, source: string, tenant: TenantId, u: UserInput, ids: NewIds, now: Time)
    requires Unused(d, ids) && Addressable(u)
    ensures var (answer, d') := CreateUser(d, source, tenant, u, ids, now);
      && (answer.Ok? <==>
            && !Taken(d.items, source, u, None) && ProfileOf(u).Ok?
            && tenant in d.repos.tenants && d.repos.tenants[tenant] == Active)
      && (answer.Err? ==> d'.items == d.items && (d' == d <==> Taken(d.items, source, u, None) || ProfileOf(u).Err?))
      && (answer.Err? && d' != d ==> ids.identity in d'.repos.identities && d'.repos.identities[ids.identity] == Active)
      && (answer.Ok? ==> d'.items == PutResource(d.items, answer.value) && InStep(d', tenant, answer.value))
      && OthersKept(d, d', ids.membership)
  {
    var r1 := CreateIdentity(d.repos, ids.identity, now);
    assert r1 == d.repos.(identities := d.repos.identities[ids.identity := Active]);
    MembershipCreated(r1, ids, tenant, now);
    var created := CreateMembershipCall(r1, ids.membership, ids.identity, tenant, None, now);
    var r2 := Done(r1, created);
    if created.Ok? && MembershipCall(r2, ids.membership, ActivateMembership, now).Ok? {
      ActivatedExact(r2, ids.membership, u.active, now);
    }
  }

  lemma CreateKeepsTended(d: Directory, source: string, tenant: TenantId, touched: set<MembershipId>, u: UserInput,
                          ids: NewIds, now: Time)
    requires Tended(d, source, tenant, touched) && Unused(d, ids) && Addressable(u)
    ensures var (answer, d') := CreateUser(d, source, tenant, u, ids, now);
      Tended(d', source, tenant, Settled(touched, answer))
  {
    CreateExact(d, source, tenant, u, ids, now);
    var (answer, d') := CreateUser(d, source, tenant, u, ids, now);
    MembershipByIdFound(d.repos.memberships, ids.membership);
    forall r | r in d.items && r.source == source
      ensures r.membership != ids.membership
    {
      assert Anchored(d, tenant, r);
    }
    if answer.Ok? {
      NotTakenIsApart(d, source, tenant, touched, u, None);
      SaveKeepsTended(d, d', source, tenant, touched, answer.value);
    } else {
      UntouchedKeepsTended(d, d', source, tenant, touched);
    }
  }
}
