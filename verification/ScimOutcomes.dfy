/** What a provisioning request leaves behind, attribute by attribute: exactly when it succeeds, what the resource,
the profile and the membership then say, and that the resource is found under what was written. */
module ScimOutcomes {
  import opened Prelude
  import opened Authorization
  import opened Services
  import opened FilterSplitter
  import opened ScimFilter
  import opened ScimUsers
  import opened ScimProvisioning
  import opened ScimRuns

  // ---------------------------------------------------------------- profiles

  /** The text is an address, and this is what is stored of it: white space around it dropped and the domain in
  lower case. */
  ghost predicate Addresses(raw: string, stored: string) {
    exists at :: SplitAt(Strip(raw), at) && LoweredAfter(Strip(raw), at, stored)
  }

  predicate LoweredAfter(n: string, at: int, stored: string) {
    && |stored| == |n| && (forall i :: 0 <= i < |n| && i <= at ==> stored[i] == n[i])
    && forall i :: 0 <= i < |n| && i > at ==> stored[i] == Lower(n[i])
  }

  /** A local part and a domain with a dot, around the first `@`. */
  predicate SplitAt(n: string, at: int) {
    && 0 < at < |n| - 1 && n[at] == '@' && (forall i :: 0 <= i < at ==> n[i] != '@')
    && ' ' !in n && '.' in n[at + 1..] && |n| <= 320
  }

  lemma {:induction false} PositionExact(s: string, ch: char)
    ensures match Position(s, ch)
            case None => ch !in s
            case Some(i) => i < |s| && s[i] == ch && forall j :: 0 <= j < i ==> s[j] != ch
  {
    if s != "" && s[0] != ch { PositionExact(s[1..], ch); }
  }

  lemma LoweredExact(n: string, at: int, stored: string)
    requires 0 <= at < |n|
    ensures LoweredAfter(n, at, stored) <==> stored == n[..at + 1] + Fold(n[at + 1..])
  {
    var kept := n[..at + 1] + Fold(n[at + 1..]);
    assert |kept| == |n| && forall i :: 0 <= i < |n| ==> kept[i] == if i <= at then n[i] else Lower(n[i]);
  }

  lemma {:induction false} FirstAt(n: string, at: int)
    requires 0 <= at < |n| && n[at] == '@' && forall i :: 0 <= i < at ==> n[i] != '@'
    ensures Position(n, '@') == Some(at)
  {
    PositionExact(n, '@');
    assert n[at] in n;
  }

  lemma SplitParses(raw: string, at: int)
    requires SplitAt(Strip(raw), at)
    ensures ParseEmail(raw) == Some(Strip(raw)[..at + 1] + Fold(Strip(raw)[at + 1..]))
  {
    var n := Strip(raw);
    FirstAt(n, at);
  }

  lemma ParsedSplits(raw: string) returns (at: int)
    requires ParseEmail(raw).Some?
    ensures SplitAt(Strip(raw), at) && ParseEmail(raw).value == Strip(raw)[..at + 1] + Fold(Strip(raw)[at + 1..])
  {
    PositionExact(Strip(raw), '@');
    at := Position(Strip(raw), '@').value;
  }

  lemma ParseEmailExact(raw: string, stored: string)
    ensures ParseEmail(raw) == Some(stored) <==> Addresses(raw, stored)
  {
    var n := Strip(raw);
    if ParseEmail(raw).Some? {
      var at := ParsedSplits(raw);
      LoweredExact(n, at, ParseEmail(raw).value);
    }
    if Addresses(raw, stored) {
      var at :| SplitAt(n, at) && LoweredAfter(n, at, stored);
      SplitParses(raw, at);
      LoweredExact(n, at, stored);
    }
  }

  /** The address that counts: the primary one, or else the first. */
  ghost predicate Counts(emails: seq<Email>, e: Email) {
    exists i :: 0 <= i < |emails| && e == emails[i]
      && (if e.primary then forall j :: 0 <= j < i ==> !emails[j].primary
          else i == 0 && forall j :: 0 <= j < |emails| ==> !emails[j].primary)
  }

  lemma {:induction false} PrimaryExact(emails: seq<Email>)
    ensures FirstPrimary(emails).None? <==> forall j :: 0 <= j < |emails| ==> !emails[j].primary
    ensures FirstPrimary(emails).Some? ==>
      exists i :: 0 <= i < |emails| && FirstPrimary(emails).value == emails[i] && emails[i].primary
        && forall j :: 0 <= j < i ==> !emails[j].primary
  {
    if emails != [] && !emails[0].primary {
      PrimaryExact(emails[1..]);
      if FirstPrimary(emails[1..]).Some? {
        var i :| 0 <= i < |emails[1..]| && FirstPrimary(emails[1..]).value == emails[1..][i] && emails[1..][i].primary
          && forall j :: 0 <= j < i ==> !emails[1..][j].primary;
        assert emails[i + 1] == emails[1..][i] && forall j :: 1 <= j < i + 1 ==> emails[j] == emails[1..][j - 1];
      }
      assert forall j :: 1 <= j < |emails| ==> emails[j] == emails[1..][j - 1];
    }
  }

  lemma PrimaryCounts(emails: seq<Email>)
    requires emails != []
    ensures forall e :: Counts(emails, e) <==> e == PrimaryOf(emails)
  {
    PrimaryExact(emails);
    assert Counts(emails, PrimaryOf(emails));
    forall e | Counts(emails, e)
      ensures e == PrimaryOf(emails)
    {
      var i :| 0 <= i < |emails| && e == emails[i]
        && (if e.primary then forall j :: 0 <= j < i ==> !emails[j].primary
            else i == 0 && forall j :: 0 <= j < |emails| ==> !emails[j].primary);
    }
  }

  ghost predicate DisplayName(u: UserInput, name: string) {
    if u.displayName.Some? then name == u.displayName.value else name == u.userName
  }

  /** What a stored profile says of the user: names, display name or else user name, and the address that counts. */
  ghost predicate Describes(p: Profile, u: UserInput) {
    && p.givenName == u.givenName && p.familyName == u.familyName && DisplayName(u, p.displayName)
    && |p.displayName| <= 255
    && (if u.emails == [] then p.email.None?
        else p.email.Some? && exists e :: Counts(u.emails, e) && Addresses(e.value, p.email.value))
  }

  /** The profile of a user, when there is one, is the one that describes it. */
  lemma ProfileExact(u: UserInput)
    ensures forall p :: ProfileOf(u) == Ok(p) <==> Describes(p, u)
    ensures ProfileOf(u).Err? ==>
      if ProfileOf(u).error.InvalidEmail? then
        u.emails != [] && forall e, s :: Counts(u.emails, e) ==> !Addresses(e.value, s)
      else ProfileOf(u).error.InvalidDisplayName? && exists name :: DisplayName(u, name) && |name| > 255
  {
    assert DisplayName(u, u.EffectiveDisplayName());
    if u.emails != [] {
      PrimaryCounts(u.emails);
      var e := PrimaryOf(u.emails);
      forall s ensures ParseEmail(e.value) == Some(s) <==> Addresses(e.value, s) { ParseEmailExact(e.value, s); }
      if ParseEmail(e.value).Some? { assert Addresses(e.value, ParseEmail(e.value).value); }
    }
    forall p
      ensures ProfileOf(u) == Ok(p) <==> Describes(p, u)
    {
      DescribedOnce(u, p);
    }
  }

  lemma DescribedOnce(u: UserInput, p: Profile)
    ensures ProfileOf(u) == Ok(p) <==> Describes(p, u)
  {
    if u.emails != [] {
      PrimaryCounts(u.emails);
      var e := PrimaryOf(u.emails);
      assert Counts(u.emails, e);
      if p.email.Some? { ParseEmailExact(e.value, p.email.value); }
      if ParseEmail(e.value).Some? { ParseEmailExact(e.value, ParseEmail(e.value).value); }
    }
  }

  // ---------------------------------------------------------------- checks

  /** Somebody else of the source has the user name or the external identifier. */
  ghost predicate Clashes(items: seq<Resource>, source: string, u: UserInput, current: Option<ResourceId>) {
    exists x :: x in items && x.live && x.source == source && Some(x.id) != current
      && (Fold(x.userName) == Fold(u.userName) || (u.externalId.Some? && x.externalId == u.externalId))
  }

  lemma TakenExact(d: Directory, source: string, tenant: TenantId, touched: set<MembershipId>, u: UserInput,
                   current: Option<ResourceId>)
    requires Tended(d, source, tenant, touched) && Addressable(u)
    ensures Taken(d.items, source, u, current) <==> Clashes(d.items, source, u, current)
  {
    StripNothing(u.userName);
    FirstByNameExact(d.items, source, u.userName);
    if u.externalId.Some? {
      StripNothing(u.externalId.value);
      FirstByExternalExact(d.items, source, u.externalId.value);
    }
    if !Taken(d.items, source, u, current) { NotTakenIsApart(d, source, tenant, touched, u, current); }
  }

  /** The live resource of the source in the tenant with this identifier. */
  ghost predicate Stored(d: Directory, source: string, tenant: TenantId, id: ResourceId, r: Resource) {
    r in d.items && r.id == id && r.live && r.source == source && r.tenant == tenant
  }

  lemma RequiredExact(d: Directory, source: string, tenant: TenantId, id: ResourceId)
    requires UniqueResources(d.items)
    ensures forall r :: Required(d.items, source, tenant, id) == Some(r) <==> Stored(d, source, tenant, id, r)
  {
    ByIdExact(d.items, id);
  }

  /** No condition was sent, or any version will do, or this one. */
  predicate Matches(r: Resource, ifMatch: Option<string>) {
    ifMatch.Some? ==> Strip(ifMatch.value) == "*" || Strip(ifMatch.value) == r.Etag()
  }

  // ---------------------------------------------------------------- what is stored

  /** The resource holds what the client sent. */
  predicate Holds(r: Resource, u: UserInput) {
    r.live && r.userName == u.userName && r.externalId == u.externalId && r.active == u.active
  }

  /** The same resource, one version on. */
  predicate OneOn(before: Resource, after: Resource) {
    && after.id == before.id && after.source == before.source && after.identity == before.identity
    && after.tenant == before.tenant && after.membership == before.membership && after.version == before.version + 1
  }

  /** The membership says what the client asked. */
  predicate MembershipSays(r: Repositories, id: MembershipId, active: bool) {
    MembershipById(r.memberships, id).Some? &&
    var status := MembershipById(r.memberships, id).value.status;
    if active then status.MembershipActive? else status.MembershipSuspended?
  }

  /** The stored resources are as they were, but for this one. */
  ghost predicate OnlyThis(before: seq<Resource>, after: seq<Resource>, r: Resource) {
    forall x :: x in after <==> x == r || (x in before && x.id != r.id)
  }

  /** Under what was written, this resource is found. */
  ghost predicate Found(items: seq<Resource>, source: string, u: UserInput, r: Resource) {
    && FirstByName(items, source, u.userName) == Some(r)
    && (u.externalId.Some? ==> FirstByExternal(items, source, u.externalId.value) == Some(r))
  }

  lemma HeldIsFound(d: Directory, source: string, tenant: TenantId, touched: set<MembershipId>, u: UserInput,
                    r: Resource)
    requires Tended(d, source, tenant, touched) && Addressable(u) && r in d.items && r.source == source && Holds(r, u)
    ensures Found(d.items, source, u, r)
  {
    FirstClauseFinds(d, source, tenant, touched, Clause(UserName, u.userName), r);
    if u.externalId.Some? { FirstClauseFinds(d, source, tenant, touched, Clause(ExternalId, u.externalId.value), r); }
  }

  /** The identity's profile describes the user, and no other profile has changed. */
  ghost predicate ProfileWritten(before: map<IdentityId, Profile>, after: map<IdentityId, Profile>, i: IdentityId,
                                 u: UserInput)
  {
    && after.Keys == before.Keys + {i} && Describes(after[i], u)
    && forall x :: x in before && x != i ==> after[x] == before[x]
  }

  lemma PutProfile(before: map<IdentityId, Profile>, i: IdentityId, u: UserInput)
    requires ProfileOf(u).Ok?
    ensures ProfileWritten(before, before[i := ProfileOf(u).value], i, u)
  {
    ProfileExact(u);
  }

  lemma SameProfile(before: map<IdentityId, Profile>, after: map<IdentityId, Profile>, i: IdentityId, u: UserInput)
    requires ProfileWritten(before, after, i, u) && i in before && Describes(before[i], u)
    ensures after == before
  {
    DescribedTwice(u, before[i], after[i]);
    assert after.Keys == before.Keys;
  }

  lemma DescribedTwice(u: UserInput, p: Profile, p': Profile)
    requires Describes(p, u) && Describes(p', u)
    ensures p == p'
  {
    DescribedOnce(u, p);
    DescribedOnce(u, p');
  }

  /** Everything a successful PUT or PATCH leaves. */
  ghost predicate Written(d: Directory, source: string, u: UserInput, before: Resource, after: Resource,
                          d': Directory) {
    && OneOn(before, after) && Holds(after, u) && OnlyThis(d.items, d'.items, after)
    && Found(d'.items, source, u, after)
    && ProfileWritten(d.profiles, d'.profiles, after.identity, u)
    && MembershipSays(d'.repos, after.membership, u.active)
    && (forall x :: x != after.membership ==>
          MembershipById(d'.repos.memberships, x) == MembershipById(d.repos.memberships, x))
    && d'.repos == d.repos.(memberships := d'.repos.memberships)
  }

  /** The membership can be brought to what is asked: it is active or suspended, or pending with its identity and its
  tenant active. */
  ghost predicate Bringable(r: Repositories, id: MembershipId) {
    MembershipById(r.memberships, id).Some? &&
    var m := MembershipById(r.memberships, id).value;
    || m.status.MembershipActive? || m.status.MembershipSuspended?
    || (m.status.MembershipPending? && m.identity in r.identities && r.identities[m.identity] == Active
        && m.tenant in r.tenants && r.tenants[m.tenant] == Active)
  }

  /** PUT: exactly when it succeeds, and everything it then leaves. */
  lemma ReplacedExact(d: Directory, source: string, tenant: TenantId, touched: set<MembershipId>, id: ResourceId,
                      u: UserInput, ifMatch: Option<string>, now: Time)
    requires Tended(d, source, tenant, touched) && Addressable(u)
    ensures var (answer, d') := ReplaceUser(d, source, tenant, id, u, ifMatch, now);
      && (answer.Ok? <==>
            exists r :: Stored(d, source, tenant, id, r) && Matches(r, ifMatch)
              && !Clashes(d.items, source, u, Some(id))
              && (exists p :: Describes(p, u)) && Bringable(d.repos, r.membership))
      && (answer.Ok? ==> exists r :: Stored(d, source, tenant, id, r) && Written(d, source, u, r, answer.value, d'))
  {
    ReplacedWhen(d, source, tenant, touched, id, u, ifMatch, now);
    if ReplaceUser(d, source, tenant, id, u, ifMatch, now).0.Ok? {
      var r :| Stored(d, source, tenant, id, r);
      ReplacedWrites(d, source, tenant, touched, id, u, ifMatch, now, r);
    }
  }

  lemma ReplacedWhen(d: Directory, source: string, tenant: TenantId, touched: set<MembershipId>, id: ResourceId,
                     u: UserInput, ifMatch: Option<string>, now: Time)
    requires Tended(d, source, tenant, touched) && Addressable(u)
    ensures ReplaceUser(d, source, tenant, id, u, ifMatch, now).0.Ok? <==>
      exists r :: Stored(d, source, tenant, id, r) && Matches(r, ifMatch) && !Clashes(d.items, source, u, Some(id))
        && (exists p :: Describes(p, u)) && Bringable(d.repos, r.membership)
  {
    RequiredExact(d, source, tenant, id);
    TakenExact(d, source, tenant, touched, u, Some(id));
    ProfileExact(u);
    if Required(d.items, source, tenant, id).Some? {
      var r := Required(d.items, source, tenant, id).value;
      assert Stored(d, source, tenant, id, r) && Anchored(d, tenant, r);
      ReconcileFailsExactly(d.repos, r.membership, u.active, now);
      if ProfileOf(u).Ok? { assert Describes(ProfileOf(u).value, u); }
    }
  }

  lemma ReplacedWrites(d: Directory, source: string, tenant: TenantId, touched: set<MembershipId>, id: ResourceId,
                       u: UserInput, ifMatch: Option<string>, now: Time, r: Resource)
    requires Tended(d, source, tenant, touched) && Addressable(u) && Stored(d, source, tenant, id, r)
    requires ReplaceUser(d, source, tenant, id, u, ifMatch, now).0.Ok?
    ensures var (answer, d') := ReplaceUser(d, source, tenant, id, u, ifMatch, now);
      Written(d, source, u, r, answer.value, d')
  {
    var (answer, d') := ReplaceUser(d, source, tenant, id, u, ifMatch, now);
    RequiredExact(d, source, tenant, id);
    ReplaceExact(d, source, tenant, touched, id, u, ifMatch, now);
    ReplaceKeepsTended(d, source, tenant, touched, id, u, ifMatch, now);
    ReconcileExact(d.repos, r.membership, u.active, now);
    PutProfile(d.profiles, r.identity, u);
    PutExact(d.items, answer.value);
    HeldIsFound(d', source, tenant, Settled(touched, answer), u, answer.value);
  }

  // ---------------------------------------------------------------- PATCH

  /** What a resource shows of itself and of its profile. */
  predicate Shows(r: Resource, p: Profile, u: UserInput) {
    && u.userName == r.userName && u.externalId == r.externalId && u.active == r.active
    && u.displayName == Some(p.displayName) && u.givenName == p.givenName && u.familyName == p.familyName
    && (if p.email.None? then u.emails == []
        else |u.emails| == 1 && u.emails[0].value == p.email.value && u.emails[0].primary)
  }

  /** PATCH is PUT of what is shown with the operations applied: it succeeds exactly when those apply and PUT does,
  and leaves what PUT leaves. */
  lemma {:induction false} PatchedExact(d: Directory, source: string, tenant: TenantId, touched: set<MembershipId>,
                                        id: ResourceId,
                                        operations: seq<PatchOperation>, ifMatch: Option<string>, now: Time)
    requires Tended(d, source, tenant, touched)
    ensures var (answer, d') := PatchUser(d, source, tenant, id, operations, ifMatch, now);
      answer.Ok? ==>
        exists r, shown, desired :: Stored(d, source, tenant, id, r) && Shows(r, d.profiles[r.identity], shown)
          && Patched(shown, operations) == Ok(desired) && Matches(r, ifMatch)
          && Written(d, source, desired, r, answer.value, d')
    ensures var (answer, d') := PatchUser(d, source, tenant, id, operations, ifMatch, now);
      forall r :: Stored(d, source, tenant, id, r) ==>
        exists shown :: Shows(r, d.profiles[r.identity], shown)
          && if Patched(shown, operations).Err? then answer.Err? && d' == d
             else (answer, d') == ReplaceUser(d, source, tenant, id, Patched(shown, operations).value, ifMatch, now)
  {
    RequiredExact(d, source, tenant, id);
    if Required(d.items, source, tenant, id).Some? {
      var r := Required(d.items, source, tenant, id).value;
      assert Stored(d, source, tenant, id, r) && Anchored(d, tenant, r);
      var shown := Shown(r, d.profiles[r.identity]);
      assert Shows(r, d.profiles[r.identity], shown);
      if Patched(shown, operations).Ok? {
        var desired := Patched(shown, operations).value;
        PatchKeepsAddress(shown, operations);
        ReplacedExact(d, source, tenant, touched, id, desired, ifMatch, now);
      }
    }
  }

  /** An address that was stored is stored as it is. */
  lemma AddressStays(raw: string, stored: string)
    requires Addresses(raw, stored)
    ensures Addresses(stored, stored)
  {
    var n := Strip(raw);
    var at :| SplitAt(n, at) && LoweredAfter(n, at, stored);
    StripTrims(raw);
    assert n != "" && Trimmed(n);
    assert stored[0] == n[0] && stored[|n| - 1] == Lower(n[|n| - 1]);
    assert Trimmed(stored);
    StripNothing(stored);
    LoweredSplits(n, at, stored);
    assert LoweredAfter(stored, at, stored);
  }

  lemma LoweredSplits(n: string, at: int, stored: string)
    requires SplitAt(n, at) && LoweredAfter(n, at, stored)
    ensures SplitAt(stored, at)
  {
    assert forall i :: 0 <= i < |n| ==> stored[i] == n[i] || stored[i] == Lower(n[i]);
    assert forall ch: char :: Lower(ch) == ' ' ==> ch == ' ';
    var domain := n[at + 1..];
    var k :| 0 <= k < |domain| && domain[k] == '.';
    assert n[at + 1 + k] == '.' && stored[at + 1..][k] == '.';
  }

  /** Showing a user that was stored, and storing it again, changes nothing: an empty PATCH, where it succeeds, only
  makes a new version. */
  lemma EmptyPatchKeeps(d: Directory, source: string, tenant: TenantId, touched: set<MembershipId>, id: ResourceId,
                        ifMatch: Option<string>, now: Time, u: UserInput)
    requires Tended(d, source, tenant, touched) && PatchUser(d, source, tenant, id, [], ifMatch, now).0.Ok?
    requires forall r :: Stored(d, source, tenant, id, r) ==> Describes(d.profiles[r.identity], u)
    ensures var (answer, d') := PatchUser(d, source, tenant, id, [], ifMatch, now);
      && d'.profiles == d.profiles
      && exists r :: Stored(d, source, tenant, id, r) && answer.value == r.(version := r.version + 1)
  {
    PatchedExact(d, source, tenant, touched, id, [], ifMatch, now);
    var (answer, d') := PatchUser(d, source, tenant, id, [], ifMatch, now);
    var r, shown, desired :| Stored(d, source, tenant, id, r) && Shows(r, d.profiles[r.identity], shown)
      && Patched(shown, []) == Ok(desired) && Matches(r, ifMatch) && Written(d, source, desired, r, answer.value, d');
    assert desired == shown;
    ShownDescribes(r, d.profiles[r.identity], u, shown);
    WrittenSame(d, source, shown, r, answer.value, d');
  }

  lemma WrittenSame(d: Directory, source: string, u: UserInput, r: Resource, after: Resource, d': Directory)
    requires Written(d, source, u, r, after, d') && r.live && r.identity in d.profiles
    requires Shows(r, d.profiles[r.identity], u) && Describes(d.profiles[r.identity], u)
    ensures d'.profiles == d.profiles && after == r.(version := r.version + 1)
  {
    SameProfile(d.profiles, d'.profiles, r.identity, u);
  }

  lemma ShownDescribes(r: Resource, p: Profile, u: UserInput, shown: UserInput)
    requires Describes(p, u) && Shows(r, p, shown)
    ensures Describes(p, shown)
  {
    if p.email.Some? {
      var e :| Counts(u.emails, e) && Addresses(e.value, p.email.value);
      AddressStays(e.value, p.email.value);
      assert Counts(shown.emails, shown.emails[0]);
    }
  }

  // ---------------------------------------------------------------- POST and DELETE

  /** Everything a successful POST leaves: an active identity with its profile, its membership, and a resource of both
  under fresh identifiers. */
  ghost predicate Provisioned(d: Directory, source: string, tenant: TenantId, u: UserInput, ids: NewIds, now: Time,
                              r: Resource, d': Directory)
  {
    && r.id == ids.resource && r.version == 0 && r.source == source && r.identity == ids.identity
    && r.tenant == tenant && r.membership == ids.membership && Holds(r, u)
    && OnlyThis(d.items, d'.items, r) && Found(d'.items, source, u, r)
    && ProfileWritten(d.profiles, d'.profiles, ids.identity, u)
    && d'.repos
      == d.repos.(identities := d.repos.identities[ids.identity := Active], memberships := d'.repos.memberships)
    && MembershipSays(d'.repos, ids.membership, u.active)
    && (var m := MembershipById(d'.repos.memberships, ids.membership).value;
        m.identity == ids.identity && m.tenant == tenant && m.validFrom == now && m.validUntil.None?)
    && (forall x :: x != ids.membership ==>
          MembershipById(d'.repos.memberships, x) == MembershipById(d.repos.memberships, x))
  }

  /** POST: exactly when it succeeds, and everything it then leaves. */
  lemma CreatedExact(d: Directory, source: string, tenant: TenantId, touched: set<MembershipId>, u: UserInput,
                     ids: NewIds, now: Time)
    requires Tended(d, source, tenant, touched) && Unused(d, ids) && Addressable(u)
    ensures var (answer, d') := CreateUser(d, source, tenant, u, ids, now);
      && (answer.Ok? <==>
            && !Clashes(d.items, source, u, None) && (exists p :: Describes(p, u))
            && tenant in d.repos.tenants && d.repos.tenants[tenant] == Active)
      && (answer.Ok? ==> Provisioned(d, source, tenant, u, ids, now, answer.value, d'))
  {
    TakenExact(d, source, tenant, touched, u, None);
    ProfileExact(u);
    CreateExact(d, source, tenant, u, ids, now);
    if ProfileOf(u).Ok? { assert Describes(ProfileOf(u).value, u); }
    if CreateUser(d, source, tenant, u, ids, now).0.Ok? { CreatedWrites(d, source, tenant, touched, u, ids, now); }
  }

  lemma CreatedWrites(d: Directory, source: string, tenant: TenantId, touched: set<MembershipId>, u: UserInput,
                      ids: NewIds, now: Time)
    requires Tended(d, source, tenant, touched) && Unused(d, ids) && Addressable(u)
    requires CreateUser(d, source, tenant, u, ids, now).0.Ok?
    ensures var (answer, d') := CreateUser(d, source, tenant, u, ids, now);
      Provisioned(d, source, tenant, u, ids, now, answer.value, d')
  {
    var (answer, d') := CreateUser(d, source, tenant, u, ids, now);
    PutProfile(d.profiles, ids.identity, u);
    CreatedItems(d, source, tenant, touched, u, ids, now);
    CreatedRepositories(d, source, tenant, u, ids, now);
  }

  lemma CreatedItems(d: Directory, source: string, tenant: TenantId, touched: set<MembershipId>, u: UserInput,
                     ids: NewIds, now: Time)
    requires Tended(d, source, tenant, touched) && Unused(d, ids) && Addressable(u)
    requires CreateUser(d, source, tenant, u, ids, now).0.Ok?
    ensures var (answer, d') := CreateUser(d, source, tenant, u, ids, now);
      OnlyThis(d.items, d'.items, answer.value) && Found(d'.items, source, u, answer.value)
  {
    var (answer, d') := CreateUser(d, source, tenant, u, ids, now);
    CreateExact(d, source, tenant, u, ids, now);
    CreateKeepsTended(d, source, tenant, touched, u, ids, now);
    PutExact(d.items, answer.value);
    HeldIsFound(d', source, tenant, Settled(touched, answer), u, answer.value);
  }

  lemma CreatedRepositories(d: Directory, source: string, tenant: TenantId, u: UserInput, ids: NewIds, now: Time)
    requires Unused(d, ids) && CreateUser(d, source, tenant, u, ids, now).0.Ok?
    ensures var r' := CreateUser(d, source, tenant, u, ids, now).1.repos;
      && r' == d.repos.(identities := d.repos.identities[ids.identity := Active], memberships := r'.memberships)
      && MembershipSays(r', ids.membership, u.active)
      && (var m := MembershipById(r'.memberships, ids.membership).value;
          m.identity == ids.identity && m.tenant == tenant && m.validFrom == now && m.validUntil.None?)
      && (forall x :: x != ids.membership ==>
            MembershipById(r'.memberships, x) == MembershipById(d.repos.memberships, x))
  {
    var r1 := ScimProvisioning.CreateIdentity(d.repos, ids.identity, now);
    assert r1 == d.repos.(identities := d.repos.identities[ids.identity := Active]);
    MembershipCreated(r1, ids, tenant, now);
    var r2 := Done(r1, CreateMembershipCall(r1, ids.membership, ids.identity, tenant, None, now));
    ActivatedExact(r2, ids.membership, u.active, now);
  }

  /** DELETE: exactly when it succeeds, and everything it then leaves. */
  lemma RemovedExact(d: Directory, source: string, tenant: TenantId, touched: set<MembershipId>, id: ResourceId,
                     ifMatch: Option<string>, now: Time)
    requires Tended(d, source, tenant, touched)
    ensures var (answer, d') := DeleteUser(d, source, tenant, id, ifMatch, now);
      && (answer.Ok? <==> exists r :: Stored(d, source, tenant, id, r) && Matches(r, ifMatch))
      && (answer.Ok? ==>
            exists r :: Stored(d, source, tenant, id, r) && OneOn(r, answer.value)
              && OnlyThis(d.items, d'.items, answer.value)
              && !answer.value.live && !answer.value.active && answer.value.userName == r.userName
              && answer.value.externalId == r.externalId && d'.profiles == d.profiles
              && MembershipById(d'.repos.memberships, r.membership).Some?
              && MembershipById(d'.repos.memberships, r.membership).value.status.MembershipRevoked?)
  {
    RequiredExact(d, source, tenant, id);
    DeleteExact(d, source, tenant, touched, id, ifMatch, now);
    if Required(d.items, source, tenant, id).Some? {
      var r := Required(d.items, source, tenant, id).value;
      assert Stored(d, source, tenant, id, r) && Anchored(d, tenant, r);
      PutExact(d.items, Deleted(r));
    }
  }

  // ---------------------------------------------------------------- refusals

  /** Why a PUT is refused, the first of these that holds: there is no such resource, the version is another one,
  somebody else has the name, the user cannot be stored, the membership cannot be brought to what is asked. */
  lemma ReplaceRefusals(d: Directory, source: string, tenant: TenantId, touched: set<MembershipId>, id: ResourceId,
                        u: UserInput, ifMatch: Option<string>, now: Time)
    requires Tended(d, source, tenant, touched) && Addressable(u)
    ensures var answer := ReplaceUser(d, source, tenant, id, u, ifMatch, now).0;
      && ((forall r :: !Stored(d, source, tenant, id, r)) ==> answer == Err(NotFound))
      && forall r :: Stored(d, source, tenant, id, r) ==>
           if !Matches(r, ifMatch) then answer == Err(PreconditionFailed)
           else if Clashes(d.items, source, u, Some(id)) then answer == Err(Conflict)
           else if forall p :: !Describes(p, u) then answer == Err(InvalidEmail) || answer == Err(InvalidDisplayName)
           else !Bringable(d.repos, r.membership) ==>
             answer.Err? && (answer.error.ManagedStateConflict? || answer.error.ServiceFailed?)
  {
    RequiredExact(d, source, tenant, id);
    TakenExact(d, source, tenant, touched, u, Some(id));
    ProfileExact(u);
    if Required(d.items, source, tenant, id).Some? {
      var r := Required(d.items, source, tenant, id).value;
      assert Stored(d, source, tenant, id, r) && Anchored(d, tenant, r);
      if ProfileOf(u).Ok? { assert Describes(ProfileOf(u).value, u); }
      ReconcileFailsExactly(d.repos, r.membership, u.active, now);
    }
  }

  /** Why a POST is refused, the first of these that holds. */
  lemma CreateRefusals(d: Directory, source: string, tenant: TenantId, touched: set<MembershipId>, u: UserInput,
                       ids: NewIds, now: Time)
    requires Tended(d, source, tenant, touched) && Unused(d, ids) && Addressable(u)
    ensures var answer := CreateUser(d, source, tenant, u, ids, now).0;
      if Clashes(d.items, source, u, None) then answer == Err(Conflict)
      else if forall p :: !Describes(p, u) then answer == Err(InvalidEmail) || answer == Err(InvalidDisplayName)
      else if tenant !in d.repos.tenants then answer == Err(ServiceFailed(TenantNotFound))
      else d.repos.tenants[tenant] != Active ==> answer == Err(ServiceFailed(TenantInactive))
  {
    TakenExact(d, source, tenant, touched, u, None);
    ProfileExact(u);
    if ProfileOf(u).Ok? { assert Describes(ProfileOf(u).value, u); }
    if !Taken(d.items, source, u, None) && ProfileOf(u).Ok? { TenantRefuses(d, source, tenant, u, ids, now); }
  }

  lemma TenantRefuses(d: Directory, source: string, tenant: TenantId, u: UserInput, ids: NewIds, now: Time)
    requires Unused(d, ids) && !Taken(d.items, source, u, None) && ProfileOf(u).Ok?
    ensures var answer := CreateUser(d, source, tenant, u, ids, now).0;
      if tenant !in d.repos.tenants then answer == Err(ServiceFailed(TenantNotFound))
      else d.repos.tenants[tenant] != Active ==> answer == Err(ServiceFailed(TenantInactive))
  {
    var r1 := ScimProvisioning.CreateIdentity(d.repos, ids.identity, now);
    assert r1 == d.repos.(identities := d.repos.identities[ids.identity := Active]);
    MembershipCreated(r1, ids, tenant, now);
  }

  // ---------------------------------------------------------------- one PATCH operation

  /** The text an operation writes: not blank, and without the white space around it. */
  predicate Supplies(o: PatchOperation, text: string) {
    !o.verb.Remove? && o.value.Text? && Strip(o.value.text) == text && text != ""
  }

  /** An attribute that may be absent: removed, or written. */
  predicate Becomes(o: PatchOperation, value: Option<string>) {
    if o.verb.Remove? then value.None? else value.Some? && Supplies(o, value.value)
  }

  /** The addresses an operation writes: each trimmed and none blank, at most one of them primary. */
  predicate SuppliesEmails(o: PatchOperation, emails: seq<Email>) {
    if o.verb.Remove? then emails == []
    else
      && o.value.Emails? && |emails| == |o.value.emails|
      && (forall i :: 0 <= i < |emails| ==>
            var raw := o.value.emails[i];
            && emails[i].value == Strip(raw.value) && emails[i].value != "" && emails[i].primary == raw.primary
            && (emails[i].kind.None? <==> raw.kind.None? || Strip(raw.kind.value) == "")
            && (emails[i].kind.Some? ==> emails[i].kind.value == Strip(raw.kind.value)))
      && forall i, j :: 0 <= i < j < |emails| ==> !(emails[i].primary && emails[j].primary)
  }

  /** The user after an operation on the attribute of this name: the attribute is what the operation says, and the rest
  is as it was. */
  predicate AfterAt(u: UserInput, name: string, o: PatchOperation, w: UserInput) {
    || (name == "active" && !o.verb.Remove? && o.value.Flag? && w == u.(active := o.value.flag))
    || (name == "username" && Supplies(o, w.userName) && w == u.(userName := w.userName))
    || (name == "displayname" && Becomes(o, w.displayName) && w == u.(displayName := w.displayName))
    || (name == "externalid" && Becomes(o, w.externalId) && w == u.(externalId := w.externalId))
    || (name == "name.givenname" && Becomes(o, w.givenName) && w == u.(givenName := w.givenName))
    || (name == "name.familyname" && Becomes(o, w.familyName) && w == u.(familyName := w.familyName))
    || (name == "emails" && SuppliesEmails(o, w.emails) && w == u.(emails := w.emails))
  }

  lemma {:induction false} EmailsOfExact(raw: seq<Email>)
    ensures EmailsOf(raw).Err? <==> exists i :: 0 <= i < |raw| && Strip(raw[i].value) == ""
    ensures EmailsOf(raw).Ok? ==>
      && |EmailsOf(raw).value| == |raw|
      && forall i :: 0 <= i < |raw| ==>
           EmailsOf(raw).value[i] == Email(Strip(raw[i].value), raw[i].primary, OptionalText(raw[i].kind))
  {
    if raw != [] {
      EmailsOfExact(raw[1..]);
      assert forall i :: 1 <= i < |raw| ==> raw[i] == raw[1..][i - 1];
      if i :| 0 <= i < |raw[1..]| && Strip(raw[1..][i].value) == "" { assert raw[i + 1] == raw[1..][i]; }
    }
  }

  lemma {:induction false} PrimariesExact(emails: seq<Email>)
    ensures Primaries(emails) == 0 <==> forall i :: 0 <= i < |emails| ==> !emails[i].primary
    ensures Primaries(emails) <= 1 <==>
      forall i, j :: 0 <= i < j < |emails| ==> !(emails[i].primary && emails[j].primary)
  {
    if emails != [] {
      var tail := emails[1..];
      PrimariesExact(tail);
      assert forall i :: 1 <= i < |emails| ==> emails[i] == tail[i - 1];
      assert forall i :: 0 <= i < |tail| ==> tail[i] == emails[i + 1];
    }
  }

  lemma {:induction false} EmailsWritten(o: PatchOperation, emails: seq<Email>)
    requires o.value.Emails? && !o.verb.Remove?
    ensures EmailsOf(o.value.emails) == Ok(emails) && Primaries(emails) <= 1 <==> SuppliesEmails(o, emails)
  {
    EmailsOfExact(o.value.emails);
    PrimariesExact(emails);
    if SuppliesEmails(o, emails) {
      forall i | 0 <= i < |emails|
        ensures emails[i]
          == Email(Strip(o.value.emails[i].value), o.value.emails[i].primary, OptionalText(o.value.emails[i].kind))
      {
      }
      assert EmailsOf(o.value.emails).Ok?;
      assert emails == EmailsOf(o.value.emails).value;
    }
  }

  lemma PathExact(text: string)
    ensures match PathOf(text)
            case Some(p) => Fold(Strip(text)) == PathText(p)
            case None => forall p: Path :: Fold(Strip(text)) != PathText(p)
  {
  }

  lemma TextAtExact(u: UserInput, path: Path, o: PatchOperation, w: UserInput)
    requires path.AtDisplayName? || path.AtExternalId? || path.AtGivenName? || path.AtFamilyName?
    ensures PatchAt(u, path, o) == Ok(w) <==> AfterAt(u, PathText(path), o, w)
  {
  }

  lemma OtherAtExact(u: UserInput, path: Path, o: PatchOperation, w: UserInput)
    requires path.AtActive? || path.AtUserName?
    ensures PatchAt(u, path, o) == Ok(w) <==> AfterAt(u, PathText(path), o, w)
  {
  }

  lemma EmailsAtExact(u: UserInput, o: PatchOperation, w: UserInput)
    ensures PatchAt(u, AtEmails, o) == Ok(w) <==> AfterAt(u, "emails", o, w)
  {
    if o.value.Emails? && !o.verb.Remove? {
      EmailsWritten(o, w.emails);
      if EmailsOf(o.value.emails).Ok? { EmailsWritten(o, EmailsOf(o.value.emails).value); }
    }
  }

  /** One PATCH operation is accepted exactly when its path names an attribute, in any case, and it says something that
  the attribute can be; and then it does that and nothing else. */
  lemma PatchOneExact(u: UserInput, o: PatchOperation, w: UserInput)
    ensures PatchOne(u, o) == Ok(w) <==> AfterAt(u, Fold(Strip(o.path)), o, w)
  {
    PathExact(o.path);
    match PathOf(o.path)
    case None =>
      forall p: Path ensures Fold(Strip(o.path)) != PathText(p) {}
      NoSuchAttribute(u, Fold(Strip(o.path)), o, w);
    case Some(path) =>
      if path.AtEmails? { EmailsAtExact(u, o, w); }
      else if path.AtActive? || path.AtUserName? { OtherAtExact(u, path, o, w); }
      else { TextAtExact(u, path, o, w); }
  }

  lemma NoSuchAttribute(u: UserInput, name: string, o: PatchOperation, w: UserInput)
    requires forall p: Path :: name != PathText(p)
    ensures !AfterAt(u, name, o, w)
  {
    assert name != PathText(AtActive) && name != PathText(AtUserName) && name != PathText(AtDisplayName);
    assert name != PathText(AtExternalId) && name != PathText(AtGivenName) && name != PathText(AtFamilyName);
    assert name != PathText(AtEmails);
  }
}
