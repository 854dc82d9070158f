/** Runs of provisioning requests: what they keep, what a tag is good for, and what a filter finds. */
module ScimRuns {
  import opened Prelude
  import opened Authorization
  import opened SecurityState
  import opened Writes
  import opened Services
  import opened FilterSplitter
  import opened ScimFilter
  import opened ScimUsers
  import opened ScimProvisioning

  // ---------------------------------------------------------------- whole runs

  datatype ScimStep =
    | Post(user: UserInput, ids: NewIds, now: Time)
    | Put(id: ResourceId, user: UserInput, ifMatch: Option<string>, now: Time)
    | Patch(id: ResourceId, operations: seq<PatchOperation>, ifMatch: Option<string>, now: Time)
    | Delete(id: ResourceId, ifMatch: Option<string>, now: Time)
    | Elsewhere(command: Command, maxDepth: nat, now: Time)
    | ProfileEdit(identity: IdentityId, profile: Profile)

  function Perform(d: Directory, source: string, tenant: TenantId, step: ScimStep): Directory {
    match step
    case Post(u, ids, now) => CreateUser(d, source, tenant, u, ids, now).1
    case Put(id, u, ifMatch, now) => ReplaceUser(d, source, tenant, id, u, ifMatch, now).1
    case Patch(id, operations, ifMatch, now) => PatchUser(d, source, tenant, id, operations, ifMatch, now).1
    case Delete(id, ifMatch, now) => DeleteUser(d, source, tenant, id, ifMatch, now).1
    case Elsewhere(c, maxDepth, now) => d.(repos := Done(d.repos, Execute(d.repos, maxDepth, now, c)))
    case ProfileEdit(i, p) => d.(profiles := d.profiles[i := p])
  }

  /** Requests are well formed and new identifiers are new; any other service may be called. */
  ghost predicate Possible(d: Directory, source: string, step: ScimStep) {
    match step
    case Post(u, ids, _) => u.WellFormed() && Unused(d, ids)
    case Put(_, u, _, _) => u.WellFormed()
    case Elsewhere(c, _, _) => FreshIds(d.repos, c)
    case _ => true
  }

  function AnswerTo(d: Directory, source: string, tenant: TenantId, step: ScimStep): Option<Answer> {
    match step
    case Post(u, ids, now) => Some(CreateUser(d, source, tenant, u, ids, now).0)
    case Put(id, u, ifMatch, now) => Some(ReplaceUser(d, source, tenant, id, u, ifMatch, now).0)
    case Patch(id, operations, ifMatch, now) => Some(PatchUser(d, source, tenant, id, operations, ifMatch, now).0)
    case Delete(id, ifMatch, now) => Some(DeleteUser(d, source, tenant, id, ifMatch, now).0)
    case _ => None
  }

  /** The memberships that other services have changed since provisioning last wrote their resources. */
  function Touched(d: Directory, source: string, tenant: TenantId, touched: set<MembershipId>,
                   step: ScimStep): set<MembershipId> {
    if step.Elsewhere? && step.command.ChangeMembership? then touched + {step.command.membership}
    else
      match AnswerTo(d, source, tenant, step)
      case Some(answer) => Settled(touched, answer)
      case None => touched
  }

  lemma {:induction false} ElsewhereKeepsMembership(r: Repositories, maxDepth: nat, now: Time, c: Command,
                                                    id: MembershipId)
    requires FreshIds(r, c) && MembershipById(r.memberships, id).Some?
    ensures var m' := MembershipById(Done(r, Execute(r, maxDepth, now, c)).memberships, id);
      && m'.Some?
      && (m'.value.status.MembershipExpired? ==> MembershipById(r.memberships, id).value.status.MembershipExpired?)
      && (!(c.ChangeMembership? && c.membership == id) ==> m' == MembershipById(r.memberships, id))
  {
    MembershipByIdFound(r.memberships, id);
    if c.ChangeMembership? {
      MembershipCallExact(r, c.membership, c.membershipCommand, now);
    } else if c.CreateMembership? {
      MembershipStays(r.memberships,
                      Membership(c.membership, c.identity, c.tenant, MembershipPending, now, c.validUntil), id);
    } else if Execute(r, maxDepth, now, c).Ok? {
      OtherKeepMemberships(r, maxDepth, now, c);
    }
  }

  lemma ElsewhereKeepsIdentities(r: Repositories, maxDepth: nat, now: Time, c: Command)
    ensures forall i :: i in r.identities ==> i in Done(r, Execute(r, maxDepth, now, c)).identities
  {
  }

  lemma MoreTouched(d: Directory, source: string, tenant: TenantId, touched: set<MembershipId>, more: set<MembershipId>)
    requires Tended(d, source, tenant, touched) && touched <= more
    ensures Tended(d, source, tenant, more)
  {
  }

  lemma ElsewhereKeepsTended(d: Directory, source: string, tenant: TenantId, touched: set<MembershipId>, c: Command,
                             maxDepth: nat, now: Time)
    requires Tended(d, source, tenant, touched) && FreshIds(d.repos, c)
    ensures var step := Elsewhere(c, maxDepth, now);
      Tended(Perform(d, source, tenant, step), source, tenant, Touched(d, source, tenant, touched, step))
  {
    var step := Elsewhere(c, maxDepth, now);
    var d', touched' := Perform(d, source, tenant, step), Touched(d, source, tenant, touched, step);
    ElsewhereKeepsIdentities(d.repos, maxDepth, now, c);
    MoreTouched(d, source, tenant, touched, touched');
    forall x | MembershipById(d.repos.memberships, x).Some?
      ensures MembershipById(d'.repos.memberships, x).Some?
      ensures MembershipById(d'.repos.memberships, x).value.status.MembershipExpired? ==>
        MembershipById(d.repos.memberships, x).value.status.MembershipExpired?
      ensures x !in touched' ==> MembershipById(d'.repos.memberships, x) == MembershipById(d.repos.memberships, x)
    {
      ElsewhereKeepsMembership(d.repos, maxDepth, now, c, x);
    }
    UntouchedKeepsTended(d, d', source, tenant, touched');
  }

  lemma StepKeepsTended(d: Directory, source: string, tenant: TenantId, touched: set<MembershipId>, step: ScimStep)
    requires Tended(d, source, tenant, touched) && Possible(d, source, step)
    ensures Tended(Perform(d, source, tenant, step), source, tenant, Touched(d, source, tenant, touched, step))
  {
    match step
    case Post(u, ids, now) => CreateKeepsTended(d, source, tenant, touched, u, ids, now);
    case Put(id, u, ifMatch, now) => ReplaceKeepsTended(d, source, tenant, touched, id, u, ifMatch, now);
    case Patch(id, operations, ifMatch, now) => PatchExact(d, source, tenant, touched, id, operations, ifMatch, now);
    case Delete(id, ifMatch, now) => DeleteKeepsTended(d, source, tenant, touched, id, ifMatch, now);
    case Elsewhere(c, maxDepth, now) => ElsewhereKeepsTended(d, source, tenant, touched, c, maxDepth, now);
    case ProfileEdit(i, p) => UntouchedKeepsTended(d, Perform(d, source, tenant, step), source, tenant, touched);
  }

  function PerformAll(d: Directory, source: string, tenant: TenantId, steps: seq<ScimStep>): Directory
    decreases |steps|
  {
    if steps == [] then d else PerformAll(Perform(d, source, tenant, steps[0]), source, tenant, steps[1..])
  }

  ghost predicate AllPossible(d: Directory, source: string, tenant: TenantId, steps: seq<ScimStep>)
    decreases |steps|
  {
    steps == []
      || (Possible(d, source, steps[0])
          && AllPossible(Perform(d, source, tenant, steps[0]), source, tenant, steps[1..]))
  }

  function TouchedBy(d: Directory, source: string, tenant: TenantId, touched: set<MembershipId>,
                     steps: seq<ScimStep>): set<MembershipId>
    decreases |steps|
  {
    if steps == [] then touched
    else TouchedBy(Perform(d, source, tenant, steps[0]), source, tenant, Touched(d, source, tenant, touched, steps[0]),
                   steps[1..])
  }

  /** Every run of requests, among any other service calls, keeps names and external identifiers unique, and keeps
  every resource in step with its membership whose membership no other service has changed since the last
  successful write of the resource: a PUT, PATCH or DELETE brings it back. */
  lemma {:induction false} RunKeepsTended(d: Directory, source: string, tenant: TenantId, touched: set<MembershipId>,
                                          steps: seq<ScimStep>)
    requires Tended(d, source, tenant, touched) && AllPossible(d, source, tenant, steps)
    ensures Tended(PerformAll(d, source, tenant, steps), source, tenant, TouchedBy(d, source, tenant, touched, steps))
    decreases |steps|
  {
    if steps != [] {
      StepKeepsTended(d, source, tenant, touched, steps[0]);
      RunKeepsTended(Perform(d, source, tenant, steps[0]), source, tenant,
                     Touched(d, source, tenant, touched, steps[0]), steps[1..]);
    }
  }

  // ---------------------------------------------------------------- a tag is good for one write

  /** The resource is as it was, or it has a higher version. */
  ghost predicate MovedOn(items: seq<Resource>, later: seq<Resource>) {
    forall r :: r in items ==> exists r' :: r' in later && r'.id == r.id && (r' == r || r'.version > r.version)
  }

  lemma {:induction false} PutMovesOn(items: seq<Resource>, old': Resource, r: Resource)
    requires UniqueResources(items) && old' in items && r.id == old'.id && r.version > old'.version
    ensures MovedOn(items, PutResource(items, r))
  {
    PutExact(items, r);
    forall x | x in items
      ensures exists x' :: x' in PutResource(items, r) && x'.id == x.id && (x' == x || x'.version > x.version)
    {
      if x.id == r.id {
        ByIdExact(items, r.id);
        assert x == old';
        assert r in PutResource(items, r);
      } else {
        assert x in PutResource(items, r);
      }
    }
  }

  lemma Stays(items: seq<Resource>)
    ensures MovedOn(items, items)
  {
  }

  lemma {:induction false} AddMovesOn(items: seq<Resource>, r: Resource)
    requires UniqueResources(items) && forall x :: x in items ==> x.id != r.id
    ensures MovedOn(items, PutResource(items, r))
  {
    PutExact(items, r);
    forall x | x in items
      ensures x in PutResource(items, r)
    {
    }
  }

  lemma StepMovesOn(d: Directory, source: string, tenant: TenantId, touched: set<MembershipId>, step: ScimStep)
    requires Tended(d, source, tenant, touched) && Possible(d, source, step)
    ensures MovedOn(d.items, Perform(d, source, tenant, step).items)
  {
    Stays(d.items);
    match step
    case Post(u, ids, now) =>
      CreateExact(d, source, tenant, u, ids, now);
      var answer := CreateUser(d, source, tenant, u, ids, now).0;
      if answer.Ok? { AddMovesOn(d.items, answer.value); }
    case Put(id, u, ifMatch, now) => ReplaceMovesOn(d, source, tenant, id, u, ifMatch, now);
    case Patch(id, operations, ifMatch, now) => PatchMovesOn(d, source, tenant, id, operations, ifMatch, now);
    case Delete(id, ifMatch, now) =>
      ByIdExact(d.items, id);
      var answer := DeleteUser(d, source, tenant, id, ifMatch, now).0;
      if answer.Ok? { PutMovesOn(d.items, ById(d.items, id).value, answer.value); }
    case Elsewhere(_, _, _) =>
    case ProfileEdit(_, _) =>
  }

  lemma ReplaceMovesOn(d: Directory, source: string, tenant: TenantId, id: ResourceId, u: UserInput,
                       ifMatch: Option<string>, now: Time)
    requires UniqueResources(d.items)
    ensures MovedOn(d.items, ReplaceUser(d, source, tenant, id, u, ifMatch, now).1.items)
  {
    Stays(d.items);
    ByIdExact(d.items, id);
    var answer := ReplaceUser(d, source, tenant, id, u, ifMatch, now).0;
    if answer.Ok? { PutMovesOn(d.items, ById(d.items, id).value, answer.value); }
  }

  lemma PatchMovesOn(d: Directory, source: string, tenant: TenantId, id: ResourceId, operations: seq<PatchOperation>,
                     ifMatch: Option<string>, now: Time)
    requires UniqueResources(d.items)
    ensures MovedOn(d.items, PatchUser(d, source, tenant, id, operations, ifMatch, now).1.items)
  {
    Stays(d.items);
    if Required(d.items, source, tenant, id).Some? {
      var identity := Required(d.items, source, tenant, id).value.identity;
      if identity in d.profiles {
        var shown := Shown(Required(d.items, source, tenant, id).value, d.profiles[identity]);
        if Patched(shown, operations).Ok? {
          ReplaceMovesOn(d, source, tenant, id, Patched(shown, operations).value, ifMatch, now);
        }
      }
    }
  }

  lemma {:induction false} RunMovesOn(d: Directory, source: string, tenant: TenantId, touched: set<MembershipId>,
                                      steps: seq<ScimStep>, r: Resource) returns (r': Resource)
    requires Tended(d, source, tenant, touched) && AllPossible(d, source, tenant, steps) && r in d.items
    ensures r' in PerformAll(d, source, tenant, steps).items && r'.id == r.id && (r' == r || r'.version > r.version)
    decreases |steps|
  {
    r' := r;
    if steps != [] {
      StepKeepsTended(d, source, tenant, touched, steps[0]);
      StepMovesOn(d, source, tenant, touched, steps[0]);
      var next := Perform(d, source, tenant, steps[0]);
      var mid :| mid in next.items && mid.id == r.id && (mid == r || mid.version > r.version);
      r' := RunMovesOn(next, source, tenant, Touched(d, source, tenant, touched, steps[0]), steps[1..], mid);
    }
  }

  /** A client that read a resource and sends its tag back, after any run in which the resource was
  written, changes nothing: PUT and DELETE are refused.  No update is lost. */
  lemma {:induction false} StaleTagRefused(d: Directory, source: string, tenant: TenantId, touched: set<MembershipId>,
                                           steps: seq<ScimStep>, r: Resource, u: UserInput, now: Time)
    requires Tended(d, source, tenant, touched) && AllPossible(d, source, tenant, steps) && r in d.items
    requires r !in PerformAll(d, source, tenant, steps).items
    ensures var later := PerformAll(d, source, tenant, steps);
      var (put, afterPut) := ReplaceUser(later, source, tenant, r.id, u, Some(r.Etag()), now);
      var (deleted, afterDelete) := DeleteUser(later, source, tenant, r.id, Some(r.Etag()), now);
      && put.Err? && (put.error.PreconditionFailed? || put.error.NotFound?) && afterPut == later
      && deleted.Err? && (deleted.error.PreconditionFailed? || deleted.error.NotFound?) && afterDelete == later
  {
    var later := PerformAll(d, source, tenant, steps);
    RunKeepsTended(d, source, tenant, touched, steps);
    var r' := RunMovesOn(d, source, tenant, touched, steps, r);
    ByIdExact(later.items, r.id);
    assert Trimmed(r.Etag());
    StripNothing(r.Etag());
    assert r.Etag()[0] == 'W';
    if r'.Etag() == r.Etag() { EtagTellsVersions(r', r); }
  }

  // ---------------------------------------------------------------- looking users up

  predicate Satisfies(r: Resource, c: Clause) {
    match c.attribute
    case UserName => Fold(r.userName) == Fold(c.value)
    case ExternalId => r.externalId == Some(c.value)
  }

  predicate SatisfiesAll(r: Resource, clauses: seq<Clause>) {
    forall c :: c in clauses ==> Satisfies(r, c)
  }

  /** `_find_by_expression`: the first clause finds a candidate, all clauses check it. */
  function FindByExpression(items: seq<Resource>, source: string, clauses: seq<Clause>): Option<Resource>
    requires clauses != []
  {
    var first := clauses[0];
    var candidate := if first.attribute.UserName? then FirstByName(items, source, first.value)
      else FirstByExternal(items, source, first.value);
    if candidate.Some? && SatisfiesAll(candidate.value, clauses) then candidate else None
  }

  lemma FoldKeepsSpaces(s: string, i: nat)
    requires i < |s|
    ensures |Fold(s)| == |s| && IsSpace(Fold(s)[i]) == IsSpace(s[i])
  {
    assert Fold(s)[i] == Lower(s[i]);
  }

  /** Only a value without white space around it can equal a stored name. */
  lemma FoldedTrimmed(a: string, b: string)
    requires Trimmed(a) && Fold(a) == Fold(b)
    ensures Trimmed(b)
  {
    assert |a| == |Fold(a)| == |Fold(b)| == |b|;
    FoldKeepsSpaces(a, 0);
    FoldKeepsSpaces(b, 0);
    FoldKeepsSpaces(a, |a| - 1);
    FoldKeepsSpaces(b, |b| - 1);
  }

  lemma {:induction false} FirstClauseFinds(d: Directory, source: string, tenant: TenantId, touched: set<MembershipId>,
                                            c: Clause, r: Resource)
    requires Tended(d, source, tenant, touched) && r in d.items && r.live && r.source == source && Satisfies(r, c)
    ensures (if c.attribute.UserName? then FirstByName(d.items, source, c.value)
             else FirstByExternal(d.items, source, c.value)) == Some(r)
  {
    assert Anchored(d, tenant, r);
    if c.attribute.UserName? {
      FoldedTrimmed(r.userName, c.value);
      StripNothing(c.value);
      FirstByNameExact(d.items, source, c.value);
      assert HasName(r, source, c.value);
      SameResource(d, source, tenant, touched, FirstByName(d.items, source, c.value).value, r);
    } else {
      StripNothing(c.value);
      FirstByExternalExact(d.items, source, c.value);
      assert HasExternal(r, source, c.value);
      SameResource(d, source, tenant, touched, FirstByExternal(d.items, source, c.value).value, r);
    }
  }

  lemma SameResource(d: Directory, source: string, tenant: TenantId, touched: set<MembershipId>, a: Resource,
                     b: Resource)
    requires Tended(d, source, tenant, touched) && a in d.items && b in d.items && a.live && b.live
      && a.source == source && b.source == source
    requires Fold(a.userName) == Fold(b.userName) || (a.externalId.Some? && a.externalId == b.externalId)
    ensures a == b
  {
    assert Apart(a, b);
    ByIdExact(d.items, a.id);
  }

  /** Looking up by the first clause and checking the rest finds what a scan of all live resources of
  the source for all clauses finds: there is at most one, and it is found whichever clause is first. */
  lemma FilterIsScan(d: Directory, source: string, tenant: TenantId, touched: set<MembershipId>, clauses: seq<Clause>,
                     r: Resource)
    requires Tended(d, source, tenant, touched) && clauses != []
    ensures FindByExpression(d.items, source, clauses) == Some(r)
      <==> r in d.items && r.live && r.source == source && SatisfiesAll(r, clauses)
  {
    FirstByNameExact(d.items, source, clauses[0].value);
    FirstByExternalExact(d.items, source, clauses[0].value);
    if r in d.items && r.live && r.source == source && SatisfiesAll(r, clauses) {
      FirstClauseFinds(d, source, tenant, touched, clauses[0], r);
    }
  }

  /** The order and the repetition of clauses do not matter. */
  lemma FilterOrderFree(d: Directory, source: string, tenant: TenantId, touched: set<MembershipId>, a: seq<Clause>,
                        b: seq<Clause>)
    requires Tended(d, source, tenant, touched) && a != [] && b != [] && forall c :: c in a <==> c in b
    ensures FindByExpression(d.items, source, a) == FindByExpression(d.items, source, b)
  {
    var x, y := FindByExpression(d.items, source, a), FindByExpression(d.items, source, b);
    if x.Some? {
      FilterIsScan(d, source, tenant, touched, a, x.value);
      FilterIsScan(d, source, tenant, touched, b, x.value);
    } else if y.Some? {
      FilterIsScan(d, source, tenant, touched, a, y.value);
      FilterIsScan(d, source, tenant, touched, b, y.value);
    }
  }
}
