/** SCIM users as values: what a client sends, what PATCH does to it, and the stored resources. */
module ScimUsers {
  import opened Prelude
  import opened DecimalText
  import opened FilterSplitter
  import opened ScimFilter

  /** Text without regard to case. */
  function Fold(s: string): string {
    seq(|s|, i requires 0 <= i < |s| => Lower(s[i]))
  }

  /** White space does not count, and nothing left is nothing. */
  function OptionalText(s: Option<string>): Option<string> {
    if s.None? || Strip(s.value) == "" then None else Some(Strip(s.value))
  }

  datatype Email = Email(value: string, primary: bool, kind: Option<string>)

  datatype UserInput = UserInput(
    userName: string,
    displayName: Option<string>,
    externalId: Option<string>,
    active: bool,
    givenName: Option<string>,
    familyName: Option<string>,
    emails: seq<Email>)
  {
    predicate WellFormed() {
      && Trimmed(userName) && Proper(displayName) && Proper(externalId) && Proper(givenName) && Proper(familyName)
      && ProperEmails(emails)
    }

    function PrimaryEmail(): Option<string> {
      if emails == [] then None else Some(PrimaryOf(emails).value)
    }

    function EffectiveDisplayName(): string {
      if displayName.Some? then displayName.value else userName
    }
  }

  /** Absent, or text without white space around it. */
  predicate Proper(s: Option<string>) {
    s.None? || Trimmed(s.value)
  }

  function Primaries(emails: seq<Email>): nat {
    if emails == [] then 0 else (if emails[0].primary then 1 else 0) + Primaries(emails[1..])
  }

  predicate ProperEmails(emails: seq<Email>) {
    && (forall i :: 0 <= i < |emails| ==> Trimmed(emails[i].value) && Proper(emails[i].kind))
    && Primaries(emails) <= 1
  }

  function FirstPrimary(emails: seq<Email>): Option<Email> {
    if emails == [] then None else if emails[0].primary then Some(emails[0]) else FirstPrimary(emails[1..])
  }

  function PrimaryOf(emails: seq<Email>): Email
    requires emails != []
  {
    if FirstPrimary(emails).Some? then FirstPrimary(emails).value else emails[0]
  }

  // ---------------------------------------------------------------- PATCH

  datatype Verb = Add | Replace | Remove

  datatype PatchValue = Flag(flag: bool) | Text(text: string) | Emails(emails: seq<Email>) | Other

  datatype PatchOperation = PatchOperation(verb: Verb, path: string, value: PatchValue)

  datatype PatchError = UnsupportedPatch | InvalidRequest

  type PatchResult = Result<UserInput, PatchError>

  function RequiredText(v: PatchValue): Result<string, PatchError> {
    if !v.Text? || Strip(v.text) == "" then Err(InvalidRequest) else Ok(Strip(v.text))
  }

  function EmailsOf(raw: seq<Email>): Result<seq<Email>, PatchError> {
    if raw == [] then Ok([])
    else if Strip(raw[0].value) == "" then Err(InvalidRequest)
    else
      match EmailsOf(raw[1..])
      case Err(e) => Err(e)
      case Ok(rest) => Ok([Email(Strip(raw[0].value), raw[0].primary, OptionalText(raw[0].kind))] + rest)
  }

  function OptionalPatch(o: PatchOperation): Result<Option<string>, PatchError> {
    if o.verb.Remove? then Ok(None)
    else
      match RequiredText(o.value)
      case Err(e) => Err(e)
      case Ok(text) => Ok(Some(text))
  }

  datatype Path = AtActive | AtUserName | AtDisplayName | AtExternalId | AtGivenName | AtFamilyName | AtEmails

  function PathText(p: Path): string {
    match p
    case AtActive => "active"
    case AtUserName => "username"
    case AtDisplayName => "displayname"
    case AtExternalId => "externalid"
    case AtGivenName => "name.givenname"
    case AtFamilyName => "name.familyname"
    case AtEmails => "emails"
  }

  /** The attribute a path names, in any case. */
  function PathOf(text: string): Option<Path> {
    var path := Fold(Strip(text));
    if path == PathText(AtActive) then Some(AtActive)
    else if path == PathText(AtUserName) then Some(AtUserName)
    else if path == PathText(AtDisplayName) then Some(AtDisplayName)
    else if path == PathText(AtExternalId) then Some(AtExternalId)
    else if path == PathText(AtGivenName) then Some(AtGivenName)
    else if path == PathText(AtFamilyName) then Some(AtFamilyName)
    else if path == PathText(AtEmails) then Some(AtEmails)
    else None
  }

  function PatchText(u: UserInput, path: Path, text: Option<string>): UserInput {
    match path
    case AtDisplayName => u.(displayName := text)
    case AtExternalId => u.(externalId := text)
    case AtGivenName => u.(givenName := text)
    case AtFamilyName => u.(familyName := text)
    case _ => u
  }

  function PatchAt(u: UserInput, path: Path, o: PatchOperation): PatchResult {
    match path
    case AtActive =>
      if o.verb.Remove? then Err(UnsupportedPatch) else if !o.value.Flag? then Err(InvalidRequest)
        else Ok(u.(active := o.value.flag))
    case AtUserName =>
      if o.verb.Remove? then Err(UnsupportedPatch)
      else (match RequiredText(o.value) case Err(e) => Err(e) case Ok(text) => Ok(u.(userName := text)))
    case AtEmails =>
      if o.verb.Remove? then Ok(u.(emails := []))
      else if !o.value.Emails? then Err(InvalidRequest)
      else
        (match EmailsOf(o.value.emails)
         case Err(e) => Err(e)
         case Ok(emails) => if Primaries(emails) > 1 then Err(InvalidRequest) else Ok(u.(emails := emails)))
    case _ =>
      match OptionalPatch(o)
      case Err(e) => Err(e)
      case Ok(text) => Ok(PatchText(u, path, text))
  }

  /** One operation. */
  function PatchOne(u: UserInput, o: PatchOperation): PatchResult {
    match PathOf(o.path)
    case None => Err(UnsupportedPatch)
    case Some(path) => PatchAt(u, path, o)
  }

  function Patched(u: UserInput, operations: seq<PatchOperation>): PatchResult
    decreases |operations|
  {
    if operations == [] then Ok(u)
    else
      match PatchOne(u, operations[0])
      case Err(e) => Err(e)
      case Ok(next) => Patched(next, operations[1..])
  }

  /** `apply_user_patch`: one operation after another, nothing if any is refused. */
  method ApplyUserPatch(current: UserInput, operations: seq<PatchOperation>) returns (r: PatchResult)
    ensures r == Patched(current, operations)
  {
    var result := current;
    for n := 0 to |operations|
      invariant Patched(current, operations) == Patched(result, operations[n..])
    {
      var next := PatchOne(result, operations[n]);
      assert operations[n..][1..] == operations[n + 1..];
      if next.Err? { return Err(next.error); }
      result := next.value;
    }
    r := Ok(result);
  }

  lemma StripTrims(s: string)
    ensures Strip(s) != "" ==> Trimmed(Strip(s))
  {
    var _, _ := StripParts(s);
  }

  lemma StripNothing(s: string)
    requires Trimmed(s)
    ensures Strip(s) == s
  {
    StripExact("", s, "");
    assert "" + s + "" == s;
  }

  lemma {:induction false} EmailsOfProper(raw: seq<Email>)
    requires EmailsOf(raw).Ok?
    ensures forall i :: 0 <= i < |EmailsOf(raw).value| ==>
      Trimmed(EmailsOf(raw).value[i].value) && Proper(EmailsOf(raw).value[i].kind)
  {
    if raw != [] {
      StripTrims(raw[0].value);
      if raw[0].kind.Some? { StripTrims(raw[0].kind.value); }
      EmailsOfProper(raw[1..]);
    }
  }

  lemma TextIsProper(o: PatchOperation)
    ensures RequiredText(o.value).Ok? ==> Trimmed(RequiredText(o.value).value)
    ensures OptionalPatch(o).Ok? ==> Proper(OptionalPatch(o).value)
  {
    if o.value.Text? { StripTrims(o.value.text); }
  }

  lemma EmailsKeepForm(u: UserInput, emails: seq<Email>)
    requires u.WellFormed() && ProperEmails(emails)
    ensures u.(emails := emails).WellFormed()
  {
  }

  lemma TextKeepsForm(u: UserInput, path: Path, text: Option<string>)
    requires u.WellFormed() && Proper(text)
    ensures PatchText(u, path, text).WellFormed()
  {
  }

  lemma PatchOneKeepsForm(u: UserInput, o: PatchOperation)
    requires u.WellFormed() && PatchOne(u, o).Ok?
    ensures PatchOne(u, o).value.WellFormed()
  {
    TextIsProper(o);
    match PathOf(o.path).value
    case AtActive =>
    case AtUserName =>
    case AtEmails =>
      if o.value.Emails? && EmailsOf(o.value.emails).Ok? { EmailsOfProper(o.value.emails); }
      EmailsKeepForm(u, PatchOne(u, o).value.emails);
    case path => TextKeepsForm(u, path, OptionalPatch(o).value);
  }

  lemma {:induction false} PatchKeepsForm(u: UserInput, operations: seq<PatchOperation>)
    requires u.WellFormed() && Patched(u, operations).Ok?
    ensures Patched(u, operations).value.WellFormed()
    decreases |operations|
  {
    if operations != [] {
      PatchOneKeepsForm(u, operations[0]);
      PatchKeepsForm(PatchOne(u, operations[0]).value, operations[1..]);
    }
  }

  /** What a stored resource takes from a user: names without white space around them. */
  predicate Addressable(u: UserInput) {
    Trimmed(u.userName) && Proper(u.externalId)
  }

  lemma PatchOneKeepsAddress(u: UserInput, o: PatchOperation)
    requires Addressable(u) && PatchOne(u, o).Ok?
    ensures Addressable(PatchOne(u, o).value)
  {
    TextIsProper(o);
  }

  lemma {:induction false} PatchKeepsAddress(u: UserInput, operations: seq<PatchOperation>)
    requires Addressable(u) && Patched(u, operations).Ok?
    ensures Addressable(Patched(u, operations).value)
    decreases |operations|
  {
    if operations != [] {
      PatchOneKeepsAddress(u, operations[0]);
      PatchKeepsAddress(PatchOne(u, operations[0]).value, operations[1..]);
    }
  }

  // ---------------------------------------------------------------- PATCH reaches what PUT reaches

  function OptionalOperation(path: Path, v: Option<string>): PatchOperation {
    if v.None? then PatchOperation(Remove, PathText(path), Other)
      else PatchOperation(Replace, PathText(path), Text(v.value))
  }

  /** The PATCH that writes every attribute of `w`. */
  function PatchTo(w: UserInput): seq<PatchOperation> {
    [PatchOperation(Replace, PathText(AtActive), Flag(w.active)),
     PatchOperation(Replace, PathText(AtUserName), Text(w.userName)),
     OptionalOperation(AtDisplayName, w.displayName), OptionalOperation(AtExternalId, w.externalId),
     OptionalOperation(AtGivenName, w.givenName), OptionalOperation(AtFamilyName, w.familyName),
     PatchOperation(Replace, PathText(AtEmails), Emails(w.emails))]
  }

  lemma {:induction false} EmailsOfSame(emails: seq<Email>)
    requires forall i :: 0 <= i < |emails| ==> Trimmed(emails[i].value) && Proper(emails[i].kind)
    ensures EmailsOf(emails) == Ok(emails)
  {
    if emails != [] {
      StripNothing(emails[0].value);
      if emails[0].kind.Some? { StripNothing(emails[0].kind.value); }
      EmailsOfSame(emails[1..]);
      assert [emails[0]] + emails[1..] == emails;
    }
  }

  lemma PathTextPlain(p: Path)
    ensures Fold(Strip(PathText(p))) == PathText(p)
  {
    var text := PathText(p);
    assert forall i :: 0 <= i < |text| ==> !('A' <= text[i] <= 'Z');
    StripNothing(text);
  }

  lemma PathReads(p: Path)
    ensures PathOf(PathText(p)) == Some(p)
  {
    PathTextPlain(p);
    PathTextsDiffer(p);
  }

  lemma PathTextsDiffer(p: Path)
    ensures forall q: Path :: PathText(p) == PathText(q) ==> p == q
  {
    forall q: Path | PathText(p) == PathText(q)
      ensures p == q
    {
      assert PathText(p)[0] == PathText(q)[0] && |PathText(p)| == |PathText(q)|;
      assert |PathText(p)| > 1 && PathText(p)[1] == PathText(q)[1];
    }
  }

  lemma OptionalPatchSame(u: UserInput, path: Path, v: Option<string>)
    requires Proper(v) && (path.AtDisplayName? || path.AtExternalId? || path.AtGivenName? || path.AtFamilyName?)
    ensures PatchOne(u, OptionalOperation(path, v)) == Ok(PatchText(u, path, v))
  {
    PathReads(path);
    if v.Some? { StripNothing(v.value); }
  }

  lemma ActiveOperation(u: UserInput, w: UserInput)
    ensures PatchOne(u, PatchTo(w)[0]) == Ok(u.(active := w.active))
  {
    PathReads(AtActive);
  }

  lemma UserNameOperation(u: UserInput, w: UserInput)
    requires Trimmed(w.userName)
    ensures PatchOne(u, PatchTo(w)[1]) == Ok(u.(userName := w.userName))
  {
    PathReads(AtUserName);
    StripNothing(w.userName);
  }

  lemma EmailsOperation(u: UserInput, w: UserInput)
    requires ProperEmails(w.emails)
    ensures PatchOne(u, PatchTo(w)[6]) == Ok(u.(emails := w.emails))
  {
    PathReads(AtEmails);
    EmailsOfSame(w.emails);
  }

  lemma {:induction false} PatchStep(u: UserInput, operations: seq<PatchOperation>, n: nat, next: UserInput)
    requires n < |operations| && PatchOne(u, operations[n]) == Ok(next)
    ensures Patched(u, operations[n..]) == Patched(next, operations[n + 1..])
  {
    assert operations[n..][1..] == operations[n + 1..];
  }

  /** PATCH can do whatever PUT can: writing every attribute turns any user into any other. */
  lemma {:induction false} PatchReachesEverything(u: UserInput, w: UserInput)
    requires w.WellFormed()
    ensures Patched(u, PatchTo(w)) == Ok(w)
  {
    var p := PatchTo(w);
    assert p[0..] == p && p[7..] == [];
    ActiveOperation(u, w);
    var u1 := u.(active := w.active);
    PatchStep(u, p, 0, u1);
    UserNameOperation(u1, w);
    var u2 := u1.(userName := w.userName);
    PatchStep(u1, p, 1, u2);
    OptionalPatchSame(u2, AtDisplayName, w.displayName);
    var u3 := u2.(displayName := w.displayName);
    PatchStep(u2, p, 2, u3);
    OptionalPatchSame(u3, AtExternalId, w.externalId);
    var u4 := u3.(externalId := w.externalId);
    PatchStep(u3, p, 3, u4);
    PatchEndTo(u4, w);
  }

  lemma {:induction false} PatchEndTo(u: UserInput, w: UserInput)
    requires w.WellFormed() && u.active == w.active && u.userName == w.userName
    requires u.displayName == w.displayName && u.externalId == w.externalId
    ensures Patched(u, PatchTo(w)[4..]) == Ok(w)
  {
    var p := PatchTo(w);
    assert p[7..] == [];
    OptionalPatchSame(u, AtGivenName, w.givenName);
    var u5 := u.(givenName := w.givenName);
    PatchStep(u, p, 4, u5);
    OptionalPatchSame(u5, AtFamilyName, w.familyName);
    var u6 := u5.(familyName := w.familyName);
    PatchStep(u5, p, 5, u6);
    EmailsOperation(u6, w);
    PatchStep(u6, p, 6, w);
  }

  // ---------------------------------------------------------------- stored resources

  type ResourceId = nat

  datatype Resource = Resource(
    id: ResourceId,
    version: nat,
    source: string,
    identity: IdentityId,
    tenant: TenantId,
    membership: MembershipId,
    userName: string,
    externalId: Option<string>,
    active: bool,
    live: bool)
  {
    function Etag(): string {
      "W/\"" + NatText(id) + "-" + NatText(version) + "\""
    }
  }

  predicate HasName(r: Resource, source: string, name: string) {
    r.live && r.source == source && Fold(r.userName) == Fold(Strip(name))
  }

  predicate HasExternal(r: Resource, source: string, external: string) {
    r.live && r.source == source && r.externalId == Some(Strip(external))
  }

  function ById(items: seq<Resource>, id: ResourceId): Option<Resource> {
    if items == [] then None else if items[0].id == id then Some(items[0]) else ById(items[1..], id)
  }

  function FirstByName(items: seq<Resource>, source: string, name: string): Option<Resource> {
    if items == [] then None else if HasName(items[0], source, name) then Some(items[0])
      else FirstByName(items[1..], source, name)
  }

  function FirstByExternal(items: seq<Resource>, source: string, external: string): Option<Resource> {
    if items == [] then None
    else if HasExternal(items[0], source, external) then Some(items[0])
    else FirstByExternal(items[1..], source, external)
  }

  function PutResource(items: seq<Resource>, r: Resource): seq<Resource> {
    if items == [] then [r] else if items[0].id == r.id then [r] + items[1..]
      else [items[0]] + PutResource(items[1..], r)
  }

  /** Insertion order, as a dictionary keeps it; a saved resource stays where it was. */
  class InMemoryProvisioningUserRepository {
    var items: seq<Resource>

    constructor ()
      ensures items == []
    {
      items := [];
    }

    method Get(id: ResourceId) returns (found: Option<Resource>)
      ensures found == ById(items, id)
    {
      for n := 0 to |items|
        invariant ById(items, id) == ById(items[n..], id)
      {
        assert items[n..][1..] == items[n + 1..];
        if items[n].id == id { return Some(items[n]); }
      }
      found := None;
    }

    method FindByUserName(source: string, name: string) returns (found: Option<Resource>)
      ensures found == FirstByName(items, source, name)
    {
      for n := 0 to |items|
        invariant FirstByName(items, source, name) == FirstByName(items[n..], source, name)
      {
        assert items[n..][1..] == items[n + 1..];
        if items[n].live && items[n].source == source && Fold(items[n].userName) == Fold(Strip(name)) {
          return Some(items[n]);
        }
      }
      found := None;
    }

    method FindByExternalId(source: string, external: string) returns (found: Option<Resource>)
      ensures found == FirstByExternal(items, source, external)
    {
      for n := 0 to |items|
        invariant FirstByExternal(items, source, external) == FirstByExternal(items[n..], source, external)
      {
        assert items[n..][1..] == items[n + 1..];
        if items[n].live && items[n].source == source && items[n].externalId == Some(Strip(external)) {
          return Some(items[n]);
        }
      }
      found := None;
    }

    method Save(r: Resource)
      modifies this
      ensures items == PutResource(old(items), r)
    {
      items := PutResource(items, r);
    }
  }

  /** A resource's tag is weak, and writes its identifier and its version. */
  lemma EtagReads(r: Resource)
    ensures exists id, version ::
      AllDigits(id) && Value(id) == r.id && AllDigits(version) && Value(version) == r.version
      && r.Etag() == "W/\"" + id + "-" + version + "\""
  {
    NatTextReads(r.id);
    NatTextReads(r.version);
    var id, version := NatText(r.id), NatText(r.version);
    assert AllDigits(id) && AllDigits(version);
  }

  /** Two versions of a resource never carry the same tag. */
  lemma EtagTellsVersions(a: Resource, b: Resource)
    requires a.id == b.id && a.Etag() == b.Etag()
    ensures a.version == b.version
  {
    var front := "W/\"" + NatText(a.id) + "-";
    assert a.Etag() == front + NatText(a.version) + "\"" && b.Etag() == front + NatText(b.version) + "\"";
    assert a.Etag()[|front|..|a.Etag()| - 1] == NatText(a.version);
    assert b.Etag()[|front|..|b.Etag()| - 1] == NatText(b.version);
    NatTextInjective(a.version, b.version);
  }
}
