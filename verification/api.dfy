/** The browser-local backend: the same flows as the server (accounts, templates, issuance,
    revocation, verification) kept in one persisted store of arrays. The persisted store is the
    `users`, `templates`, `credentials` and `sessions` fields of the client; `token` is the client's
    own state. Fresh identifiers, the clock and `hash` are parameters. */
module Api {
  import opened Common
  import opened Text
  import opened Vc
  import Credentials

  datatype Role = Learner | Issuer | Verifier

  datatype User = User(
    id: string,
    email: string,
    password: string,
    name: string,
    role: Role,
    did: string,
    createdAt: string)

  /** A locally issued credential; unlike the server's record it also names the learner account. */
  datatype LocalRecord = LocalRecord(
    id: string,
    templateId: string,
    credential: Credential,
    learnerId: string,
    learnerDid: string,
    issuerId: string,
    issuerDid: string,
    issuedAt: string,
    status: Status,
    credentialHash: string)

  datatype Session = Session(accessToken: string, user: User)

  /** What `getLearners` shows of an account: everything but the password, role and creation date. */
  datatype LearnerSummary = LearnerSummary(id: string, email: string, name: string, did: string)

  /** The two values the local backend hashes: the proof seed and a whole credential. */
  datatype Hashed = ProofSeed(credentialId: string, issuer: string) | WholeCredential(credential: Credential)

  /** The errors the local backend throws. */
  datatype ApiError =
    | NotAuthenticated
    | SessionExpired
    | UserNotFound
    | EmailAlreadyExists
    | InvalidCredentials
    | Forbidden(message: string)
    | MissingRequiredFields
    | TemplateNotFound
    | LearnerNotFound
    | CredentialNotFound
  {
    function Message(): string
    {
      match this
      case NotAuthenticated => "Not authenticated"
      case SessionExpired => "Session expired"
      case UserNotFound => "User not found"
      case EmailAlreadyExists => "Email already exists"
      case InvalidCredentials => "Invalid credentials"
      case Forbidden(m) => m
      case MissingRequiredFields => "Missing required fields"
      case TemplateNotFound => "Template not found"
      case LearnerNotFound => "Learner not found"
      case CredentialNotFound => "Credential not found"
    }
  }

  const LocalProofType: string := "LocalSignature2026"
  const LocalFailure: string := "Credential failed local verification"
  const OnlyIssuersCreate: string := "Only issuers can create templates"
  const OnlyIssuersView: string := "Only issuers can view templates"
  const OnlyIssuersIssue: string := "Only issuers can issue credentials"
  const OnlyLearnersView: string := "Only learners can view credentials"
  const OnlyIssuersViewIssued: string := "Only issuers can view issued credentials"
  const OnlyIssuersRevoke: string := "Only issuers can revoke credentials"
  const OnlyIssuersViewLearners: string := "Only issuers can view learners"

  /** The DID a local account receives: `did:local:<id>`. */
  function LocalDid(id: string): (did: string)
    ensures |did| == 10 + |id| && did[..10] == "did:local:" && did[10..] == id
  {
    "did:local:" + id
  }

  /** No two accounts share an email address, compared case-insensitively. */
  ghost predicate UniqueEmails(users: seq<User>)
  {
    forall i, j :: 0 <= i < j < |users| ==> !SameEmail(users[i].email, users[j].email)
  }

  /** The first account registered under `email`, compared case-insensitively. */
  function UserByEmail(users: seq<User>, email: string): (r: Option<User>)
    ensures r.Some? <==> exists i :: 0 <= i < |users| && SameEmail(users[i].email, email)
    ensures r.Some? ==> r.value in users && SameEmail(r.value.email, email)
    ensures r.Some? ==> FirstMatch(users, (u: User) => SameEmail(u.email, email), r.value)
  {
    Find(users, (u: User) => SameEmail(u.email, email))
  }

  /** With unique emails, the account found for an email is the only one registered under it. */
  lemma UserByEmailUnique(users: seq<User>, email: string, u: User)
    requires UniqueEmails(users)
    requires u in users && SameEmail(u.email, email)
    ensures UserByEmail(users, email) == Some(u)
  {
    var r := UserByEmail(users, email);
    var i :| 0 <= i < |users| && users[i] == u;
    var j :| 0 <= j < |users| && users[j] == r.value;
    assert SameEmail(users[i].email, users[j].email);
    assert i == j;
  }

  /** The first template with this id that belongs to `issuerId`. */
  function OwnedTemplate(templates: seq<Template>, templateId: string, issuerId: string): (r: Option<Template>)
    ensures r.Some? <==> exists i :: 0 <= i < |templates| && templates[i].id == templateId && templates[i].issuerId == issuerId
    ensures r.Some? ==> r.value in templates && r.value.id == templateId && r.value.issuerId == issuerId
    ensures r.Some? ==> FirstMatch(templates, (t: Template) => t.id == templateId && t.issuerId == issuerId, r.value)
  {
    Find(templates, (t: Template) => t.id == templateId && t.issuerId == issuerId)
  }

  /** Position of the first record with this id that `issuerId` issued. */
  function IssuedIndex(records: seq<LocalRecord>, recordId: string, issuerId: string): (r: Option<nat>)
    ensures r.Some? ==> r.value < |records| && records[r.value].id == recordId && records[r.value].issuerId == issuerId
    ensures r.Some? ==> forall j :: 0 <= j < r.value ==> !(records[j].id == recordId && records[j].issuerId == issuerId)
    ensures r.None? <==> forall j :: 0 <= j < |records| ==> !(records[j].id == recordId && records[j].issuerId == issuerId)
  {
    FirstIndex(records, (c: LocalRecord) => c.id == recordId && c.issuerId == issuerId)
  }

  /** The first stored record whose credential carries this credential id. */
  function StoredFor(records: seq<LocalRecord>, credentialId: string): (r: Option<LocalRecord>)
    ensures r.Some? <==> exists i :: 0 <= i < |records| && records[i].credential.id == credentialId
    ensures r.Some? ==> r.value in records && r.value.credential.id == credentialId
    ensures r.Some? ==> FirstMatch(records, (c: LocalRecord) => c.credential.id == credentialId, r.value)
  {
    Find(records, (c: LocalRecord) => c.credential.id == credentialId)
  }

  /** The local expiration check. `Date.parse` gives NaN (`None`) for a date it cannot read, and
      both NaN and 0 are falsy, so such a date never expires; any other instant must lie after
      `now`. */
  function LocalNotExpired(expirationDate: Option<string>, parseDate: string -> Option<int>, now: int): (r: bool)
    ensures !Truthy(expirationDate) ==> r
    ensures Truthy(expirationDate) && parseDate(expirationDate.value).None? ==> r
    ensures Truthy(expirationDate) && parseDate(expirationDate.value) == Some(0) ==> r
    ensures Truthy(expirationDate) && parseDate(expirationDate.value).Some? && parseDate(expirationDate.value).value != 0 ==>
              (r <==> parseDate(expirationDate.value).value > now)
  {
    if !Truthy(expirationDate) then true
    else
      match parseDate(expirationDate.value)
      case None => true
      case Some(t) => if t == 0 then true else t > now
  }

  /** The verification method named in a local proof. */
  function LocalKeyId(did: string): (r: string)
    ensures |r| == |did| + 12 && r[..|did|] == did && r[|did|..] == "#local-key-1"
  {
    did + "#local-key-1"
  }

  /** The credential `issueCredential` builds locally: the same data-model fields as on the
      server, and a proof whose value is the hash of the credential id and the issuer's DID. */
  function LocalCredential(
    credentialId: string, templateName: string, issuerDid: string, issuedAt: string,
    learnerDid: string, data: Subject, expirationDate: Option<string>, hash: Hashed -> string): (c: Credential)
    ensures HasIssuedFields(c, credentialId, templateName, issuerDid, issuedAt, learnerDid, data, expirationDate)
    ensures c.proof == Some(Proof(LocalProofType, issuedAt, LocalKeyId(issuerDid), AssertionMethod,
                                  hash(ProofSeed(credentialId, issuerDid))))
  {
    Credential(
      [CredentialsContext, Ed25519Context],
      credentialId,
      [BaseType, RemoveWhitespace(templateName)],
      issuerDid,
      issuedAt,
      if Truthy(expirationDate) then expirationDate else None,
      SubjectFor(learnerDid, data),
      Some(Proof(LocalProofType, issuedAt, LocalKeyId(issuerDid), AssertionMethod,
                 hash(ProofSeed(credentialId, issuerDid)))))
  }

  /** The record `issueCredential` appends when `issuer` issues from `template` to `learner`: an
      active record naming both accounts and their DIDs, holding the locally built credential
      and the hash of that whole credential. */
  function IssuedLocalRecord(
    issuer: User, template: Template, learner: User, templateId: string, data: Subject,
    expirationDate: Option<string>, recordUuid: string, credentialUuid: string, issuedAt: string,
    hash: Hashed -> string): (rec: LocalRecord)
    ensures rec.id == Credentials.CredentialUrn(recordUuid) && rec.templateId == templateId
    ensures rec.learnerId == learner.id && rec.learnerDid == learner.did
    ensures rec.issuerId == issuer.id && rec.issuerDid == issuer.did
    ensures rec.issuedAt == issuedAt && rec.status == Active
    ensures HasIssuedFields(rec.credential, Credentials.CredentialUrn(credentialUuid), template.name, issuer.did,
                            issuedAt, learner.did, data, expirationDate)
    ensures rec.credential.proof ==
              Some(Proof(LocalProofType, issuedAt, LocalKeyId(issuer.did), AssertionMethod,
                         hash(ProofSeed(Credentials.CredentialUrn(credentialUuid), issuer.did))))
    ensures rec.credentialHash == hash(WholeCredential(rec.credential))
  {
    var credential := LocalCredential(
      Credentials.CredentialUrn(credentialUuid), template.name, issuer.did, issuedAt, learner.did, data,
      expirationDate, hash);
    LocalRecord(
      Credentials.CredentialUrn(recordUuid), templateId, credential, learner.id, learner.did,
      issuer.id, issuer.did, issuedAt, Active, hash(WholeCredential(credential)))
  }

  /** The records `issuerId` issued, in store order. */
  function IssuedBy(records: seq<LocalRecord>, issuerId: string): (r: seq<LocalRecord>)
    ensures Selects(r, records, (c: LocalRecord) => c.issuerId == issuerId)
  {
    Filter(records, (c: LocalRecord) => c.issuerId == issuerId)
  }

  /** Appending a record adds it at the end of its issuer's listing, and of no other. */
  lemma IssuedByAppend(records: seq<LocalRecord>, rec: LocalRecord)
    ensures IssuedBy(records + [rec], rec.issuerId) == IssuedBy(records, rec.issuerId) + [rec]
    ensures forall other :: other != rec.issuerId ==> IssuedBy(records + [rec], other) == IssuedBy(records, other)
  {
    FilterAppend(records, rec, (c: LocalRecord) => c.issuerId == rec.issuerId);
    forall other | other != rec.issuerId
      ensures IssuedBy(records + [rec], other) == IssuedBy(records, other)
    {
      FilterAppend(records, rec, (c: LocalRecord) => c.issuerId == other);
    }
  }

  /** The records issued to a learner, in store order, each once (`getCredentials`). */
  function HeldBy(records: seq<LocalRecord>, learnerId: string): (r: seq<LocalRecord>)
    ensures Selects(r, records, (c: LocalRecord) => c.learnerId == learnerId)
  {
    Filter(records, (c: LocalRecord) => c.learnerId == learnerId)
  }

  /** Appending a record adds it at the end of its learner's listing, and of no other. */
  lemma HeldByAppend(records: seq<LocalRecord>, rec: LocalRecord)
    ensures HeldBy(records + [rec], rec.learnerId) == HeldBy(records, rec.learnerId) + [rec]
    ensures forall other :: other != rec.learnerId ==> HeldBy(records + [rec], other) == HeldBy(records, other)
  {
    FilterAppend(records, rec, (c: LocalRecord) => c.learnerId == rec.learnerId);
    forall other | other != rec.learnerId
      ensures HeldBy(records + [rec], other) == HeldBy(records, other)
    {
      FilterAppend(records, rec, (c: LocalRecord) => c.learnerId == other);
    }
  }

  /** The templates an issuer created, in store order, each once (`getTemplates`). */
  function TemplatesBy(templates: seq<Template>, issuerId: string): (r: seq<Template>)
    ensures Selects(r, templates, (t: Template) => t.issuerId == issuerId)
  {
    Filter(templates, (t: Template) => t.issuerId == issuerId)
  }

  /** Each of an issuer's templates appears in its listing as often as in the store, and no other
      template appears at all. */
  lemma TemplatesByCounts(templates: seq<Template>, issuerId: string)
    ensures forall t :: multiset(TemplatesBy(templates, issuerId))[t] == if t.issuerId == issuerId then multiset(templates)[t] else 0
  {
    FilterCounts(templates, (t: Template) => t.issuerId == issuerId);
  }

  /** Appending a template adds it at the end of its issuer's listing, and of no other. */
  lemma TemplatesByAppend(templates: seq<Template>, t: Template)
    ensures TemplatesBy(templates + [t], t.issuerId) == TemplatesBy(templates, t.issuerId) + [t]
    ensures forall other :: other != t.issuerId ==> TemplatesBy(templates + [t], other) == TemplatesBy(templates, other)
  {
    FilterAppend(templates, t, (x: Template) => x.issuerId == t.issuerId);
    forall other | other != t.issuerId
      ensures TemplatesBy(templates + [t], other) == TemplatesBy(templates, other)
    {
      FilterAppend(templates, t, (x: Template) => x.issuerId == other);
    }
  }

  /** The learner accounts, in store order, each once (the `filter` of `getLearners`). */
  function Learners(users: seq<User>): (r: seq<User>)
    ensures Selects(r, users, (u: User) => u.role == Learner)
    ensures forall u :: multiset(r)[u] == if u.role == Learner then multiset(users)[u] else 0
  {
    FilterCounts(users, (u: User) => u.role == Learner);
    Filter(users, (u: User) => u.role == Learner)
  }

  /** Each record of an issuer's or a learner's listing appears there as often as in the store,
      and no other record appears at all. */
  lemma RecordListingCounts(records: seq<LocalRecord>, id: string)
    ensures forall c :: multiset(IssuedBy(records, id))[c] == if c.issuerId == id then multiset(records)[c] else 0
    ensures forall c :: multiset(HeldBy(records, id))[c] == if c.learnerId == id then multiset(records)[c] else 0
  {
    FilterCounts(records, (c: LocalRecord) => c.issuerId == id);
    FilterCounts(records, (c: LocalRecord) => c.learnerId == id);
  }

  /** A new account at the end of the store is at the end of the learners when it is one: the
      learners keep store order. */
  lemma LearnersAppend(users: seq<User>, u: User)
    ensures Learners(users + [u]) == Learners(users) + (if u.role == Learner then [u] else [])
  {
    FilterAppend(users, u, (x: User) => x.role == Learner);
  }

  class ApiClient {
    var token: Option<string>
    var users: seq<User>
    var templates: seq<Template>
    var credentials: seq<LocalRecord>
    var sessions: map<string, string>

    /** The store invariant the operations keep: emails are unique, and every session belongs to
        a registered account. */
    ghost predicate Valid()
      reads this
    {
      && UniqueEmails(users)
      && (forall t :: t in sessions ==> exists i :: 0 <= i < |users| && users[i].id == sessions[t])
    }

    /** A client over the persisted store, signed out. The empty store, which is what loading
        gives when nothing is stored yet, satisfies the store invariant. */
    constructor (users: seq<User>, templates: seq<Template>, credentials: seq<LocalRecord>, sessions: map<string, string>)
      ensures this.token.None?
      ensures this.users == users && this.templates == templates
      ensures this.credentials == credentials && this.sessions == sessions
      ensures users == [] && sessions == map[] ==> Valid()
    {
      this.token := None;
      this.users, this.templates, this.credentials, this.sessions := users, templates, credentials, sessions;
    }

    /** `setToken` */
    method SetToken(t: Option<string>)
      modifies this
      ensures token == t
      ensures users == old(users) && templates == old(templates)
      ensures credentials == old(credentials) && sessions == old(sessions)
    {
      token := t;
    }

    predicate SignedIn()
      reads this
    {
      Truthy(token)
    }

    /** `requireUser`: a missing or empty token is not authenticated; a token without a session
        (or with an empty account id) has expired; otherwise the session's account, which must
        still exist. */
    function CurrentUser(): (r: Result<User, ApiError>)
      reads this
      ensures !SignedIn() ==> r == Failure(NotAuthenticated)
      ensures SignedIn() && (token.value !in sessions || sessions[token.value] == "") ==> r == Failure(SessionExpired)
      ensures SignedIn() && token.value in sessions && sessions[token.value] != "" ==>
                ((r == Failure(UserNotFound)) <==> forall i :: 0 <= i < |users| ==> users[i].id != sessions[token.value])
      ensures r.Success? ==> SignedIn() && token.value in sessions && r.value in users && r.value.id == sessions[token.value]
      ensures r.Success? ==> var userId := sessions[token.value]; FirstMatch(users, (u: User) => u.id == userId, r.value)
    {
      if !SignedIn() then Failure(NotAuthenticated)
      else if token.value !in sessions || sessions[token.value] == "" then Failure(SessionExpired)
      else
        var userId := sessions[token.value];
        match Find(users, (u: User) => u.id == userId)
        case None => Failure(UserNotFound)
        case Some(u) => Success(u)
    }

    /** `requireUser` followed by the role check every guarded operation makes. */
    function RequireRole(role: Role, message: string): (r: Result<User, ApiError>)
      reads this
      ensures CurrentUser().Failure? ==> r == CurrentUser()
      ensures CurrentUser().Success? && CurrentUser().value.role != role ==> r == Failure(Forbidden(message))
      ensures r.Success? <==> CurrentUser().Success? && CurrentUser().value.role == role
      ensures r.Success? ==> r == CurrentUser()
    {
      match CurrentUser()
      case Failure(e) => Failure(e)
      case Success(u) => if u.role != role then Failure(Forbidden(message)) else Success(u)
    }

    /** `signup`: refuses an email already registered (in any letter case); otherwise appends the
        account, whose DID is `did:local:<id>`. The store invariant is kept. */
    method Signup(email: string, password: string, name: string, role: Role, id: string, createdAt: string)
      returns (r: Result<User, ApiError>)
      modifies this
      ensures r.Failure? <==> exists i :: 0 <= i < |old(users)| && SameEmail(old(users)[i].email, email)
      ensures r.Failure? ==> r == Failure(EmailAlreadyExists) && users == old(users)
      ensures r.Success? ==> r.value == User(id, email, password, name, role, LocalDid(id), createdAt)
      ensures r.Success? ==> users == old(users) + [r.value]
      ensures r.Success? ==> UserByEmail(users, email) == Some(r.value)
      ensures token == old(token) && templates == old(templates)
      ensures credentials == old(credentials) && sessions == old(sessions)
      ensures old(Valid()) ==> Valid()
    {
      if UserByEmail(users, email).Some? {
        return Failure(EmailAlreadyExists);
      }
      var user := User(id, email, password, name, role, LocalDid(id), createdAt);
      ghost var before := users;
      users := users + [user];
      assert forall i :: 0 <= i < |before| ==> users[i] == before[i];
      r := Success(user);
      assert SameEmail(user.email, email);
      assert users[|before|] == user;
    }

    /** `signin`: the first account with this email (any letter case) and exactly this password
        gets a new session `token-<uuid>`. With unique emails, that is the one account
        registered under the email. */
    method Signin(email: string, password: string, tokenId: string) returns (r: Result<Session, ApiError>)
      modifies this
      ensures r.Success? <==>
                exists i :: 0 <= i < |old(users)| && SameEmail(old(users)[i].email, email) && old(users)[i].password == password
      ensures r.Failure? ==> r == Failure(InvalidCredentials) && sessions == old(sessions)
      ensures r.Success? ==> r.value.accessToken == "token-" + tokenId
      ensures r.Success? ==> r.value.user in users && SameEmail(r.value.user.email, email) && r.value.user.password == password
      ensures r.Success? ==> sessions == old(sessions)[r.value.accessToken := r.value.user.id]
      ensures r.Success? && old(Valid()) ==> UserByEmail(users, email) == Some(r.value.user)
      ensures token == old(token) && users == old(users)
      ensures templates == old(templates) && credentials == old(credentials)
      ensures old(Valid()) ==> Valid()
    {
      match Find(users, (u: User) => SameEmail(u.email, email) && u.password == password)
      case None =>
        r := Failure(InvalidCredentials);
      case Some(user) =>
        var accessToken := "token-" + tokenId;
        if Valid() {
          UserByEmailUnique(users, email, user);
        }
        ghost var i :| 0 <= i < |users| && users[i] == user;
        sessions := sessions[accessToken := user.id];
        r := Success(Session(accessToken, user));
    }

    /** The sign-in flow of the login form: `signin`, then `setToken` with the returned access
        token. Afterwards the client is authenticated as an account with the signed-in id, unless
        that id is empty: an empty account id is falsy, so the new session reads as expired. */
    method SignInAndUse(email: string, password: string, tokenId: string) returns (r: Result<Session, ApiError>)
      modifies this
      ensures r.Success? <==>
                exists i :: 0 <= i < |old(users)| && SameEmail(old(users)[i].email, email) && old(users)[i].password == password
      ensures r.Failure? ==> r == Failure(InvalidCredentials) && token == old(token) && sessions == old(sessions)
      ensures r.Success? ==> token == Some(r.value.accessToken) && SignedIn()
      ensures r.Success? && r.value.user.id != "" ==>
                CurrentUser().Success? && CurrentUser().value.id == r.value.user.id
      ensures r.Success? && r.value.user.id == "" ==> CurrentUser() == Failure(SessionExpired)
      ensures users == old(users) && templates == old(templates) && credentials == old(credentials)
      ensures old(Valid()) ==> Valid()
    {
      r := Signin(email, password, tokenId);
      if r.Success? {
        SetToken(Some(r.value.accessToken));
        assert token.value in sessions && sessions[token.value] == r.value.user.id;
        ghost var i :| 0 <= i < |users| && users[i] == r.value.user;
        assert users[i].id == sessions[token.value];
      }
    }

    /** `signout`: drops the current session from the store and forgets the token; without a
        token nothing changes. */
    method Signout()
      modifies this
      ensures !old(SignedIn()) ==> token == old(token) && sessions == old(sessions)
      ensures old(SignedIn()) ==> token.None? && sessions == old(sessions) - {old(token).value}
      ensures users == old(users) && templates == old(templates) && credentials == old(credentials)
      ensures old(Valid()) ==> Valid()
    {
      if SignedIn() {
        sessions := sessions - {token.value};
        token := None;
      }
    }

    /** `createTemplate`: only an issuer may create one, and name, description and field map must
        be present; the template is appended with the issuer's id and DID. */
    method CreateTemplate(
      name: string, description: string, subjectSchema: Option<map<string, FieldSpec>>,
      templateId: string, createdAt: string)
      returns (r: Result<Template, ApiError>)
      modifies this
      ensures old(RequireRole(Issuer, OnlyIssuersCreate)).Failure? ==>
                r == Failure(old(RequireRole(Issuer, OnlyIssuersCreate)).error)
      ensures old(RequireRole(Issuer, OnlyIssuersCreate)).Success? && (name == "" || description == "" || subjectSchema.None?) ==>
                r == Failure(MissingRequiredFields)
      ensures r.Success? <==>
                old(RequireRole(Issuer, OnlyIssuersCreate)).Success? && name != "" && description != "" && subjectSchema.Some?
      ensures r.Failure? ==> templates == old(templates)
      ensures r.Success? ==>
                var u := old(CurrentUser()).value;
                && r.value == Template(templateId, name, description, u.id, u.did, subjectSchema.value, createdAt)
                && templates == old(templates) + [r.value]
      ensures r.Success? ==> TemplatesBy(templates, r.value.issuerId) == TemplatesBy(old(templates), r.value.issuerId) + [r.value]
      ensures r.Success? ==> forall other :: other != r.value.issuerId ==> TemplatesBy(templates, other) == TemplatesBy(old(templates), other)
      ensures token == old(token) && users == old(users)
      ensures credentials == old(credentials) && sessions == old(sessions)
    {
      var gate := RequireRole(Issuer, OnlyIssuersCreate);
      if gate.Failure? {
        return Failure(gate.error);
      }
      if name == "" || description == "" || subjectSchema.None? {
        return Failure(MissingRequiredFields);
      }
      var u := gate.value;
      var template := Template(templateId, name, description, u.id, u.did, subjectSchema.value, createdAt);
      TemplatesByAppend(templates, template);
      templates := templates + [template];
      r := Success(template);
    }

    /** `getTemplates`: an issuer sees exactly the templates it created. */
    function GetTemplates(): (r: Result<seq<Template>, ApiError>)
      reads this
      ensures r.Failure? <==> RequireRole(Issuer, OnlyIssuersView).Failure?
      ensures r.Failure? ==> r.error == RequireRole(Issuer, OnlyIssuersView).error
      ensures r.Success? ==>
                var u := CurrentUser().value;
                Selects(r.value, templates, (t: Template) => t.issuerId == u.id)
      ensures r.Success? ==> r.value == TemplatesBy(templates, CurrentUser().value.id)
    {
      match RequireRole(Issuer, OnlyIssuersView)
      case Failure(e) => Failure(e)
      case Success(u) => Success(TemplatesBy(templates, u.id))
    }

    /** `issueCredential`: an issuer issues from one of its own templates to a registered learner
        (found by email in any letter case). The record is appended, active, with the credential's
        data-model fields, a proof over the credential id and the issuer's DID, and the hash of the
        whole credential. Afterwards the issuer's listing is the old one plus this record. */
    method IssueCredential(
      templateId: string, learnerEmail: string, data: Subject, expirationDate: Option<string>,
      recordUuid: string, credentialUuid: string, issuedAt: string, hash: Hashed -> string)
      returns (r: Result<LocalRecord, ApiError>)
      modifies this
      ensures old(RequireRole(Issuer, OnlyIssuersIssue)).Failure? ==>
                r == Failure(old(RequireRole(Issuer, OnlyIssuersIssue)).error)
      ensures old(RequireRole(Issuer, OnlyIssuersIssue)).Success? &&
              OwnedTemplate(templates, templateId, old(CurrentUser()).value.id).None? ==>
                r == Failure(TemplateNotFound)
      ensures old(RequireRole(Issuer, OnlyIssuersIssue)).Success? &&
              OwnedTemplate(templates, templateId, old(CurrentUser()).value.id).Some? &&
              (UserByEmail(users, learnerEmail).None? || UserByEmail(users, learnerEmail).value.role != Learner) ==>
                r == Failure(LearnerNotFound)
      ensures r.Success? <==>
                && old(RequireRole(Issuer, OnlyIssuersIssue)).Success?
                && OwnedTemplate(templates, templateId, old(CurrentUser()).value.id).Some?
                && UserByEmail(users, learnerEmail).Some?
                && UserByEmail(users, learnerEmail).value.role == Learner
      ensures r.Failure? ==> credentials == old(credentials)
      ensures r.Success? ==>
                var u := old(CurrentUser()).value;
                var t := OwnedTemplate(templates, templateId, u.id).value;
                var learner := UserByEmail(users, learnerEmail).value;
                && r.value == IssuedLocalRecord(u, t, learner, templateId, data, expirationDate,
                                                recordUuid, credentialUuid, issuedAt, hash)
                && credentials == old(credentials) + [r.value]
      ensures r.Success? ==> IssuedBy(credentials, r.value.issuerId) == IssuedBy(old(credentials), r.value.issuerId) + [r.value]
      ensures r.Success? ==> forall other :: other != r.value.issuerId ==> IssuedBy(credentials, other) == IssuedBy(old(credentials), other)
      ensures r.Success? ==> HeldBy(credentials, r.value.learnerId) == HeldBy(old(credentials), r.value.learnerId) + [r.value]
      ensures r.Success? ==> forall other :: other != r.value.learnerId ==> HeldBy(credentials, other) == HeldBy(old(credentials), other)
      ensures token == old(token) && users == old(users)
      ensures templates == old(templates) && sessions == old(sessions)
    {
      var gate := RequireRole(Issuer, OnlyIssuersIssue);
      if gate.Failure? {
        return Failure(gate.error);
      }
      var u := gate.value;
      var template := OwnedTemplate(templates, templateId, u.id);
      if template.None? {
        return Failure(TemplateNotFound);
      }
      var learner := UserByEmail(users, learnerEmail);
      if learner.None? || learner.value.role != Learner {
        return Failure(LearnerNotFound);
      }
      var record := IssuedLocalRecord(
        u, template.value, learner.value, templateId, data, expirationDate, recordUuid, credentialUuid, issuedAt, hash);
      IssuedByAppend(credentials, record);
      HeldByAppend(credentials, record);
      credentials := credentials + [record];
      r := Success(record);
    }

    /** `getCredentials`: a learner sees exactly the records issued to its account. */
    function GetCredentials(): (r: Result<seq<LocalRecord>, ApiError>)
      reads this
      ensures r.Failure? <==> RequireRole(Learner, OnlyLearnersView).Failure?
      ensures r.Failure? ==> r.error == RequireRole(Learner, OnlyLearnersView).error
      ensures r.Success? ==>
                var u := CurrentUser().value;
                Selects(r.value, credentials, (c: LocalRecord) => c.learnerId == u.id)
      ensures r.Success? ==> r.value == HeldBy(credentials, CurrentUser().value.id)
    {
      match RequireRole(Learner, OnlyLearnersView)
      case Failure(e) => Failure(e)
      case Success(u) => Success(HeldBy(credentials, u.id))
    }

    /** `getIssuedCredentials`: an issuer sees exactly the records it issued. */
    function GetIssuedCredentials(): (r: Result<seq<LocalRecord>, ApiError>)
      reads this
      ensures r.Failure? <==> RequireRole(Issuer, OnlyIssuersViewIssued).Failure?
      ensures r.Failure? ==> r.error == RequireRole(Issuer, OnlyIssuersViewIssued).error
      ensures r.Success? ==> r.value == IssuedBy(credentials, CurrentUser().value.id)
    {
      match RequireRole(Issuer, OnlyIssuersViewIssued)
      case Failure(e) => Failure(e)
      case Success(u) => Success(IssuedBy(credentials, u.id))
    }

    /** `revokeCredential`: an issuer marks the first of its own records with this record id as
        revoked; nothing else in the store changes. */
    method RevokeCredential(recordId: string) returns (r: Result<(), ApiError>)
      modifies this
      ensures old(RequireRole(Issuer, OnlyIssuersRevoke)).Failure? ==>
                r == Failure(old(RequireRole(Issuer, OnlyIssuersRevoke)).error)
      ensures old(RequireRole(Issuer, OnlyIssuersRevoke)).Success? &&
              IssuedIndex(old(credentials), recordId, old(CurrentUser()).value.id).None? ==>
                r == Failure(CredentialNotFound)
      ensures r.Success? <==>
                old(RequireRole(Issuer, OnlyIssuersRevoke)).Success? &&
                IssuedIndex(old(credentials), recordId, old(CurrentUser()).value.id).Some?
      ensures r.Failure? ==> credentials == old(credentials)
      ensures r.Success? ==>
                var i := IssuedIndex(old(credentials), recordId, old(CurrentUser()).value.id).value;
                && |credentials| == |old(credentials)|
                && credentials[i] == old(credentials)[i].(status := Revoked)
                && forall j :: 0 <= j < |credentials| && j != i ==> credentials[j] == old(credentials)[j]
      ensures token == old(token) && users == old(users)
      ensures templates == old(templates) && sessions == old(sessions)
    {
      var gate := RequireRole(Issuer, OnlyIssuersRevoke);
      if gate.Failure? {
        return Failure(gate.error);
      }
      var index := IssuedIndex(credentials, recordId, gate.value.id);
      if index.None? {
        return Failure(CredentialNotFound);
      }
      var i := index.value;
      credentials := credentials[i := credentials[i].(status := Revoked)];
      r := Success(());
    }

    /** `verifyCredential`, local flavour: the signature and issuer checks only ask whether some
        stored record carries the credential's id (and, for the issuer, its DID); a credential
        the store does not know fails the signature, issuer and revocation checks. `valid` is the
        conjunction of the four checks and the error text is present exactly when it is false. */
    function VerifyCredential(c: Credential, parseDate: string -> Option<int>, now: int): (v: Credentials.Verdict)
      reads this
      ensures v.checks.signatureValid <==> exists i :: 0 <= i < |credentials| && credentials[i].credential.id == c.id
      ensures StoredFor(credentials, c.id).None? ==> !v.checks.issuerValid && !v.checks.notRevoked && !v.valid
      ensures StoredFor(credentials, c.id).Some? ==>
                var rec := StoredFor(credentials, c.id).value;
                (v.checks.issuerValid <==> rec.issuerDid == c.issuer) && (v.checks.notRevoked <==> rec.status == Active)
      ensures v.checks.notExpired == LocalNotExpired(c.expirationDate, parseDate, now)
      ensures v.valid <==> v.checks.signatureValid && v.checks.issuerValid && v.checks.notRevoked && v.checks.notExpired
      ensures v.error == if v.valid then None else Some(LocalFailure)
    {
      var existing := StoredFor(credentials, c.id);
      var checks := Credentials.Checks(
        existing.Some?,
        existing.Some? && existing.value.issuerDid == c.issuer,
        existing.Some? && existing.value.status != Revoked,
        LocalNotExpired(c.expirationDate, parseDate, now));
      var valid := checks.signatureValid && checks.issuerValid && checks.notRevoked && checks.notExpired;
      Credentials.Verdict(valid, checks, if valid then None else Some(LocalFailure))
    }

    /** `getLearners`: an issuer sees a summary of every learner account and of nothing else. */
    function GetLearners(): (r: Result<seq<LearnerSummary>, ApiError>)
      reads this
      ensures r.Failure? <==> RequireRole(Issuer, OnlyIssuersViewLearners).Failure?
      ensures r.Failure? ==> r.error == RequireRole(Issuer, OnlyIssuersViewLearners).error
      ensures r.Success? ==> SummarisesLearners(r.value, users)
      ensures r.Success? ==> |r.value| == |Learners(users)|
      ensures r.Success? ==> forall i :: 0 <= i < |r.value| ==> r.value[i] == Summary(Learners(users)[i])
    {
      match RequireRole(Issuer, OnlyIssuersViewLearners)
      case Failure(e) => Failure(e)
      case Success(_) =>
        var learners := Learners(users);
        var summaries := seq(|learners|, i requires 0 <= i < |learners| => Summary(learners[i]));
        SummariesOfLearners(users, learners, summaries);
        Success(summaries)
    }
  }

  /** The public view of an account: its id, e-mail, name and DID, and by its type no password. */
  function Summary(u: User): (r: LearnerSummary)
    ensures r.id == u.id && r.email == u.email && r.name == u.name && r.did == u.did
  {
    LearnerSummary(u.id, u.email, u.name, u.did)
  }

  /** Every summary is that of a learner account, and every learner account is summarised. */
  ghost predicate SummarisesLearners(summaries: seq<LearnerSummary>, users: seq<User>)
  {
    && (forall i :: 0 <= i < |summaries| ==> exists u :: u in users && u.role == Learner && summaries[i] == Summary(u))
    && (forall u :: u in users && u.role == Learner ==> Summary(u) in summaries)
  }

  /** Summarising the learners picked out of `users` summarises every learner and nobody else. */
  lemma SummariesOfLearners(users: seq<User>, learners: seq<User>, summaries: seq<LearnerSummary>)
    requires Selects(learners, users, (u: User) => u.role == Learner)
    requires |summaries| == |learners|
    requires forall i :: 0 <= i < |learners| ==> summaries[i] == Summary(learners[i])
    ensures SummarisesLearners(summaries, users)
  {
    forall i | 0 <= i < |summaries|
      ensures exists u :: u in users && u.role == Learner && summaries[i] == Summary(u)
    {
      assert learners[i] in users && learners[i].role == Learner;
    }
    forall u | u in users && u.role == Learner
      ensures Summary(u) in summaries
    {
      var k :| 0 <= k < |users| && users[k] == u;
      var m :| 0 <= m < |learners| && learners[m] == u;
      assert summaries[m] == Summary(u);
    }
  }
}
