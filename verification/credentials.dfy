/** The server's credential lifecycle: templates, issuance with an Ed25519 proof, listings through
    the index lists, revocation written to the record and to the revocation registry, and the
    four-check verification. Crypto, fresh identifiers and the clock are parameters. */
module Credentials {
  import opened Common
  import opened Text
  import opened Crypto
  import opened Vc
  import opened DidDocuments
  import opened Kv
  import opened Did

  /** The errors the server's operations throw. */
  datatype Failure = TemplateNotFound | IssuerKeyNotFound | CredentialNotFound | Unauthorized
  {
    function Message(): string
    {
      match this
      case TemplateNotFound => "Template not found"
      case IssuerKeyNotFound => "Issuer private key not found"
      case CredentialNotFound => "Credential not found"
      case Unauthorized => "Unauthorized: Only the issuer can revoke this credential"
    }
  }

  datatype Checks = Checks(signatureValid: bool, issuerValid: bool, notRevoked: bool, notExpired: bool)

  /** The structured verdict of verification; it is returned, never thrown. */
  datatype Verdict = Verdict(valid: bool, checks: Checks, error: Option<string>)

  const SignatureSuiteType: string := "Ed25519Signature2020"
  const UnresolvedIssuer: string := "Issuer DID could not be resolved"
  const MissingProof: string := "Credential has no proof"

  /** The identifier minted for an issued credential from a fresh UUID. */
  function CredentialUrn(uuid: string): (urn: string)
    ensures |urn| == 9 + |uuid| && urn[..9] == "urn:uuid:" && urn[9..] == uuid
  {
    "urn:uuid:" + uuid
  }

  // ---------------------------------------------------------------------------------------------
  // Listings through index lists

  /** The records an index list refers to, in list order, skipping ids that have no record. */
  function Collect<V>(ids: seq<string>, records: map<string, V>): (r: seq<V>)
    ensures |r| <= |ids|
  {
    if ids == [] then []
    else
      var last := ids[|ids| - 1];
      Collect(ids[..|ids| - 1], records) + (if last in records then [records[last]] else [])
  }

  /** Every listed record is the record of a listed id, and every listed id that has a record
      contributes it. */
  lemma {:induction false} CollectMembers<V>(ids: seq<string>, records: map<string, V>)
    ensures forall v :: v in Collect(ids, records) ==>
              exists i :: 0 <= i < |ids| && ids[i] in records && v == records[ids[i]]
    ensures forall i :: 0 <= i < |ids| && ids[i] in records ==> records[ids[i]] in Collect(ids, records)
  {
    if ids != [] {
      var init, last := ids[..|ids| - 1], ids[|ids| - 1];
      CollectMembers(init, records);
      assert Collect(ids, records) == Collect(init, records) + (if last in records then [records[last]] else []);
      forall i | 0 <= i < |init| ensures init[i] == ids[i] { }
    }
  }

  /** When no listed id is dangling, the listing has one record per id, in the same order. */
  lemma {:induction false} CollectAllPresent<V>(ids: seq<string>, records: map<string, V>)
    requires forall i :: 0 <= i < |ids| ==> ids[i] in records
    ensures |Collect(ids, records)| == |ids|
    ensures forall i :: 0 <= i < |ids| ==> Collect(ids, records)[i] == records[ids[i]]
  {
    if ids != [] {
      var init := ids[..|ids| - 1];
      CollectAllPresent(init, records);
    }
  }

  /** Writing a record under an id that no index entry names does not change the listing. */
  lemma {:induction false} CollectIgnoresUnlisted<V>(ids: seq<string>, records: map<string, V>, id: string, v: V)
    requires id !in ids
    ensures Collect(ids, records[id := v]) == Collect(ids, records)
  {
    if ids != [] {
      CollectIgnoresUnlisted(ids[..|ids| - 1], records, id, v);
    }
  }

  /** Storing a record under a fresh id and pushing that id onto the index appends exactly that
      record to the listing. */
  lemma ListingAfterPush<V>(ids: seq<string>, records: map<string, V>, id: string, v: V)
    requires id !in ids
    ensures Collect(ids + [id], records[id := v]) == Collect(ids, records) + [v]
  {
    assert (ids + [id])[..|ids|] == ids;
    CollectIgnoresUnlisted(ids, records, id, v);
  }

  /** The loop shared by `getIssuerTemplates`, `getLearnerCredentials` and `getIssuerCredentials`:
      fetch each listed id and push the record when one exists. */
  method CollectPresent<V>(ids: seq<string>, records: map<string, V>) returns (r: seq<V>)
    ensures r == Collect(ids, records)
  {
    r := [];
    var i := 0;
    while i < |ids|
      invariant 0 <= i <= |ids|
      invariant r == Collect(ids[..i], records)
    {
      assert ids[..i + 1][..i] == ids[..i];
      if ids[i] in records {
        r := r + [records[ids[i]]];
      }
      i := i + 1;
    }
    assert ids[..|ids|] == ids;
  }

  // ---------------------------------------------------------------------------------------------
  // Templates

  /** `createTemplate`: stores the template and pushes its id onto the issuer's template list.
      With a fresh id, the issuer's listing grows by exactly this template. */
  method CreateTemplate(
    kv: KvStore, name: string, description: string, issuerId: string, issuerDid: string,
    subjectSchema: map<string, FieldSpec>, templateId: string, createdAt: string)
    returns (t: Template)
    modifies kv
    ensures t == Template(templateId, name, description, issuerId, issuerDid, subjectSchema, createdAt)
    ensures kv.templates == old(kv.templates)[templateId := t]
    ensures kv.issuerTemplates == old(kv.issuerTemplates)[issuerId := IndexList(old(kv.issuerTemplates), issuerId) + [templateId]]
    ensures kv.didDocuments == old(kv.didDocuments) && kv.didKeys == old(kv.didKeys)
    ensures kv.credentials == old(kv.credentials) && kv.revocations == old(kv.revocations)
    ensures kv.learnerCredentials == old(kv.learnerCredentials)
    ensures kv.issuerCredentials == old(kv.issuerCredentials)
    ensures templateId !in IndexList(old(kv.issuerTemplates), issuerId) ==>
              Collect(IndexList(kv.issuerTemplates, issuerId), kv.templates)
              == Collect(IndexList(old(kv.issuerTemplates), issuerId), old(kv.templates)) + [t]
  {
    t := Template(templateId, name, description, issuerId, issuerDid, subjectSchema, createdAt);
    kv.templates := kv.templates[templateId := t];
    var issuerTemplates := IndexList(kv.issuerTemplates, issuerId);
    if templateId !in issuerTemplates {
      ListingAfterPush(issuerTemplates, old(kv.templates), templateId, t);
    }
    issuerTemplates := issuerTemplates + [templateId];
    kv.issuerTemplates := kv.issuerTemplates[issuerId := issuerTemplates];
  }

  /** `getIssuerTemplates`: the issuer's templates in list order, skipping missing ones. */
  method GetIssuerTemplates(kv: KvStore, issuerId: string) returns (ts: seq<Template>)
    ensures ts == Collect(IndexList(kv.issuerTemplates, issuerId), kv.templates)
    ensures forall t :: t in ts ==> t in kv.templates.Values
  {
    ts := CollectPresent(IndexList(kv.issuerTemplates, issuerId), kv.templates);
    CollectMembers(IndexList(kv.issuerTemplates, issuerId), kv.templates);
  }

  // ---------------------------------------------------------------------------------------------
  // Issuance

  /** What a successful issuance stores: the credential carries the issued fields and an
      Ed25519Signature2020 proof created at issuance, referencing the issuer's `#key-1`, for the
      assertionMethod purpose, whose value signs the credential without its proof; the record is
      active, shares the credential's id and keeps the digest of the signed credential. */
  ghost predicate IssuedRecord(
    rec: CredentialRecord, suite: Suite<Credential>, privateKey: Jwk, template: Template,
    templateId: string, learnerDid: string, data: Subject, issuerId: string, issuerDid: string,
    expirationDate: Option<string>, credentialUuid: string, issuedAt: string)
  {
    && rec.id == CredentialUrn(credentialUuid)
    && rec.id == rec.credential.id
    && rec.templateId == templateId
    && rec.learnerDid == learnerDid
    && rec.issuerId == issuerId
    && rec.issuerDid == issuerDid
    && rec.issuedAt == issuedAt
    && rec.status == Active
    && HasIssuedFields(rec.credential, rec.id, template.name, issuerDid, issuedAt, learnerDid, data, expirationDate)
    && rec.credential.proof == Some(Proof(
         SignatureSuiteType, issuedAt, KeyId(issuerDid), AssertionMethod,
         suite.sign(Unsigned(rec.credential), privateKey)))
    && rec.credentialHash == suite.digest(rec.credential)
  }

  /** `issueCredential`. It fails, writing nothing, when the template is unknown or the issuer's
      private key is not released to `issuerId`; otherwise it stores the record under its id and
      appends that id at the end of the learner's and the issuer's credential lists. */
  method IssueCredential(
    kv: KvStore, suite: Suite<Credential>, templateId: string, learnerDid: string,
    credentialData: Subject, issuerId: string, issuerDid: string,
    expirationDate: Option<string>, credentialUuid: string, issuedAt: string)
    returns (r: Result<CredentialRecord, Failure>)
    modifies kv
    ensures templateId !in old(kv.templates) ==> r == Failure(TemplateNotFound)
    ensures templateId in old(kv.templates) && old(GetPrivateKey(kv, issuerDid, issuerId)).None? ==>
              r == Failure(IssuerKeyNotFound)
    ensures r.Failure? ==> unchanged(kv)
    ensures r.Success? <==> templateId in old(kv.templates) && old(GetPrivateKey(kv, issuerDid, issuerId)).Some?
    ensures r.Success? ==>
              && templateId in old(kv.templates)
              && old(GetPrivateKey(kv, issuerDid, issuerId)).Some?
              && IssuedRecord(r.value, suite, old(GetPrivateKey(kv, issuerDid, issuerId)).value,
                   old(kv.templates)[templateId], templateId, learnerDid, credentialData,
                   issuerId, issuerDid, expirationDate, credentialUuid, issuedAt)
    ensures r.Success? ==> kv.credentials == old(kv.credentials)[r.value.id := r.value]
    ensures r.Success? ==>
              kv.learnerCredentials == old(kv.learnerCredentials)[
                learnerDid := IndexList(old(kv.learnerCredentials), learnerDid) + [r.value.id]]
    ensures r.Success? ==>
              kv.issuerCredentials == old(kv.issuerCredentials)[
                issuerId := IndexList(old(kv.issuerCredentials), issuerId) + [r.value.id]]
    ensures r.Success? ==>
              && kv.didDocuments == old(kv.didDocuments) && kv.didKeys == old(kv.didKeys)
              && kv.templates == old(kv.templates) && kv.issuerTemplates == old(kv.issuerTemplates)
              && kv.revocations == old(kv.revocations)
  {
    if templateId !in kv.templates {
      return Failure(TemplateNotFound);
    }
    var template := kv.templates[templateId];
    var privateKey := GetPrivateKey(kv, issuerDid, issuerId);
    if privateKey.None? {
      return Failure(IssuerKeyNotFound);
    }

    var credentialId := CredentialUrn(credentialUuid);
    var credential := Credential(
      [CredentialsContext, Ed25519Context],
      credentialId,
      [BaseType, RemoveWhitespace(template.name)],
      issuerDid,
      issuedAt,
      None,
      SubjectFor(learnerDid, credentialData),
      None);
    if Truthy(expirationDate) {
      credential := credential.(expirationDate := expirationDate);
    }

    var proofValue := suite.sign(credential, privateKey.value);
    credential := credential.(proof := Some(Proof(
      SignatureSuiteType, issuedAt, KeyId(issuerDid), AssertionMethod, proofValue)));

    var credentialHash := suite.digest(credential);
    var rec := CredentialRecord(
      credentialId, templateId, credential, learnerDid, issuerId, issuerDid, issuedAt, Active, credentialHash);

    kv.credentials := kv.credentials[credentialId := rec];
    var learnerCredentials := IndexList(kv.learnerCredentials, learnerDid) + [credentialId];
    kv.learnerCredentials := kv.learnerCredentials[learnerDid := learnerCredentials];
    var issuerCredentials := IndexList(kv.issuerCredentials, issuerId) + [credentialId];
    kv.issuerCredentials := kv.issuerCredentials[issuerId := issuerCredentials];
    r := Success(rec);
  }

  /** `getLearnerCredentials`: the learner's records in list order, skipping missing ones. */
  method GetLearnerCredentials(kv: KvStore, learnerDid: string) returns (rs: seq<CredentialRecord>)
    ensures rs == Collect(IndexList(kv.learnerCredentials, learnerDid), kv.credentials)
    ensures forall rec :: rec in rs ==> rec in kv.credentials.Values
  {
    rs := CollectPresent(IndexList(kv.learnerCredentials, learnerDid), kv.credentials);
    CollectMembers(IndexList(kv.learnerCredentials, learnerDid), kv.credentials);
  }

  /** `getIssuerCredentials`: the records the issuer issued, in list order, skipping missing ones. */
  method GetIssuerCredentials(kv: KvStore, issuerId: string) returns (rs: seq<CredentialRecord>)
    ensures rs == Collect(IndexList(kv.issuerCredentials, issuerId), kv.credentials)
    ensures forall rec :: rec in rs ==> rec in kv.credentials.Values
  {
    rs := CollectPresent(IndexList(kv.issuerCredentials, issuerId), kv.credentials);
    CollectMembers(IndexList(kv.issuerCredentials, issuerId), kv.credentials);
  }

  /** `getCredential`: the record stored under the id, if any. */
  function GetCredential(kv: KvStore, credentialId: string): (r: Option<CredentialRecord>)
    reads kv
    ensures r.Some? <==> credentialId in kv.credentials
    ensures r.Some? ==> r.value == kv.credentials[credentialId]
  {
    if credentialId in kv.credentials then Some(kv.credentials[credentialId]) else None
  }

  // ---------------------------------------------------------------------------------------------
  // Verification

  /** The expiration check: no (or an empty) expiration date never expires; a date that does not
      parse compares as false against the clock, so it counts as expired; otherwise the date must
      lie strictly after `now`. */
  function NotExpired(expirationDate: Option<string>, parseDate: string -> Option<int>, now: int): (r: bool)
    ensures !Truthy(expirationDate) ==> r
    ensures Truthy(expirationDate) && parseDate(expirationDate.value).None? ==> !r
    ensures Truthy(expirationDate) && parseDate(expirationDate.value).Some? ==>
              (r <==> parseDate(expirationDate.value).value > now)
  {
    if !Truthy(expirationDate) then true
    else
      match parseDate(expirationDate.value)
      case None => false
      case Some(t) => t > now
  }

  /** The revocation check: a locally stored record decides by its status; otherwise the
      revocation registry decides, and a credential it does not know counts as not revoked. */
  function NotRevoked(kv: KvStore, credentialId: string): (r: bool)
    reads kv
    ensures credentialId in kv.credentials ==> (r <==> kv.credentials[credentialId].status == Active)
    ensures credentialId !in kv.credentials && credentialId !in kv.revocations ==> r
    ensures credentialId !in kv.credentials && credentialId in kv.revocations ==>
              (r <==> !kv.revocations[credentialId].revoked)
  {
    if credentialId in kv.credentials then kv.credentials[credentialId].status == Active
    else !(credentialId in kv.revocations && kv.revocations[credentialId].revoked)
  }

  /** `verifyCredential`: fills the four checks one by one. An unresolvable issuer or a missing
      proof ends verification early with the matching error and the signature check still false;
      otherwise the signature is checked over the credential without its proof. In every outcome
      `valid` is exactly the conjunction of the four reported checks. */
  method VerifyCredential(
    kv: KvStore, suite: Suite<Credential>, parseDate: string -> Option<int>, now: int, c: Credential)
    returns (v: Verdict)
    ensures v.checks.notExpired == NotExpired(c.expirationDate, parseDate, now)
    ensures v.checks.notRevoked == NotRevoked(kv, c.id)
    ensures v.checks.issuerValid <==> GetPublicKey(kv, c.issuer).Some?
    ensures v.valid <==>
              v.checks.signatureValid && v.checks.issuerValid && v.checks.notRevoked && v.checks.notExpired
    ensures GetPublicKey(kv, c.issuer).None? ==>
              !v.valid && !v.checks.signatureValid && v.error == Some(UnresolvedIssuer)
    ensures GetPublicKey(kv, c.issuer).Some? && c.proof.None? ==>
              !v.valid && !v.checks.signatureValid && v.error == Some(MissingProof)
    ensures GetPublicKey(kv, c.issuer).Some? && c.proof.Some? ==>
              && v.error.None?
              && (v.checks.signatureValid <==>
                    suite.verify(Unsigned(c), c.proof.value.proofValue, GetPublicKey(kv, c.issuer).value))
  {
    var checks := Checks(false, false, false, false);

    checks := checks.(notExpired := NotExpired(c.expirationDate, parseDate, now));

    if c.id in kv.credentials {
      checks := checks.(notRevoked := kv.credentials[c.id].status == Active);
    } else {
      var revoked := c.id in kv.revocations && kv.revocations[c.id].revoked;
      checks := checks.(notRevoked := !revoked);
    }

    var issuerPublicKey := GetPublicKey(kv, c.issuer);
    if issuerPublicKey.None? {
      return Verdict(false, checks, Some(UnresolvedIssuer));
    }
    checks := checks.(issuerValid := true);

    if c.proof.None? {
      return Verdict(false, checks, Some(MissingProof));
    }

    var credentialWithoutProof := Unsigned(c);
    checks := checks.(signatureValid :=
      suite.verify(credentialWithoutProof, c.proof.value.proofValue, issuerPublicKey.value));

    var valid := checks.signatureValid && checks.issuerValid && checks.notRevoked && checks.notExpired;
    v := Verdict(valid, checks, None);
  }

  // ---------------------------------------------------------------------------------------------
  // Revocation

  /** `revokeCredential`: only the record's issuer may revoke it. Success sets the record's status
      to revoked, changing nothing else in it, and writes a registry entry; failures write nothing.
      Revoking an already revoked credential leaves the records as they were, and no record goes
      back from revoked to active. */
  method RevokeCredential(kv: KvStore, credentialId: string, issuerId: string, revokedAt: string)
    returns (r: Result<(), Failure>)
    modifies kv
    ensures credentialId !in old(kv.credentials) ==> r == Failure(CredentialNotFound)
    ensures credentialId in old(kv.credentials) && old(kv.credentials)[credentialId].issuerId != issuerId ==>
              r == Failure(Unauthorized)
    ensures r.Failure? ==> unchanged(kv)
    ensures r.Success? <==>
              credentialId in old(kv.credentials) && old(kv.credentials)[credentialId].issuerId == issuerId
    ensures r.Success? ==>
              && credentialId in old(kv.credentials)
              && old(kv.credentials)[credentialId].issuerId == issuerId
              && kv.credentials == old(kv.credentials)[credentialId := old(kv.credentials)[credentialId].(status := Revoked)]
              && kv.revocations == old(kv.revocations)[credentialId := RevocationEntry(true, revokedAt, issuerId)]
              && !NotRevoked(kv, credentialId)
    ensures r.Success? ==>
              && kv.didDocuments == old(kv.didDocuments) && kv.didKeys == old(kv.didKeys)
              && kv.templates == old(kv.templates) && kv.issuerTemplates == old(kv.issuerTemplates)
              && kv.learnerCredentials == old(kv.learnerCredentials)
              && kv.issuerCredentials == old(kv.issuerCredentials)
    ensures r.Success? && old(kv.credentials)[credentialId].status == Revoked ==> kv.credentials == old(kv.credentials)
    ensures forall id :: id in old(kv.credentials) && old(kv.credentials)[id].status == Revoked ==>
              id in kv.credentials && kv.credentials[id].status == Revoked
  {
    if credentialId !in kv.credentials {
      return Failure(CredentialNotFound);
    }
    var credentialRecord := kv.credentials[credentialId];
    if credentialRecord.issuerId != issuerId {
      return Failure(Unauthorized);
    }
    credentialRecord := credentialRecord.(status := Revoked);
    kv.credentials := kv.credentials[credentialId := credentialRecord];
    kv.revocations := kv.revocations[credentialId := RevocationEntry(true, revokedAt, issuerId)];
    r := Success(());
  }

  // ---------------------------------------------------------------------------------------------
  // The lifecycle end to end

  /** An issuer mints a DID, creates a template and issues a credential without expiration to a
      learner. Verifying that exact credential passes all four checks, provided the
      signature suite accepts what the issuer's key signs. After the issuer revokes it, the same
      credential fails only the revocation check. */
  method Lifecycle(
    kv: KvStore, suite: Suite<Credential>, keyPair: KeyPair, issuerId: string, didId: string,
    learnerDid: string, data: Subject, templateId: string, templateName: string,
    credentialUuid: string, issuedAt: string,
    revokedAt: string, parseDate: string -> Option<int>, now: int)
    returns (rec: CredentialRecord, before: Verdict, after: Verdict)
    requires Sound(suite, keyPair)
    modifies kv
    ensures rec.status == Active && rec.credential.types == [BaseType, RemoveWhitespace(templateName)]
    ensures rec.credential.credentialSubject == SubjectFor(learnerDid, data)
    ensures before.valid && before.error.None?
    ensures before.checks == Checks(true, true, true, true)
    ensures !after.valid && after.checks == Checks(true, true, false, true)
  {
    var created := CreateDid(kv, issuerId, keyPair, didId);
    var issuerDid := created.did;
    var template := CreateTemplate(kv, templateName, "", issuerId, issuerDid, map[], templateId, issuedAt);
    assert GetPrivateKey(kv, issuerDid, issuerId) == Some(keyPair.privateKey);
    assert templateId in kv.templates && kv.templates[templateId].name == templateName;

    var issued := IssueCredential(kv, suite, templateId, learnerDid, data, issuerId, issuerDid, None, credentialUuid, issuedAt);
    assert issued.Success?;
    rec := issued.value;
    var c := rec.credential;
    assert c.proof == Some(Proof(SignatureSuiteType, issuedAt, KeyId(issuerDid), AssertionMethod,
                                 suite.sign(Unsigned(c), keyPair.privateKey)));
    assert GetPublicKey(kv, issuerDid) == Some(keyPair.publicKey);
    assert suite.verify(Unsigned(c), suite.sign(Unsigned(c), keyPair.privateKey), keyPair.publicKey);
    assert NotRevoked(kv, c.id);
    before := VerifyCredential(kv, suite, parseDate, now, c);

    var revoked := RevokeCredential(kv, rec.id, issuerId, revokedAt);
    assert revoked.Success?;
    assert GetPublicKey(kv, issuerDid) == Some(keyPair.publicKey);
    after := VerifyCredential(kv, suite, parseDate, now, c);
  }
}
