/** The W3C Verifiable Credentials Data Model 1.1 shapes shared by the server and the local
    backend: credentials with their proof, templates, and the lifecycle status of a record. */
module Vc {
  import opened Common
  import opened Text

  /** A JSON value as produced by `JSON.parse` (numbers restricted to integers). */
  datatype Json =
    | Null
    | Bool(b: bool)
    | Num(n: int)
    | Str(s: string)
    | Arr(items: seq<Json>)
    | Obj(fields: map<string, Json>)

  /** `credentialSubject`: the subject's `id` and its attributes, keyed by name. */
  type Subject = map<string, Json>

  /** Section 4.7 (proofs) of the data model. */
  datatype Proof = Proof(
    proofType: string,
    created: string,
    verificationMethod: string,
    proofPurpose: string,
    proofValue: string)

  /** A verifiable credential; `context` is the `@context` array and `types` the `type` array. */
  datatype Credential = Credential(
    context: seq<string>,
    id: string,
    types: seq<string>,
    issuer: string,
    issuanceDate: string,
    expirationDate: Option<string>,
    credentialSubject: Subject,
    proof: Option<Proof>)

  datatype FieldSpec = FieldSpec(fieldType: string, displayLabel: string, required: bool)

  /** A credential template; `subjectSchema` is the template's `credentialSubject` field map. */
  datatype Template = Template(
    id: string,
    name: string,
    description: string,
    issuerId: string,
    issuerDid: string,
    subjectSchema: map<string, FieldSpec>,
    createdAt: string)

  datatype Status = Active | Revoked

  const CredentialsContext: string := "https://www.w3.org/2018/credentials/v1"
  const Ed25519Context: string := "https://w3id.org/security/suites/ed25519-2020/v1"
  const BaseType: string := "VerifiableCredential"
  const AssertionMethod: string := "assertionMethod"

  /** A JavaScript truthiness test on an optional string: `undefined` and `""` are falsy, every
      other string is truthy. */
  predicate Truthy(s: Option<string>)
    ensures s.None? || s == Some("") ==> !Truthy(s)
    ensures s.Some? && |s.value| > 0 ==> Truthy(s)
  {
    s.Some? && s.value != ""
  }

  /** The credential with its `proof` removed (`{ ...c }` followed by `delete proof`): the value
      that is signed at issuance and verified afterwards. */
  function Unsigned(c: Credential): (r: Credential)
    ensures r.proof.None?
    ensures r.(proof := c.proof) == c
  {
    c.(proof := None)
  }

  /** `{ id: learnerDid, ...data }`: the subject of an issued credential. A key of the data
      overrides the one before it, `id` included. */
  function SubjectFor(learnerDid: string, data: Subject): (r: Subject)
    ensures r.Keys == data.Keys + {"id"}
    ensures forall k :: k in data ==> r[k] == data[k]
    ensures "id" !in data ==> r["id"] == Str(learnerDid)
  {
    map["id" := Str(learnerDid)] + data
  }

  /** The data-model fields of a credential issued from a template named `templateName`
      (sections 4.1 contexts, 4.2 identifier, 4.3 types, 4.4 subject, 4.5 issuer, 4.6 issuance date
      and 4.8 expiration): the second type is the template name with all whitespace removed, and
      an expiration date is present exactly when a non-empty one was supplied. */
  predicate HasIssuedFields(
    c: Credential, credentialId: string, templateName: string, issuerDid: string,
    issuedAt: string, learnerDid: string, data: Subject, expirationDate: Option<string>)
  {
    && c.context == [CredentialsContext, Ed25519Context]
    && c.id == credentialId
    && c.types == [BaseType, RemoveWhitespace(templateName)]
    && c.issuer == issuerDid
    && c.issuanceDate == issuedAt
    && c.credentialSubject == SubjectFor(learnerDid, data)
    && c.expirationDate == (if Truthy(expirationDate) then expirationDate else None)
  }
}
