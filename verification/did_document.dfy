/** DID Documents as minted by the platform (W3C DID Core 1.0: section 5.2 verification methods,
    5.3.1 authentication, 5.3.2 assertionMethod). */
module DidDocuments {
  import opened Common
  import opened Crypto

  datatype VerificationMethod = VerificationMethod(
    id: string,
    methodType: string,
    controller: string,
    publicKeyJwk: Jwk)

  /** `context` is the `@context` array. */
  datatype DidDocument = DidDocument(
    context: seq<string>,
    id: string,
    controller: string,
    verificationMethod: seq<VerificationMethod>,
    authentication: seq<string>,
    assertionMethod: seq<string>)

  const DidMethodPrefix: string := "did:web:ssi-platform.example:users:"
  const DidContext: string := "https://www.w3.org/ns/did/v1"
  const Ed25519SuiteContext: string := "https://w3id.org/security/suites/ed25519-2020/v1"
  const KeyType: string := "Ed25519VerificationKey2020"

  /** The DID minted for a fresh identifier. */
  function DidFor(didId: string): (did: string)
    ensures |did| == |DidMethodPrefix| + |didId|
    ensures did[..|DidMethodPrefix|] == DidMethodPrefix && did[|DidMethodPrefix|..] == didId
  {
    DidMethodPrefix + didId
  }

  /** The id of the document's only key: the DID with the fragment `#key-1`. */
  function KeyId(did: string): (r: string)
    ensures |r| == |did| + 6 && r[..|did|] == did && r[|did|..] == "#key-1"
  {
    did + "#key-1"
  }

  /** A self-controlled document: the subject is its own controller, it lists at least one
      verification method, each method belongs to the subject, and every authentication and
      assertion reference names one of the listed methods. */
  ghost predicate WellFormed(doc: DidDocument)
  {
    && doc.controller == doc.id
    && |doc.verificationMethod| > 0
    && (forall i :: 0 <= i < |doc.verificationMethod| ==> doc.verificationMethod[i].controller == doc.id)
    && (forall r :: r in doc.authentication ==> exists i :: 0 <= i < |doc.verificationMethod| && doc.verificationMethod[i].id == r)
    && (forall r :: r in doc.assertionMethod ==> exists i :: 0 <= i < |doc.verificationMethod| && doc.verificationMethod[i].id == r)
  }

  /** The document `createDID` publishes for `did` and a freshly generated public key. */
  function NewDocument(did: string, publicKey: Jwk): (doc: DidDocument)
    ensures WellFormed(doc)
    ensures doc.id == did
    ensures |doc.verificationMethod| == 1
    ensures doc.verificationMethod[0].id == KeyId(did) && doc.verificationMethod[0].publicKeyJwk == publicKey
    ensures doc.authentication == doc.assertionMethod == [KeyId(did)]
  {
    var doc := DidDocument(
      [DidContext, Ed25519SuiteContext],
      did,
      did,
      [VerificationMethod(KeyId(did), KeyType, did, publicKey)],
      [KeyId(did)],
      [KeyId(did)]);
    assert doc.verificationMethod[0].id == KeyId(did);
    doc
  }

  /** `verificationMethod[0].publicKeyJwk`, or nothing when the document lists no method. */
  function PublicKeyOf(doc: DidDocument): (r: Option<Jwk>)
    ensures r.Some? <==> |doc.verificationMethod| > 0
    ensures r.Some? ==> r.value == doc.verificationMethod[0].publicKeyJwk
  {
    if |doc.verificationMethod| == 0 then None else Some(doc.verificationMethod[0].publicKeyJwk)
  }
}
