/** The DID registry: minting a DID with its document and key pair, resolving it, and handing out
    keys. The generated key pair and the fresh identifier are parameters. */
module Did {
  import opened Common
  import opened Crypto
  import opened DidDocuments
  import opened Kv

  /** What `createDID` returns to its caller. */
  datatype CreatedDid = CreatedDid(did: string, didDocument: DidDocument, privateKey: Jwk)

  /** `resolveDID`: the document stored under `did:<did>`. */
  function ResolveDid(kv: KvStore, did: string): (r: Option<DidDocument>)
    reads kv
    ensures r.Some? <==> did in kv.didDocuments
    ensures r.Some? ==> r.value == kv.didDocuments[did]
  {
    if did in kv.didDocuments then Some(kv.didDocuments[did]) else None
  }

  /** `getPrivateKey`: the key is released only to the identity that owns the DID. An unknown DID
      and a wrong owner give the same answer, so a caller cannot tell them apart. */
  function GetPrivateKey(kv: KvStore, did: string, userId: string): (r: Option<Jwk>)
    reads kv
    ensures r.Some? <==> did in kv.didKeys && kv.didKeys[did].userId == userId
    ensures r.Some? ==> r.value == kv.didKeys[did].privateKey
  {
    if did !in kv.didKeys || kv.didKeys[did].userId != userId then None
    else Some(kv.didKeys[did].privateKey)
  }

  /** `getPublicKey`: the key of the first verification method of the resolved document; nothing
      when the DID is unknown or its document lists no method. */
  function GetPublicKey(kv: KvStore, did: string): (r: Option<Jwk>)
    reads kv
    ensures r.Some? <==> did in kv.didDocuments && |kv.didDocuments[did].verificationMethod| > 0
    ensures r.Some? ==> r.value == kv.didDocuments[did].verificationMethod[0].publicKeyJwk
  {
    match ResolveDid(kv, did)
    case None => None
    case Some(doc) => PublicKeyOf(doc)
  }

  /** `createDID`: mints `did:web:ssi-platform.example:users:<didId>`, publishes its document and
      stores the private key with its owner; exactly these two records are written. Right after,
      the DID resolves to the document, its public key is the generated one, and its private key
      is released to `userId` and to nobody else. */
  method CreateDid(kv: KvStore, userId: string, keyPair: KeyPair, didId: string) returns (r: CreatedDid)
    modifies kv
    ensures r.did == DidFor(didId)
    ensures r.didDocument == NewDocument(r.did, keyPair.publicKey)
    ensures r.privateKey == keyPair.privateKey
    ensures kv.didDocuments == old(kv.didDocuments)[r.did := r.didDocument]
    ensures kv.didKeys == old(kv.didKeys)[r.did := KeyRecord(keyPair.privateKey, userId)]
    ensures kv.templates == old(kv.templates) && kv.issuerTemplates == old(kv.issuerTemplates)
    ensures kv.credentials == old(kv.credentials) && kv.revocations == old(kv.revocations)
    ensures kv.learnerCredentials == old(kv.learnerCredentials)
    ensures kv.issuerCredentials == old(kv.issuerCredentials)
    ensures ResolveDid(kv, r.did) == Some(r.didDocument)
    ensures GetPublicKey(kv, r.did) == Some(keyPair.publicKey)
    ensures GetPrivateKey(kv, r.did, userId) == Some(keyPair.privateKey)
    ensures forall u :: u != userId ==> GetPrivateKey(kv, r.did, u).None?
  {
    var did := DidFor(didId);
    var didDocument := NewDocument(did, keyPair.publicKey);
    kv.didDocuments := kv.didDocuments[did := didDocument];
    kv.didKeys := kv.didKeys[did := KeyRecord(keyPair.privateKey, userId)];
    r := CreatedDid(did, didDocument, keyPair.privateKey);
  }
}
