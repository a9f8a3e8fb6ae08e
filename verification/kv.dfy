/** The server's key-value store, split by key prefix into one map per kind of record. The prefixes
    (`did:`, `didkey:`, `template:`, `issuer:<id>:templates`, `credential:`,
    `learner:<did>:credentials`, `issuer:<id>:credentials`, `revocation:`) never produce the same
    key for two kinds, so each map below is one namespace of the same store. */
module Kv {
  import opened Crypto
  import opened Vc
  import opened DidDocuments

  /** The private half of a DID, stored under `didkey:<did>` with the identity that owns it. */
  datatype KeyRecord = KeyRecord(privateKey: Jwk, userId: string)

  /** The stored form of an issued credential. */
  datatype CredentialRecord = CredentialRecord(
    id: string,
    templateId: string,
    credential: Credential,
    learnerDid: string,
    issuerId: string,
    issuerDid: string,
    issuedAt: string,
    status: Status,
    credentialHash: string)

  /** An entry of the revocation registry, kept apart from the credential record. */
  datatype RevocationEntry = RevocationEntry(revoked: bool, revokedAt: string, revokedBy: string)

  class KvStore {
    var didDocuments: map<string, DidDocument>           // did:<did>
    var didKeys: map<string, KeyRecord>                  // didkey:<did>
    var templates: map<string, Template>                 // template:<id>
    var issuerTemplates: map<string, seq<string>>        // issuer:<issuerId>:templates
    var credentials: map<string, CredentialRecord>       // credential:<id>
    var learnerCredentials: map<string, seq<string>>     // learner:<learnerDid>:credentials
    var issuerCredentials: map<string, seq<string>>      // issuer:<issuerId>:credentials
    var revocations: map<string, RevocationEntry>        // revocation:<id>

    constructor ()
      ensures didDocuments == map[] && didKeys == map[] && templates == map[]
      ensures issuerTemplates == map[] && credentials == map[] && learnerCredentials == map[]
      ensures issuerCredentials == map[] && revocations == map[]
    {
      didDocuments, didKeys, templates, issuerTemplates := map[], map[], map[], map[];
      credentials, learnerCredentials, issuerCredentials, revocations := map[], map[], map[], map[];
    }
  }

  /** `await kv.get<string[]>(key) || []`: an index list, empty when the key is absent. */
  function IndexList(lists: map<string, seq<string>>, key: string): (ids: seq<string>)
    ensures key !in lists ==> ids == []
    ensures key in lists ==> ids == lists[key]
  {
    if key in lists then lists[key] else []
  }
}
