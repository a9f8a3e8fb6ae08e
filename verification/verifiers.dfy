/** Where the server's verifier and the browser-local one agree and where they part ways, for the
    same credential presented to both. */
module Verifiers {
  import opened Common
  import opened Vc
  import opened Kv
  import Credentials
  import Api

  /** A credential neither verifier has on record: the server counts it as not revoked, the local
      backend as revoked, and only the local backend rejects it outright. */
  lemma UnknownCredentialRevocation(kv: KvStore, client: Api.ApiClient, c: Credential, parseDate: string -> Option<int>, now: int)
    requires c.id !in kv.credentials && c.id !in kv.revocations
    requires forall i :: 0 <= i < |client.credentials| ==> client.credentials[i].credential.id != c.id
    ensures Credentials.NotRevoked(kv, c.id)
    ensures !client.VerifyCredential(c, parseDate, now).checks.notRevoked
    ensures !client.VerifyCredential(c, parseDate, now).valid
  {
    assert Api.StoredFor(client.credentials, c.id).None?;
  }

  /** The two expiration checks agree whenever the date parses to an instant other than the
      epoch itself. */
  lemma ExpiryAgrees(expirationDate: Option<string>, parseDate: string -> Option<int>, now: int)
    requires Truthy(expirationDate) ==> parseDate(expirationDate.value).Some? && parseDate(expirationDate.value).value != 0
    ensures Credentials.NotExpired(expirationDate, parseDate, now) == Api.LocalNotExpired(expirationDate, parseDate, now)
  {
  }

  /** A date that does not parse expires on the server and never expires locally. */
  lemma UnparsableExpiry(expirationDate: Option<string>, parseDate: string -> Option<int>, now: int)
    requires Truthy(expirationDate) && parseDate(expirationDate.value).None?
    ensures !Credentials.NotExpired(expirationDate, parseDate, now)
    ensures Api.LocalNotExpired(expirationDate, parseDate, now)
  {
  }

  /** A date at the epoch has passed for the server at any later time, but counts as no
      expiration at all locally. */
  lemma EpochExpiry(expirationDate: Option<string>, parseDate: string -> Option<int>, now: int)
    requires Truthy(expirationDate) && parseDate(expirationDate.value) == Some(0) && now >= 0
    ensures !Credentials.NotExpired(expirationDate, parseDate, now)
    ensures Api.LocalNotExpired(expirationDate, parseDate, now)
  {
  }
}
