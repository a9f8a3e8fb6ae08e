# Verifiable-credential trust engine, modelled in Dafny

The platform issues W3C Verifiable Credentials (Data Model 1.1) to learners, lets the holder show a
minimized copy, and lets anyone verify a credential. This project models its trust engine:

- **Server lifecycle** (`supabase/functions/server/credentials.tsx`): templates, and issuance of a
  credential with an Ed25519 proof over the credential without its proof. The record is stored
  with an `active` status, and its id is appended to the learner's and the issuer's index lists.
  Revocation checks the owner and is written both on the record and in a revocation registry.
  Verification fills four checks: signature, issuer, not revoked, not expired.
- **DID registry** (`supabase/functions/server/did.tsx`): mints
  `did:web:ssi-platform.example:users:<id>` with a DID Core 1.0 document, resolves it, and releases
  the private key only to its owner.
- **Local offline backend** (`src/lib/api.ts`): class `ApiClient` over one persisted `Store` of
  users, templates, credential records and sessions. It covers accounts and sessions, role-gated
  issuer operations, in-place issue and revoke, and a simplified verifier.
- **Selective disclosure** (`src/app/components/LearnerDashboard.tsx`): the attribute
  preselection, the minimized subject, the share-history prepend and the attribute checkbox.

The files follow that structure:

- `common.dfy`: Option and Result, plus `find`, `findIndex` and `filter`.
- `text.dfy`: whitespace removal as `/\s+/g`, and e-mail comparison.
- `crypto.dfy`: the signature suite and the hex encoding of digests.
- `vc.dfy`: the credential data model.
- `did_document.dfy` and `did.dfy`: DID documents and the DID registry.
- `kv.dfy`: the key-value store, one map per key prefix.
- `credentials.dfy`: the server lifecycle.
- `api.dfy`: the local backend.
- `disclosure.dfy`: the holder-side filter.
- `verifiers.dfy`: where the two verifiers differ.

Points to note:

- **KV store.** The server's key-value store is the class `Kv.KvStore`, with one `map` field per
  key prefix (`did:`, `didkey:`, `template:`, and so on). The prefixes never collide, so each field
  is one namespace of the same store.
- **Local Store.** The local backend's `Store` is the set of fields of `Api.ApiClient`. It sits next
  to the client's own `token`. Each local operation reads and writes those fields where the source
  reloads and saves the whole store.
- **Parameters.** These are inputs to the operations that use them:
  - signing, verifying and hashing: a `Crypto.Suite` value, or the local `hash` function;
  - fresh UUIDs;
  - the current time and ISO timestamps;
  - `Date.parse` / `new Date`: a `parseDate` function, where `None` stands for NaN.
- **Record and credential ids.** On the server, a record's id is its credential's id. The local
  backend gives a record its own `urn:uuid:` id: local revocation looks records up by record id,
  and local verification by credential id.
- **Subject id.** `credentialSubject` is built as `{ id: learnerDid, ...data }`, so an `id` key in
  the issued data replaces the learner's DID. `Vc.SubjectFor` keeps that behaviour.
- **Expiry.**
  - The server compares `new Date(exp) > now`, so a date it cannot parse counts as expired.
  - The local backend tests `Date.parse(exp)` for truthiness first, so NaN and the epoch itself
    count as never expiring.
  - `Verifiers` states both differences.
- **Unknown credentials.** The server counts one as not revoked. The local backend counts it as
  revoked and rejects it.
- **Disclosed credentials.** A disclosed credential keeps the issuer's `proof` while its subject
  shrinks. Its payload without the proof is then no longer the one that was signed. With any
  suite whose signatures commit to the payload, the issuer's signature fails to verify for such a
  disclosure (`Disclosure.DisclosedSignatureFails`). The model records this behaviour as the
  source has it and does not change it.

## Model

| member | source | states |
|---|---|---|
| Common.FirstIndex | src/lib/api.ts:274 | the index of the first element passing the test, none before it, and none at all exactly when no element passes |
| Common.Find | src/lib/api.ts:107 | a result exists iff some element passes; the result is the first passing element: it passes and no earlier element does |
| Common.Filter | src/lib/api.ts:190 | every kept element is from the array and passes, every passing element is kept, never longer than the array |
| Common.FilterAppend | src/lib/api.ts:251 | filtering after a push gives the old filtered array plus the new element when it passes |
| Text.RemoveWhitespace | supabase/functions/server/credentials.tsx:136 | the result has no ECMAScript whitespace, is no longer than the input, and keeps the length exactly when there was no whitespace |
| Text.RemoveWhitespaceConcat | supabase/functions/server/credentials.tsx:136 | removing whitespace distributes over concatenation |
| Text.RemoveWhitespaceIdentity | supabase/functions/server/credentials.tsx:136 | a name without whitespace is kept unchanged |
| Text.RemoveWhitespaceIdempotent | supabase/functions/server/credentials.tsx:136 | removing whitespace twice is removing it once |
| Text.IsJsWhitespace | supabase/functions/server/credentials.tsx:136 | the `\s` class holds space, tab and the line breaks, and no ASCII letter or digit |
| Text.LowerChar | src/lib/api.ts:115 | an ASCII capital maps to its small letter (code point plus 32); every other character is kept |
| Text.LowerCase | src/lib/api.ts:115 | same length, each character mapped to lower case |
| Text.SameEmail | src/lib/api.ts:115 | two addresses match exactly when they have the same length and agree position by position up to the case of ASCII letters; every other character is the same at the same position |
| Text.SameEmailProperties | src/lib/api.ts:115 | the e-mail comparison is an equivalence (reflexive, symmetric, transitive), and an address matches its lower-case form |
| Crypto.ByteToHex | supabase/functions/server/crypto.tsx:103-106 | each digest byte becomes exactly two lower-case hex digits |
| Crypto.ToHex | supabase/functions/server/crypto.tsx:103-106 | the hex text is twice as long as the digest |
| Crypto.ByteHexRoundTrip | supabase/functions/server/crypto.tsx:105 | reading back one byte's two digits gives the byte |
| Crypto.HexRoundTrip | supabase/functions/server/crypto.tsx:98-109 | decoding the hex text of a digest gives the digest back |
| Crypto.HexInjective | supabase/functions/server/crypto.tsx:98-109 | two digests with the same hex text are equal |
| Vc.Truthy | supabase/functions/server/credentials.tsx:145 | an absent or empty string is falsy, any other string truthy |
| Vc.Unsigned | supabase/functions/server/credentials.tsx:288-289 | the credential without proof differs from the original only in having no proof |
| Vc.SubjectFor | supabase/functions/server/credentials.tsx:139-142 | the subject's keys are the data's keys plus `id`, data values are kept, and `id` is the learner's DID unless the data supplies one |
| DidDocuments.DidFor | supabase/functions/server/did.tsx:31 | the DID is the `did:web:ssi-platform.example:users:` prefix followed by the fresh id |
| DidDocuments.KeyId | supabase/functions/server/did.tsx:42 | the key id is the DID followed by `#key-1` |
| DidDocuments.NewDocument | supabase/functions/server/did.tsx:33-50 | the document is self-controlled and well formed, lists exactly one method with id `did#key-1` and the generated key, and authentication and assertionMethod are both `[did#key-1]` |
| DidDocuments.PublicKeyOf | supabase/functions/server/did.tsx:95-99 | a key exists iff the document lists a method; it is the first method's key |
| Kv.KvStore.constructor | supabase/functions/server/credentials.tsx:2 | a new store holds nothing in any of its namespaces |
| Kv.IndexList | supabase/functions/server/credentials.tsx:180 | an absent index list reads as empty, a present one as itself |
| Did.ResolveDid | supabase/functions/server/did.tsx:71-74 | resolves exactly the DIDs whose document is stored, to that document |
| Did.GetPrivateKey | supabase/functions/server/did.tsx:79-87 | the key is returned iff the key record exists and its owner is the caller; an unknown DID and a wrong owner both give nothing |
| Did.GetPublicKey | supabase/functions/server/did.tsx:92-100 | a key iff the document exists and lists a method; then the first method's key |
| Did.CreateDid | supabase/functions/server/did.tsx:22-66 | exactly the document and the key record are written; afterwards the DID resolves to the document, its public key is the generated one, and its private key is released to the owner and to nobody else |
| Credentials.CredentialUrn | supabase/functions/server/credentials.tsx:126 | an identifier is `urn:uuid:` followed by the fresh UUID |
| Credentials.Collect | supabase/functions/server/credentials.tsx:89-101 | a listing is never longer than its index list |
| Credentials.CollectMembers | supabase/functions/server/credentials.tsx:195-207 | every listed record belongs to a listed id, and every listed id with a record contributes it |
| Credentials.CollectAllPresent | supabase/functions/server/credentials.tsx:212-224 | with no dangling id, the listing has one record per id, in index order |
| Credentials.CollectIgnoresUnlisted | supabase/functions/server/credentials.tsx:177 | writing a record under an unlisted id leaves a listing unchanged |
| Credentials.ListingAfterPush | supabase/functions/server/credentials.tsx:177-187 | storing a record under a fresh id and pushing the id appends exactly that record to the listing |
| Credentials.CollectPresent | supabase/functions/server/credentials.tsx:195-206 | the fetch-and-push loop computes the listing of the index list |
| Credentials.CreateTemplate | supabase/functions/server/credentials.tsx:57-84 | the template is stored under its id and its id is pushed onto the issuer's list; with a fresh id the issuer's listing grows by exactly this template |
| Credentials.GetIssuerTemplates | supabase/functions/server/credentials.tsx:89-101 | the issuer's templates in index order, skipping missing ones |
| Credentials.IssueCredential | supabase/functions/server/credentials.tsx:106-190 | "Template not found" and "Issuer private key not found" leave the store untouched; success iff both exist; the credential has the two contexts, the types `[VerifiableCredential, name without whitespace]`, the issuer, the subject, and an expiration exactly when a non-empty one was given; the proof is dated at issuance, names `issuerDid#key-1` for `assertionMethod`, and carries the signature over the credential without proof; the record is active and stored under the credential id, which is appended to both index lists |
| Credentials.GetLearnerCredentials | supabase/functions/server/credentials.tsx:195-207 | the learner's records in index order, skipping missing ones |
| Credentials.GetIssuerCredentials | supabase/functions/server/credentials.tsx:212-224 | the issuer's records in index order, skipping missing ones |
| Credentials.GetCredential | supabase/functions/server/credentials.tsx:341-343 | the stored record when there is one |
| Credentials.NotExpired | supabase/functions/server/credentials.tsx:247-254 | no (or an empty) expiration never expires, an unparsable one has expired, otherwise the date must be after now |
| Credentials.NotRevoked | supabase/functions/server/credentials.tsx:256-264 | a stored record decides by its status; otherwise the revocation registry decides, and an unknown credential counts as not revoked |
| Credentials.VerifyCredential | supabase/functions/server/credentials.tsx:229-310 | the expiry and revocation checks as above; the issuer check holds iff the issuer has a public key; an unresolvable issuer or a missing proof returns invalid with its error and the signature check false; otherwise the signature is verified over the credential without proof; valid is the conjunction of the four checks |
| Credentials.RevokeCredential | supabase/functions/server/credentials.tsx:315-336 | an unknown record and a caller who is not its issuer fail, writing nothing; otherwise the status becomes revoked, the registry entry is written, and nothing else changes; revoking again keeps it revoked |
| Credentials.Lifecycle | supabase/functions/server/credentials.tsx:106-336 | with a sound suite, a freshly issued credential passes all four checks, and after revocation it fails only the revocation check |
| Api.LocalDid | src/lib/api.ts:120 | a local account's DID starts with `did:local:` and continues with exactly its id |
| Api.UserByEmail | src/lib/api.ts:207 | one is found iff some account matches the e-mail case-insensitively, and it is the first such account |
| Api.UserByEmailUnique | src/lib/api.ts:113-149 | with unique e-mails, the account found for an e-mail is the only one registered under it |
| Api.OwnedTemplate | src/lib/api.ts:204 | a template is found iff one has this id and belongs to the caller, and it is the first such template |
| Api.IssuedIndex | src/lib/api.ts:274 | the position of the first record with this id issued by the caller, and none iff there is no such record |
| Api.StoredFor | src/lib/api.ts:283 | a record is found iff some stored record carries the credential's id, and it is the first such record |
| Api.LocalNotExpired | src/lib/api.ts:286-292 | no expiration, an unparsable date or the epoch never expire; otherwise the date must be after now |
| Api.LocalKeyId | src/lib/api.ts:230 | the local proof names the issuer's DID followed by `#local-key-1` |
| Api.LocalCredential | src/lib/api.ts:214-236 | the local credential has the same data-model fields as the server's, and its proof carries the hash of the credential id and the issuer's DID |
| Api.IssuedLocalRecord | src/lib/api.ts:210-249 | the issued record is active, has its own `urn:uuid:` id, names the template, the learner's and the issuer's ids and DIDs, holds a credential with the data-model fields and the local proof over the hash of the credential id and the issuer's DID, and carries the hash of the whole credential |
| Api.IssuedBy | src/lib/api.ts:267 | the listing holds exactly the records the issuer issued |
| Api.HeldBy | src/lib/api.ts:260 | the listing holds exactly the records issued to the learner |
| Api.HeldByAppend | src/lib/api.ts:251 | appending a record puts it at the end of its learner's listing and leaves every other learner's listing unchanged |
| Api.RecordListingCounts | src/lib/api.ts:260-267 | an issuer's or a learner's listing holds each of its records as often as the store does, and no other record |
| Api.TemplatesBy | src/lib/api.ts:190 | the listing holds exactly the issuer's templates |
| Api.TemplatesByCounts | src/lib/api.ts:190 | each of the issuer's templates appears in its listing as often as in the store, and no other template appears |
| Api.TemplatesByAppend | src/lib/api.ts:181 | appending a template puts it at the end of its issuer's listing and leaves every other issuer's listing unchanged |
| Api.Learners | src/lib/api.ts:309-310 | the learner accounts, each as often as the store holds it, and no other account; the order is fixed by `LearnersAppend` |
| Api.LearnersAppend | src/lib/api.ts:309-310 | an account added at the end of the store is at the end of the learners when it is one, and changes nothing otherwise: the learners keep store order |
| Api.IssuedByAppend | src/lib/api.ts:251 | appending a record puts it at the end of its issuer's listing and leaves every other issuer's listing unchanged |
| Api.Summary | src/lib/api.ts:311 | a summary carries the account's id, e-mail, name and DID |
| Api.SummariesOfLearners | src/lib/api.ts:309-311 | the learner summaries cover every learner account and no other account |
| Api.ApiClient.constructor | src/lib/api.ts:68-76 | a client over the persisted store starts signed out, and over the empty store it satisfies the store invariant |
| Api.ApiClient.SetToken | src/lib/api.ts:98-100 | only the token changes |
| Api.ApiClient.CurrentUser | src/lib/api.ts:102-110 | fails in order with "Not authenticated", "Session expired" and "User not found"; otherwise it is the first account, in store order, whose id is the token's session's |
| Api.ApiClient.RequireRole | src/lib/api.ts:168 | a session failure passes through, a user of another role is refused with the operation's message, and otherwise the current user is returned |
| Api.ApiClient.Signup | src/lib/api.ts:113-135 | fails iff the e-mail is taken (case-insensitively), changing nothing; otherwise exactly one account with DID `did:local:<id>` is appended, and unique e-mails are kept |
| Api.ApiClient.Signin | src/lib/api.ts:137-149 | succeeds iff an account matches the e-mail case-insensitively and the password exactly; then the session `token-<uuid>` maps to that account, which is the only one with that e-mail |
| Api.ApiClient.SignInAndUse | src/app/components/Auth.tsx:38-39 | sign-in succeeds iff an account matches the e-mail and password; then the token is the new session's and the client is authenticated as an account with the signed-in id, except that an empty account id makes the session read as expired |
| Api.ApiClient.Signout | src/lib/api.ts:156-163 | removes only the current token's session and clears the token; without a token nothing changes |
| Api.ApiClient.CreateTemplate | src/lib/api.ts:166-185 | only an issuer, and only with name, description and field map present; the template is appended with the issuer's id and DID, at the end of that issuer's listing, and every other issuer's listing is unchanged |
| Api.ApiClient.GetTemplates | src/lib/api.ts:187-192 | only an issuer; its own templates, in store order, each once: the `TemplatesBy` listing |
| Api.ApiClient.IssueCredential | src/lib/api.ts:195-255 | only an issuer, with one of its own templates and an account of role learner under the e-mail; otherwise fails with the matching error and stores nothing; on success appends one active record with the learner's and issuer's ids and DIDs, the credential's data-model fields, the local proof and the whole-credential hash, and the issuer's and the learner's listings each grow by exactly that record while every other issuer's and learner's listing is unchanged |
| Api.ApiClient.GetCredentials | src/lib/api.ts:257-262 | only a learner; the records issued to it, in store order, each once: the `HeldBy` listing |
| Api.ApiClient.GetIssuedCredentials | src/lib/api.ts:264-269 | only an issuer; its listing of the records it issued |
| Api.ApiClient.RevokeCredential | src/lib/api.ts:271-279 | only an issuer; "Credential not found" without a matching record of its own; otherwise only the first such record's status becomes revoked and every other record is unchanged |
| Api.ApiClient.VerifyCredential | src/lib/api.ts:281-304 | the signature check holds iff a stored record has the credential's id; an unknown credential fails issuer and revocation; the issuer and status of the stored record decide those checks; valid is the conjunction of the four checks, and the error is present iff invalid |
| Api.ApiClient.GetLearners | src/lib/api.ts:306-313 | only an issuer; one summary per learner account, in store order (the i-th summary is that of the i-th account of `Learners`), and of no other account |
| Disclosure.Preselect | src/app/components/LearnerDashboard.tsx:80-81 | every subject key except `id` is preselected, as often as `keys` lists it, and nothing else |
| Disclosure.PreselectAppend | src/app/components/LearnerDashboard.tsx:80-81 | one more key puts that key at the end of the preselection, unless it is `id`: the preselection keeps the order of `Object.keys` |
| Disclosure.PreselectAll | src/app/components/LearnerDashboard.tsx:80-81 | when the keys enumerate the subject, the preselection is exactly its attributes other than `id` |
| Disclosure.CopySelected | src/app/components/LearnerDashboard.tsx:105-108 | the reduce only adds keys, each one a selected attribute of the subject |
| Disclosure.CopySelectedSpec | src/app/components/LearnerDashboard.tsx:105-108 | the reduce adds exactly the selected attributes the subject has, with their original values, and keeps the accumulator's other keys |
| Disclosure.FilterSubject | src/app/components/LearnerDashboard.tsx:103-109 | the minimized subject's keys are the original `id` plus the selected attributes, each with its original value |
| Disclosure.Disclose | src/app/components/LearnerDashboard.tsx:101-110 | only the subject changes; the proof, issuer, types, dates and contexts are copied unchanged |
| Disclosure.DiscloseEverything | src/app/components/LearnerDashboard.tsx:80-81 | disclosing every attribute gives back a credential with the same subject entries and fields, key order aside |
| Disclosure.DisclosureChangesPayload | src/app/components/LearnerDashboard.tsx:101-110 | dropping an attribute keeps the proof but changes the payload without proof, so it differs from what was signed |
| Disclosure.DisclosedSignatureFails | supabase/functions/server/credentials.tsx:149-158 | with a suite whose signatures commit to the payload, the issuer's signature fails for a disclosure that drops an attribute |
| Disclosure.ConsentAccept | src/app/components/LearnerDashboard.tsx:99-121 | the shown credential is the disclosure of the selection, and one share record naming the selected attributes is put in front of an otherwise unchanged history |
| Disclosure.Toggle | src/app/components/LearnerDashboard.tsx:379-384 | checking appends the attribute; unchecking removes every occurrence and keeps the count of every other attribute, in the order fixed by `ToggleOffAppend` |
| Common.FilterCounts | src/app/components/LearnerDashboard.tsx:383 | filtering keeps every occurrence of a passing element and none of a failing one |
| Disclosure.RemovalLength | src/app/components/LearnerDashboard.tsx:383 | unchecking shortens the selection by the attribute's number of occurrences |
| Disclosure.ToggleOffAppend | src/app/components/LearnerDashboard.tsx:383 | unchecking keeps the order of the remaining attributes: an attribute at the end of the selection stays at the end unless it is the one unchecked |
| Disclosure.ToggleOnOff | src/app/components/LearnerDashboard.tsx:379-384 | checking and then unchecking is the same as unchecking |
| Verifiers.UnknownCredentialRevocation | src/lib/api.ts:291 | for a credential neither side knows, the server counts it as not revoked, and the local backend as revoked and invalid |
| Verifiers.ExpiryAgrees | src/lib/api.ts:286-292 | both expiry checks agree when the date parses to an instant other than the epoch |
| Verifiers.UnparsableExpiry | supabase/functions/server/credentials.tsx:248-251 | an unparsable date has expired on the server and never expires locally |
| Verifiers.EpochExpiry | src/lib/api.ts:292 | a date at the epoch has expired on the server and never expires locally |

## Left out

- Cryptography. WebCrypto Ed25519 signing and verification, SHA-256, and `btoa`/`atob` are foreign
  library calls. They are the three functions of a `Crypto.Suite`. `Sound` and `Binding` are
  hypotheses of the lemmas that need them, and nothing assumes them globally. Key generation
  (`generateKeyPair`) is a `KeyPair` parameter.
- The `JSON.stringify` text and the local `hash` are not modelled. Signatures and hashes are taken
  over the credential value, and the local `hash` is a function parameter. JavaScript object key
  order is not modelled either, because a subject is a `map`.
- I/O. The KV store's own failures are not modelled, so the `catch` branch of the server's
  `verifyCredential` cannot be reached in the model. `localStorage` loading and saving is not
  modelled: the store is the client's fields, and a corrupt stored store that reloads as empty is
  not covered.
- Concurrency. Async suspension and the read-modify-write races on index lists are out of scope.
- The clock and UUID generation are parameters, so the model does not guarantee that ids are fresh.
  `Credentials.CreateTemplate` states the listing growth only for an id the issuer's list does not
  yet hold.
- Text.LowerChar: maps A to Z only; `toLowerCase` also lower-cases non-ASCII capitals (`À` to `à`),
  and the model keeps them unchanged.
- Text.LowerCase: maps ASCII letters only; the case mapping `toLowerCase` applies to other Unicode
  letters is not modelled.
- Text.SameEmail: the equal-length and letters-only clauses hold for the ASCII case mapping only.
  The source's `toLowerCase` can turn one code point into two (U+0130 becomes `i` plus a combining
  dot), so the source can match addresses of different lengths that the model keeps apart.
- Text.SameEmailProperties: states the equivalence of the ASCII comparison; the Unicode comparison
  of the source is an equivalence too, but it is not modelled.
- JSON numbers are integers; floating point is not modelled.
- `getMe` (a plain `requireUser`), the server's `index.tsx` routing, authentication and audit log,
  and all React rendering (toasts, dialogs, QR codes, download) are not part of this model.
- Disclosure.DiscloseEverything: the equality is between subjects as maps, so it ignores key order.
  In the source, the `reduce` inserts keys in selection order. Unchecking and re-checking an attribute
  moves it to the end of the selection. The disclosed subject's JSON text then differs from the
  signed text, and the issuer's signature fails even though every attribute is disclosed. The model
  does not capture this.
- The KV store module `kv_store.tsx` is not part of this model; its `get` and `set` are the map
  reads and writes of `Kv.KvStore`.
- Disclosure.FilterSubject: an attribute that is selected but missing from the subject would be
  copied as `undefined`. No JSON value carries `undefined`, so the model adds no key for it. The
  dashboard only offers the subject's own keys.
- Disclosure.ConsentAccept: the share id `share-<Date.now()>` takes the clock's decimal text as a
  parameter.
- Api.ApiClient.CreateTemplate: the field map is present or absent; other falsy values of the
  untyped argument are not distinguished.
