/** Holder-side selective disclosure: which attributes are offered, the minimized credential that
    is shown to a verifier, the share history, and the attribute checkboxes. Every operation
    builds new values; nothing it is given is changed. */
module Disclosure {
  import opened Common
  import opened Crypto
  import opened Vc

  /** One entry of the share history. */
  datatype ShareRecord = ShareRecord(
    id: string,
    credentialId: string,
    sharedWith: string,
    attributes: seq<string>,
    timestamp: string,
    purpose: string)

  /** The attributes preselected when sharing starts: the subject's keys, in the order
      `Object.keys` lists them (`keys`), without `id`. Each key other than `id` appears as often
      as it does in `keys`; `PreselectAppend` fixes the order. */
  function Preselect(keys: seq<string>): (attrs: seq<string>)
    ensures forall i :: 0 <= i < |attrs| ==> attrs[i] != "id" && attrs[i] in keys
    ensures forall i :: 0 <= i < |keys| && keys[i] != "id" ==> keys[i] in attrs
    ensures forall k :: multiset(attrs)[k] == if k == "id" then 0 else multiset(keys)[k]
  {
    FilterCounts(keys, (k: string) => k != "id");
    Filter(keys, (k: string) => k != "id")
  }

  /** One more key in the listing is one more preselected attribute at the end, unless it is
      `id`: the preselection keeps the order of `keys`. */
  lemma PreselectAppend(keys: seq<string>, k: string)
    ensures k != "id" ==> Preselect(keys + [k]) == Preselect(keys) + [k]
    ensures k == "id" ==> Preselect(keys + [k]) == Preselect(keys)
  {
    FilterAppend(keys, k, (a: string) => a != "id");
  }

  /** When `keys` lists the subject's keys, every attribute except `id` is preselected. */
  lemma PreselectAll(subject: Subject, keys: seq<string>)
    requires forall k :: k in subject <==> k in keys
    ensures forall k :: k in Preselect(keys) <==> k in subject && k != "id"
  {
    var attrs := Preselect(keys);
    forall k | k in subject && k != "id" ensures k in attrs {
      var i :| 0 <= i < |keys| && keys[i] == k;
    }
  }

  /** The `reduce` over the selection: each selected attribute is copied from the subject into
      the accumulator. An attribute the subject lacks would be copied as `undefined`, which no
      JSON value carries, so it adds no key here. */
  function CopySelected(subject: Subject, selected: seq<string>, acc: Subject): (r: Subject)
    ensures acc.Keys <= r.Keys <= acc.Keys + subject.Keys
    ensures forall k :: k in r && k !in acc ==> k in selected
  {
    if selected == [] then acc
    else
      var attr := selected[0];
      CopySelected(subject, selected[1..], if attr in subject then acc[attr := subject[attr]] else acc)
  }

  /** The fold adds exactly the selected attributes the subject has, with the subject's values,
      and keeps every other key of the accumulator. */
  lemma {:induction false} CopySelectedSpec(subject: Subject, selected: seq<string>, acc: Subject)
    ensures CopySelected(subject, selected, acc).Keys == acc.Keys + (set a | a in selected && a in subject)
    ensures forall k :: k in selected && k in subject ==> CopySelected(subject, selected, acc)[k] == subject[k]
    ensures forall k :: k in acc && k !in selected ==> CopySelected(subject, selected, acc)[k] == acc[k]
  {
    if selected != [] {
      var attr := selected[0];
      var next := if attr in subject then acc[attr := subject[attr]] else acc;
      CopySelectedSpec(subject, selected[1..], next);
      assert forall k :: k in selected <==> k == attr || k in selected[1..];
      forall k | k in selected && k in subject
        ensures CopySelected(subject, selected, acc)[k] == subject[k]
      {
        if k !in selected[1..] {
          assert k == attr;
        }
      }
    }
  }

  /** The minimized subject: the original `id` and the selected attributes, each with its
      original value, and no other key. */
  function FilterSubject(subject: Subject, selected: seq<string>): (r: Subject)
    ensures r.Keys == (subject.Keys * {"id"}) + (set a | a in selected && a in subject)
    ensures forall k :: k in r ==> k in subject && r[k] == subject[k]
  {
    var base: Subject := if "id" in subject then map["id" := subject["id"]] else map[];
    CopySelectedSpec(subject, selected, map[]);
    base + CopySelected(subject, selected, map[])
  }

  /** The credential shown to a verifier: the subject is minimized, every other field (the
      proof included) is copied unchanged. */
  function Disclose(c: Credential, selected: seq<string>): (r: Credential)
    ensures r.(credentialSubject := c.credentialSubject) == c
    ensures r.proof == c.proof
    ensures r.credentialSubject == FilterSubject(c.credentialSubject, selected)
  {
    c.(credentialSubject := FilterSubject(c.credentialSubject, selected))
  }

  /** Selecting every attribute, as the preselection does, discloses the credential unchanged.
      Subjects are maps here, so the order in which the keys were inserted is not compared. */
  lemma DiscloseEverything(c: Credential, selected: seq<string>)
    requires forall k :: k in c.credentialSubject && k != "id" ==> k in selected
    ensures Disclose(c, selected) == c
  {
    var r := FilterSubject(c.credentialSubject, selected);
    assert r.Keys == c.credentialSubject.Keys;
  }

  /** Leaving out an attribute changes the payload while the proof stays the same, so the
      disclosed credential no longer matches what was signed. */
  lemma DisclosureChangesPayload(c: Credential, selected: seq<string>, attr: string)
    requires attr in c.credentialSubject && attr != "id" && attr !in selected
    ensures Disclose(c, selected).proof == c.proof
    ensures Unsigned(Disclose(c, selected)) != Unsigned(c)
  {
    assert attr !in Disclose(c, selected).credentialSubject;
  }

  /** A suite whose signatures commit to the payload: a signature by this key pair verifies only
      for the payload it was made over. */
  ghost predicate Binding<P(!new)>(suite: Suite<P>, kp: KeyPair)
  {
    forall p, q :: suite.verify(p, suite.sign(q, kp.privateKey), kp.publicKey) ==> p == q
  }

  /** With a binding suite, the issuer's signature over the full credential fails to verify for
      a disclosure that leaves out any attribute. */
  lemma DisclosedSignatureFails(
    suite: Suite<Credential>, kp: KeyPair, c: Credential, selected: seq<string>, attr: string)
    requires Binding(suite, kp)
    requires attr in c.credentialSubject && attr != "id" && attr !in selected
    ensures !suite.verify(Unsigned(Disclose(c, selected)), suite.sign(Unsigned(c), kp.privateKey), kp.publicKey)
  {
    DisclosureChangesPayload(c, selected, attr);
  }

  /** What accepting consent produces: the minimized credential to show and the new history. */
  datatype Shared = Shared(credential: Credential, history: seq<ShareRecord>)

  /** `handleConsentAccept`: minimizes the selected credential and puts a share record naming the
      selected attributes at the front of the history; earlier records keep their order. */
  function ConsentAccept(
    recordId: string, c: Credential, selected: seq<string>, sharedWith: string, purpose: string,
    nowText: string, timestamp: string, history: seq<ShareRecord>): (r: Shared)
    ensures r.credential == Disclose(c, selected)
    ensures |r.history| == |history| + 1 && r.history[1..] == history
    ensures r.history[0] == ShareRecord("share-" + nowText, recordId, sharedWith, selected, timestamp, purpose)
  {
    var entry := ShareRecord("share-" + nowText, recordId, sharedWith, selected, timestamp, purpose);
    Shared(Disclose(c, selected), [entry] + history)
  }

  /** The attribute checkbox: checking appends the attribute, unchecking removes every occurrence
      of it and keeps the rest in order. */
  function Toggle(selected: seq<string>, attr: string, checked: bool): (r: seq<string>)
    ensures checked ==> r == selected + [attr]
    ensures !checked ==> attr !in r && |r| == |selected| - multiset(selected)[attr]
    ensures !checked ==> forall a :: a != attr ==> multiset(r)[a] == multiset(selected)[a]
  {
    if checked then selected + [attr]
    else
      FilterCounts(selected, (a: string) => a != attr);
      RemovalLength(selected, attr);
      Filter(selected, (a: string) => a != attr)
  }

  /** Removing every occurrence of `x` shortens the selection by the number of occurrences. */
  lemma {:induction false} RemovalLength(s: seq<string>, x: string)
    ensures |Filter(s, (a: string) => a != x)| == |s| - multiset(s)[x]
  {
    if s != [] {
      RemovalLength(s[1..], x);
      assert s == [s[0]] + s[1..];
    }
  }

  /** Unchecking keeps the order of the rest: one more attribute at the end of the selection is
      still at the end after unchecking, unless it is the one unchecked. */
  lemma ToggleOffAppend(selected: seq<string>, x: string, attr: string)
    ensures Toggle(selected + [x], attr, false) == Toggle(selected, attr, false) + (if x == attr then [] else [x])
  {
    FilterAppend(selected, x, (a: string) => a != attr);
  }

  /** Unchecking undoes checking: checking and then unchecking an attribute leaves the same
      selection as unchecking it straight away. */
  lemma ToggleOnOff(selected: seq<string>, attr: string)
    ensures Toggle(Toggle(selected, attr, true), attr, false) == Toggle(selected, attr, false)
  {
    FilterAppend(selected, attr, (a: string) => a != attr);
  }
}
