/** The Action Commitment registry: the governed shape, and the digest chain body -> request -> action_ref. */
module Commitment {
  import opened Text
  import opened JsonValue
  import opened CanonicalJson
  import opened Crypto
  import opened WriteOnce

  const RECORD_TYPE := "action_commitment_record"
  const RECORD_VERSION := "action_commitment_record_v1"
  const ACTION_REQUEST_SCHEMA_ID := "ds.action_request.v0.1"
  const ACTION_COMMITMENT_SCHEMA_ID := "ds.action_commitment.v0.1"

  predicate RequestShape(arc: Json) {
    && arc.Get("schema_id") == Str(ACTION_REQUEST_SCHEMA_ID)
    && arc.Get("method").NonEmptyStr()
    && arc.Get("target").Obj?
    && arc.Get("content_type").NonEmptyStr()
    && IsSha256(arc.Get("body_digest"))
  }

  predicate CommitmentShape(ac: Json) {
    && ac.Get("schema_id") == Str(ACTION_COMMITMENT_SCHEMA_ID)
    && ac.Get("agent_id").NonEmptyStr()
    && ac.Get("action_type").NonEmptyStr()
    && IsSha256(ac.Get("request_digest"))
    && ac.Get("idempotency_key").NonEmptyStr()
  }

  predicate DigestChain(p: Platform, r: Json) {
    var arc, ac := r.Get("action_request_commitment"), r.Get("action_commitment");
    && arc.Get("body_digest") == Str(Digest(p, r.Get("request_body")))
    && ac.Get("request_digest") == Str(Digest(p, arc))
    && r.Get("action_ref") == Str(Digest(p, ac))
  }

  /** `validate_action_commitment_record`: the record's action_ref, or `None` for a record error. */
  function Validate(p: Platform, r: Json): Option<string> {
    if !r.Obj? || r.Get("record_type") != Str(RECORD_TYPE) || r.Get("record_version") != Str(RECORD_VERSION) then None
    else if !r.Get("request_body").Obj? || !r.Get("action_request_commitment").Obj?
            || !r.Get("action_commitment").Obj? || !IsSha256(r.Get("action_ref")) then None
    else if !RequestShape(r.Get("action_request_commitment")) || !CommitmentShape(r.Get("action_commitment")) then None
    else if !DigestChain(p, r) then None
    else Some(r.Get("action_ref").s)
  }

  /** What a valid record is, written out: every other record is refused. */
  lemma ValidIff(p: Platform, r: Json, ref: string)
    ensures Validate(p, r) == Some(ref) <==>
            && r.Get("record_type") == Str("action_commitment_record")
            && r.Get("record_version") == Str("action_commitment_record_v1")
            && RequestBound(p, r.Get("action_request_commitment"), r.Get("request_body"))
            && CommitmentBound(p, r.Get("action_commitment"), r.Get("action_request_commitment"))
            && r.Get("action_ref") == Str(ref) && IsSha256Text(ref)
            && ref == "sha256:" + Hex(p.sha256(Canonical(r.Get("action_commitment"))))
  {
    ChainIff(p, r);
    hide IsSha256Text, Canonical, Hex, DigestChain, Digest;
  }

  /** A request commitment of the governed shape over this body. */
  predicate RequestBound(p: Platform, arc: Json, body: Json) {
    && body.Obj?
    && arc.Get("schema_id") == Str("ds.action_request.v0.1")
    && arc.Get("method").Str? && arc.Get("method") != Str("")
    && arc.Get("target").Obj?
    && arc.Get("content_type").Str? && arc.Get("content_type") != Str("")
    && arc.Get("body_digest") == Str("sha256:" + Hex(p.sha256(Canonical(body)))) && IsSha256(arc.Get("body_digest"))
  }

  /** An action commitment of the governed shape over this request commitment. */
  predicate CommitmentBound(p: Platform, ac: Json, arc: Json) {
    && ac.Get("schema_id") == Str("ds.action_commitment.v0.1")
    && ac.Get("agent_id").Str? && ac.Get("agent_id") != Str("")
    && ac.Get("action_type").Str? && ac.Get("action_type") != Str("")
    && ac.Get("idempotency_key").Str? && ac.Get("idempotency_key") != Str("")
    && ac.Get("request_digest") == Str("sha256:" + Hex(p.sha256(Canonical(arc)))) && IsSha256(ac.Get("request_digest"))
  }

  lemma ChainIff(p: Platform, r: Json)
    ensures var arc, ac := r.Get("action_request_commitment"), r.Get("action_commitment");
            DigestChain(p, r) <==>
            && arc.Get("body_digest") == Str("sha256:" + Hex(p.sha256(Canonical(r.Get("request_body")))))
            && ac.Get("request_digest") == Str("sha256:" + Hex(p.sha256(Canonical(arc))))
            && r.Get("action_ref") == Str("sha256:" + Hex(p.sha256(Canonical(ac))))
  {
    DigestText(p, r.Get("request_body"));
    DigestText(p, r.Get("action_request_commitment"));
    DigestText(p, r.Get("action_commitment"));
    hide Hex, Canonical, Digest;
  }

  function Store(p: Platform): Policy {
    Policy("action_ref", IsSha256Text, r => Validate(p, r))
  }

  lemma StoreLawful(p: Platform)
    ensures Lawful(Store(p))
  {
    hide DigestChain;
  }

  /** `extract_conditional_release_profile` */
  function ReleaseProfile(r: Json): Option<Json> {
    var profile := r.Get("request_body").Get("ds_conditional_release");
    if profile.Obj? then Some(profile) else None
  }

  /** The top-level fields the check governs. */
  predicate Governed(k: string) {
    || k == "record_type" || k == "record_version" || k == "request_body"
    || k == "action_request_commitment" || k == "action_commitment" || k == "action_ref"
  }

  predicate AgreeOnGoverned(r: Json, s: Json) {
    && r.Get("record_type") == s.Get("record_type") && r.Get("record_version") == s.Get("record_version")
    && r.Get("request_body") == s.Get("request_body")
    && r.Get("action_request_commitment") == s.Get("action_request_commitment")
    && r.Get("action_commitment") == s.Get("action_commitment") && r.Get("action_ref") == s.Get("action_ref")
  }

  /** One of the three links of the chain joins two different values with one digest. */
  predicate ChainCollision(p: Platform, r: Json, s: Json) {
    || Collision(p, Canonical(r.Get("action_commitment")), Canonical(s.Get("action_commitment")))
    || Collision(p, Canonical(r.Get("action_request_commitment")), Canonical(s.Get("action_request_commitment")))
    || Collision(p, Canonical(r.Get("request_body")), Canonical(s.Get("request_body")))
  }

  lemma ValidFacts(p: Platform, r: Json)
    requires Validate(p, r).Some?
    ensures r.Obj? && DigestChain(p, r) && r.Get("action_ref") == Str(Validate(p, r).value)
    ensures r.Get("record_type") == Str(RECORD_TYPE) && r.Get("record_version") == Str(RECORD_VERSION)
    ensures r.Has("record_type") && r.Has("record_version") && r.Has("request_body")
            && r.Has("action_request_commitment") && r.Has("action_commitment") && r.Has("action_ref")
  {
    hide DigestChain, RequestShape, CommitmentShape;
  }

  /** Valid records with one action_ref agree on every governed field, or exhibit a digest collision. */
  lemma DigestBinding(p: Platform, r: Json, s: Json)
    requires Validate(p, r).Some? && Validate(p, r) == Validate(p, s)
    ensures AgreeOnGoverned(r, s) || ChainCollision(p, r, s)
  {
    hide Validate, Digest, Json.Get, Json.Has, Canonical;
    ValidFacts(p, r);
    ValidFacts(p, s);
    var ac, bc := r.Get("action_commitment"), s.Get("action_commitment");
    var arc, brc := r.Get("action_request_commitment"), s.Get("action_request_commitment");
    DigestBinds(p, ac, bc);
    if ac == bc {
      DigestBinds(p, arc, brc);
      if arc == brc { DigestBinds(p, r.Get("request_body"), s.Get("request_body")); }
    }
  }

  /** So the release profile, and with it the acceptance spec, that an action_ref stands for is fixed. */
  lemma SpecIsBound(p: Platform, r: Json, s: Json)
    requires Validate(p, r).Some? && Validate(p, r) == Validate(p, s)
    ensures ReleaseProfile(r) == ReleaseProfile(s) || ChainCollision(p, r, s)
  {
    hide Validate, ChainCollision;
    DigestBinding(p, r, s);
  }

  /** The records differ at this key: one lacks it, or the values differ. */
  predicate DifferAt(r: Json, s: Json, k: string)
    requires r.Obj? && s.Obj?
  {
    (k in r.fields || k in s.fields) && !(k in r.fields && k in s.fields && r.fields[k] == s.fields[k])
  }

  lemma DifferenceExists(r: Json, s: Json) returns (k: string)
    requires r.Obj? && s.Obj? && r != s
    ensures DifferAt(r, s, k)
  {
    if x :| x in r.fields && (x !in s.fields || r.fields[x] != s.fields[x]) {
      k := x;
    } else {
      assert r.fields.Keys <= s.fields.Keys;
      assert r.fields != s.fields;
      k :| k in s.fields && k !in r.fields;
    }
  }

  lemma ConflictIsDifferent(p: Platform, records: seq<Json>, i: nat, record: Json)
    requires OnePerKey(Store(p), records) && i < |records| && Readable(records)
    requires Validate(p, record).Some? && Validate(p, record) == Validate(p, records[i])
    requires StoreSpec(Store(p), records, record).1 == Conflict
    ensures record != records[i]
  {
    StoreLawful(p);
    hide Validate, StoreSpec;
    StoreAgain(Store(p), records, i, record);
  }

  lemma AgreementCoversGoverned(p: Platform, r: Json, s: Json, k: string)
    requires Validate(p, r).Some? && Validate(p, s).Some? && AgreeOnGoverned(r, s) && Governed(k)
    ensures r.Obj? && s.Obj? && !DifferAt(r, s, k)
  {
    ValidFacts(p, r);
    ValidFacts(p, s);
    hide Validate, DigestChain;
  }

  /** A refused submission differs from the stored record in a field outside the governed ones, or by a collision. */
  lemma ConflictIsUngoverned(p: Platform, records: seq<Json>, i: nat, record: Json) returns (key: string)
    requires OnePerKey(Store(p), records) && i < |records| && Readable(records)
    requires Validate(p, record).Some? && Validate(p, record) == Validate(p, records[i])
    requires StoreSpec(Store(p), records, record).1 == Conflict
    ensures record.Obj? && records[i].Obj?
    ensures ChainCollision(p, record, records[i]) || (!Governed(key) && DifferAt(record, records[i], key))
  {
    ConflictIsDifferent(p, records, i, record);
    DigestBinding(p, record, records[i]);
    ValidFacts(p, record);
    ValidFacts(p, records[i]);
    hide *;
    key := DifferenceExists(record, records[i]);
    if AgreeOnGoverned(record, records[i]) && Governed(key) {
      AgreementCoversGoverned(p, record, records[i], key);
    }
  }
}
