/** `ds.authenticated_submission/v1`: the signed envelope and the checks it passes before its nonce is claimed. */
module Submission {
  import opened Text
  import opened Utf8
  import opened JsonValue
  import opened CanonicalJson
  import opened Crypto
  import opened ProducerRegistry
  import opened IsoTime

  type Envelope = map<string, Json>

  const SCHEMA_VERSION := "ds.authenticated_submission/v1"

  const SIGNED_FIELDS: seq<string> := [
    "schema_version", "submission_id", "producer_id", "subject_agent_id", "submission_type", "route_id", "request_id",
    "canonical_payload_digest", "source_evidence_digest", "verdict", "reason_code", "timestamp", "nonce",
    "producer_registry_identity", "authority_scope"]

  /** The fields by name: these fifteen, and no others. */
  predicate Named(k: string) {
    || k == "schema_version" || k == "submission_id" || k == "producer_id" || k == "subject_agent_id"
    || k == "submission_type" || k == "route_id" || k == "request_id" || k == "canonical_payload_digest"
    || k == "source_evidence_digest" || k == "verdict" || k == "reason_code" || k == "timestamp" || k == "nonce"
    || k == "producer_registry_identity" || k == "authority_scope"
  }

  lemma SignedFieldsAre(k: string)
    ensures k in SIGNED_FIELDS <==> Named(k)
  {
    FirstSigned();
    LastSigned();
    if k in SIGNED_FIELDS {
      var i :| 0 <= i < |SIGNED_FIELDS| && SIGNED_FIELDS[i] == k;
    }
  }

  lemma FirstSigned()
    ensures |SIGNED_FIELDS| == 15
    ensures SIGNED_FIELDS[0] == "schema_version" && SIGNED_FIELDS[1] == "submission_id"
    ensures SIGNED_FIELDS[2] == "producer_id" && SIGNED_FIELDS[3] == "subject_agent_id"
    ensures SIGNED_FIELDS[4] == "submission_type" && SIGNED_FIELDS[5] == "route_id"
    ensures SIGNED_FIELDS[6] == "request_id" && SIGNED_FIELDS[7] == "canonical_payload_digest"
  {
  }

  lemma LastSigned()
    ensures |SIGNED_FIELDS| == 15 && SIGNED_FIELDS[8] == "source_evidence_digest" && SIGNED_FIELDS[9] == "verdict"
    ensures SIGNED_FIELDS[10] == "reason_code" && SIGNED_FIELDS[11] == "timestamp" && SIGNED_FIELDS[12] == "nonce"
    ensures SIGNED_FIELDS[13] == "producer_registry_identity" && SIGNED_FIELDS[14] == "authority_scope"
  {
  }

  datatype SubmissionError =
    | EnvelopeSchema
    | RegistryIdentityMismatch
    | RegistryRejected(error: RegistryError)
    | SignatureFailed
    | TimestampWindow
    | NonStringField // an uncaught TypeError or AttributeError

  /** `envelope.get(key)` */
  function At(e: Envelope, key: string): Json {
    Obj(e).Get(key)
  }

  predicate HasSignedFields(e: Envelope) {
    forall f :: f in SIGNED_FIELDS ==> f in e
  }

  /** `{f: envelope[f] for f in SIGNED_FIELDS}`: extra keys and the signature take no part. */
  function SignedView(e: Envelope): Json
    requires HasSignedFields(e)
  {
    Obj(map f | f in SIGNED_FIELDS :: e[f])
  }

  /** `envelope_digest` */
  function EnvelopeDigest(p: Platform, e: Envelope): Bytes
    requires HasSignedFields(e)
  {
    p.sha256(Canonical(SignedView(e)))
  }

  /** `sign_envelope` */
  function SignEnvelope(p: Platform, privateKey: string, e: Envelope): string
    requires HasSignedFields(e)
  {
    p.sign(privateKey, EnvelopeDigest(p, e))
  }

  datatype Verified = Verified(entry: Entry, nonce: string, stamp: Stamp, digest: Bytes)

  /** The instants a timestamp reader reads. */
  function Instants(read: string -> Option<Stamp>): string -> Option<int> {
    text => match read(text) { case None => None case Some(stamp) => Some(stamp.utc) }
  }

  /**
   `verify_authenticated_submission` up to, and not including, the nonce claim. `read` is the timestamp reader; the
   zone it reads is kept, and a timestamp without one is taken as UTC.
  */
  function Verify(p: Platform, read: string -> Option<Stamp>, e: Envelope, r: Registry, now: int, skew: nat)
    : (verified: Result<Verified, SubmissionError>)
    ensures verified.Ok? ==> ValidStamp(verified.value.stamp)
  {
    if At(e, "schema_version") != Str(SCHEMA_VERSION) then Err(EnvelopeSchema)
    else if !HasSignedFields(e) || "producer_signature" !in e then Err(EnvelopeSchema)
    else if At(e, "producer_registry_identity") != Str(r.sha256) then Err(RegistryIdentityMismatch)
    else if !At(e, "producer_id").Str? || !At(e, "route_id").Str? || !At(e, "submission_type").Str?
            || !At(e, "subject_agent_id").Str? then Err(NonStringField)
    else
      match Resolve(r, Instants(read), At(e, "producer_id").s, At(e, "route_id").s, At(e, "submission_type").s,
                    At(e, "subject_agent_id").s, now)
      case Err(error) => Err(RegistryRejected(error))
      case Ok(entry) =>
        var digest := EnvelopeDigest(p, e);
        if !At(e, "producer_signature").Str? then Err(NonStringField)
        else if !p.verify(entry.publicKey, At(e, "producer_signature").s, digest) then Err(SignatureFailed)
        else if !At(e, "timestamp").Str? || !At(e, "nonce").Str? then Err(NonStringField)
        else
          match read(At(e, "timestamp").s)
          case None => Err(TimestampWindow)
          case Some(stamp) =>
            if !ValidStamp(stamp) || stamp.utc > now + skew || stamp.utc < now - skew then Err(TimestampWindow)
            else Ok(Verified(entry, At(e, "nonce").s, stamp, digest))
  }

  /** Agreement on every signed field. */
  predicate SameSignedFields(e: Envelope, f: Envelope)
    requires HasSignedFields(e) && HasSignedFields(f)
  {
    forall k :: k in SIGNED_FIELDS ==> e[k] == f[k]
  }

  lemma SameViewSameFields(e: Envelope, f: Envelope)
    requires HasSignedFields(e) && HasSignedFields(f)
    ensures SignedView(e) == SignedView(f) <==> SameSignedFields(e, f)
  {
    if SignedView(e) == SignedView(f) {
      forall k | k in SIGNED_FIELDS ensures e[k] == f[k] {
        assert SignedView(e).fields[k] == e[k] && SignedView(f).fields[k] == f[k];
      }
    }
  }

  /** A producer signed this digest as the digest of this envelope. */
  predicate IsDigestOf(p: Platform, m: Bytes, e: Envelope) {
    HasSignedFields(e) && m == EnvelopeDigest(p, e)
  }

  /**
   Tamper evidence: when the producer's key only ever signed envelopes in `produced`, an accepted envelope agrees with
   one of them on every signed field, whatever else it carries, or their signed views collide.
  */
  lemma AcceptedWasSigned(p: Platform, read: string -> Option<Stamp>, e: Envelope, r: Registry, now: int, skew: nat,
                          signed: iset<Bytes>, produced: set<Envelope>) returns (origin: Envelope)
    requires Verify(p, read, e, r, now, skew).Ok?
    requires OnlySigned(p, Verify(p, read, e, r, now, skew).value.entry.publicKey, signed)
    requires forall m :: m in signed ==> exists f :: f in produced && IsDigestOf(p, m, f)
    ensures HasSignedFields(e) && origin in produced && HasSignedFields(origin)
    ensures SameSignedFields(e, origin)
            || Collision(p, Canonical(SignedView(e)), Canonical(SignedView(origin)))
  {
    var digest := EnvelopeDigest(p, e);
    assert p.verify(Verify(p, read, e, r, now, skew).value.entry.publicKey, At(e, "producer_signature").s, digest);
    assert digest in signed;
    origin :| origin in produced && IsDigestOf(p, digest, origin);
    CanonicalInjective(SignedView(e), SignedView(origin));
    SameViewSameFields(e, origin);
  }

  /** Both envelopes hold the field, with the same value. */
  predicate AgreeAt(e: Envelope, f: Envelope, k: string) {
    k in e && k in f && e[k] == f[k]
  }

  /**
   The same by name: an accepted envelope and the signed one hold each of the fifteen fields with one value, or their
   signed views collide.
  */
  lemma AcceptedFieldsWereSigned(p: Platform, read: string -> Option<Stamp>, e: Envelope, r: Registry, now: int,
                                 skew: nat, signed: iset<Bytes>, produced: set<Envelope>)
    returns (origin: Envelope)
    requires Verify(p, read, e, r, now, skew).Ok?
    requires OnlySigned(p, Verify(p, read, e, r, now, skew).value.entry.publicKey, signed)
    requires forall m :: m in signed ==> exists f :: f in produced && IsDigestOf(p, m, f)
    ensures origin in produced && HasSignedFields(e) && HasSignedFields(origin)
    ensures Collision(p, Canonical(SignedView(e)), Canonical(SignedView(origin)))
            || (AgreeAt(e, origin, "schema_version") && AgreeAt(e, origin, "submission_id")
                && AgreeAt(e, origin, "producer_id") && AgreeAt(e, origin, "subject_agent_id")
                && AgreeAt(e, origin, "submission_type") && AgreeAt(e, origin, "route_id")
                && AgreeAt(e, origin, "request_id") && AgreeAt(e, origin, "canonical_payload_digest")
                && AgreeAt(e, origin, "source_evidence_digest") && AgreeAt(e, origin, "verdict")
                && AgreeAt(e, origin, "reason_code") && AgreeAt(e, origin, "timestamp") && AgreeAt(e, origin, "nonce")
                && AgreeAt(e, origin, "producer_registry_identity") && AgreeAt(e, origin, "authority_scope"))
  {
    origin := AcceptedWasSigned(p, read, e, r, now, skew, signed, produced);
    hide *;
    if SameSignedFields(e, origin) {
      AgreeByName(e, origin);
      AgreeAtFirst(e, origin);
      AgreeAtLast(e, origin);
    }
  }

  lemma AgreeByName(e: Envelope, f: Envelope)
    requires HasSignedFields(e) && HasSignedFields(f) && SameSignedFields(e, f)
    ensures forall k :: Named(k) ==> AgreeAt(e, f, k)
  {
    hide Named;
    forall k | Named(k) ensures AgreeAt(e, f, k) { SignedFieldsAre(k); }
  }

  lemma AgreeAtFirst(e: Envelope, f: Envelope)
    requires forall k :: Named(k) ==> AgreeAt(e, f, k)
    ensures AgreeAt(e, f, "schema_version") && AgreeAt(e, f, "submission_id") && AgreeAt(e, f, "producer_id")
    ensures AgreeAt(e, f, "subject_agent_id") && AgreeAt(e, f, "submission_type") && AgreeAt(e, f, "route_id")
    ensures AgreeAt(e, f, "request_id")
  {
    FirstAreNamed();
    hide *;
  }

  lemma AgreeAtLast(e: Envelope, f: Envelope)
    requires forall k :: Named(k) ==> AgreeAt(e, f, k)
    ensures AgreeAt(e, f, "canonical_payload_digest") && AgreeAt(e, f, "source_evidence_digest")
    ensures AgreeAt(e, f, "verdict") && AgreeAt(e, f, "reason_code") && AgreeAt(e, f, "timestamp")
    ensures AgreeAt(e, f, "nonce") && AgreeAt(e, f, "producer_registry_identity") && AgreeAt(e, f, "authority_scope")
  {
    LastAreNamed();
    hide *;
  }

  lemma FirstAreNamed()
    ensures Named("schema_version") && Named("submission_id") && Named("producer_id") && Named("subject_agent_id")
    ensures Named("submission_type") && Named("route_id") && Named("request_id")
  {
  }

  lemma LastAreNamed()
    ensures Named("canonical_payload_digest") && Named("source_evidence_digest") && Named("verdict")
    ensures Named("reason_code") && Named("timestamp") && Named("nonce") && Named("producer_registry_identity")
    ensures Named("authority_scope")
  {
  }

  /**
   An envelope changed in any one of the fifteen after it was signed is not accepted, unless the producer's key signed
   an envelope with the changed value too, or the views collide.
  */
  lemma ChangedFieldNeedsSignature(p: Platform, read: string -> Option<Stamp>, e: Envelope, k: string, v: Json,
                                   r: Registry, now: int, skew: nat, signed: iset<Bytes>, produced: set<Envelope>)
    returns (origin: Envelope)
    requires Named(k) && Verify(p, read, e[k := v], r, now, skew).Ok?
    requires OnlySigned(p, Verify(p, read, e[k := v], r, now, skew).value.entry.publicKey, signed)
    requires forall m :: m in signed ==> exists f :: f in produced && IsDigestOf(p, m, f)
    ensures origin in produced && HasSignedFields(e[k := v]) && HasSignedFields(origin)
    ensures Collision(p, Canonical(SignedView(e[k := v])), Canonical(SignedView(origin)))
            || (k in origin && origin[k] == v)
  {
    origin := AcceptedWasSigned(p, read, e[k := v], r, now, skew, signed, produced);
    if SameSignedFields(e[k := v], origin) { AgreeByName(e[k := v], origin); }
    hide Verify, HasSignedFields, SameSignedFields, OnlySigned, IsDigestOf, Named, Canonical;
  }

  /** So when only `e` was ever signed, no change of a field of it is accepted without a collision. */
  lemma ChangedFieldIsRefused(p: Platform, read: string -> Option<Stamp>, e: Envelope, k: string, v: Json,
                              r: Registry, now: int, skew: nat, signed: iset<Bytes>)
    requires Named(k) && HasSignedFields(e) && k in e && e[k] != v
    requires forall m :: m in signed ==> IsDigestOf(p, m, e)
    ensures var changed := e[k := v];
            var result := Verify(p, read, changed, r, now, skew);
            result.Ok? && OnlySigned(p, result.value.entry.publicKey, signed) ==>
              HasSignedFields(changed) && Collision(p, Canonical(SignedView(changed)), Canonical(SignedView(e)))
  {
    hide Verify, HasSignedFields, Named, OnlySigned, IsDigestOf, Canonical;
    var result := Verify(p, read, e[k := v], r, now, skew);
    if result.Ok? && OnlySigned(p, result.value.entry.publicKey, signed) {
      var origin := ChangedFieldNeedsSignature(p, read, e, k, v, r, now, skew, signed, {e});
    }
  }

  lemma SignatureIsNotSigned(e: Envelope, signature: Json)
    requires HasSignedFields(e)
    ensures var sent := e["producer_signature" := signature];
            HasSignedFields(sent) && SignedView(sent) == SignedView(e)
  {
    assert "producer_signature" !in SIGNED_FIELDS;
    SameViewSameFields(e, e["producer_signature" := signature]);
  }

  lemma ResolvedFromIndex(r: Registry, read: string -> Option<Stamp>, e: Envelope, now: int)
    requires At(e, "producer_id").Str? && At(e, "route_id").Str? && At(e, "submission_type").Str?
             && At(e, "subject_agent_id").Str?
    ensures var result := Resolve(r, Instants(read), At(e, "producer_id").s, At(e, "route_id").s,
                                  At(e, "submission_type").s, At(e, "subject_agent_id").s, now);
            result.Ok? ==> At(e, "producer_id").s in r.byId && r.byId[At(e, "producer_id").s] == result.value
  {
  }

  /** Round trip: an envelope signed with the registered key's private half never fails the signature check. */
  lemma SignedVerifies(p: Platform, read: string -> Option<Stamp>, e: Envelope, r: Registry, now: int, skew: nat,
                       privateKey: string)
    requires AcceptsOwnSignatures(p) && HasSignedFields(e)
    requires At(e, "producer_id").Str? ==>
               var id := At(e, "producer_id").s;
               id in r.byId ==> r.byId[id].publicKey == p.publicOf(privateKey)
    ensures Verify(p, read, e["producer_signature" := Str(SignEnvelope(p, privateKey, e))], r, now, skew)
            != Err(SignatureFailed)
  {
    var sent := e["producer_signature" := Str(SignEnvelope(p, privateKey, e))];
    SignatureIsNotSigned(e, sent["producer_signature"]);
    assert EnvelopeDigest(p, sent) == EnvelopeDigest(p, e);
    hide EnvelopeDigest, HasSignedFields, Resolve;
    assert p.verify(p.publicOf(privateKey), At(sent, "producer_signature").s, EnvelopeDigest(p, sent));
    assert At(sent, "producer_id") == At(e, "producer_id");
    if At(sent, "producer_id").Str? && At(sent, "route_id").Str? && At(sent, "submission_type").Str?
       && At(sent, "subject_agent_id").Str?
    {
      ResolvedFromIndex(r, read, sent, now);
    }
  }

  /** What acceptance says about the envelope itself. */
  lemma VerifiedFacts(p: Platform, read: string -> Option<Stamp>, e: Envelope, r: Registry, now: int, skew: nat)
    requires Verify(p, read, e, r, now, skew).Ok?
    ensures var v := Verify(p, read, e, r, now, skew).value;
            && HasSignedFields(e)
            && At(e, "producer_id").Str? && At(e, "producer_id").s in r.byId
              && r.byId[At(e, "producer_id").s] == v.entry
            && At(e, "nonce") == Str(v.nonce)
            && At(e, "timestamp").Str? && read(At(e, "timestamp").s) == Some(v.stamp)
            && ValidStamp(v.stamp) && now - skew <= v.stamp.utc <= now + skew
  {
  }

  /** Having the signed fields is having the fifteen. */
  lemma SignedFieldsPresentIff(e: Envelope)
    ensures HasSignedFields(e) <==> forall k :: Named(k) ==> k in e
  {
    if HasSignedFields(e) {
      forall k | Named(k) ensures k in e { SignedFieldsAre(k); }
    }
    if forall k :: Named(k) ==> k in e {
      forall k | k in SIGNED_FIELDS ensures k in e { SignedFieldsAre(k); }
    }
  }

  predicate StringFields(e: Envelope) {
    && At(e, "producer_id").Str? && At(e, "route_id").Str? && At(e, "submission_type").Str?
    && At(e, "subject_agent_id").Str? && At(e, "producer_signature").Str? && At(e, "timestamp").Str?
    && At(e, "nonce").Str?
  }

  /** A complete envelope of this schema, for the pinned registry. */
  predicate Complete(e: Envelope, r: Registry) {
    && At(e, "schema_version") == Str(SCHEMA_VERSION) && HasSignedFields(e) && "producer_signature" in e
    && At(e, "producer_registry_identity") == Str(r.sha256) && StringFields(e)
  }

  /** The signature is the registered producer's, over the signed view. */
  predicate SignedBy(p: Platform, e: Envelope, entry: Entry)
    requires HasSignedFields(e) && StringFields(e)
  {
    p.verify(entry.publicKey, At(e, "producer_signature").s, EnvelopeDigest(p, e))
  }

  predicate InScope(read: string -> Option<Stamp>, e: Envelope, r: Registry, now: int, entry: Entry)
    requires StringFields(e)
  {
    var id := At(e, "producer_id").s;
    && id in r.byId && r.byId[id] == entry
    && Authorizes(entry, Instants(read), At(e, "route_id").s, At(e, "submission_type").s, At(e, "subject_agent_id").s,
                  now)
  }

  predicate InWindow(read: string -> Option<Stamp>, e: Envelope, now: int, skew: nat, stamp: Stamp)
    requires StringFields(e)
  {
    read(At(e, "timestamp").s) == Some(stamp) && ValidStamp(stamp) && now - skew <= stamp.utc <= now + skew
  }

  /**
   An envelope passes exactly when it is complete, in scope, signed and in the window; the checks' order is
   immaterial.
  */
  lemma VerifiedIff(p: Platform, read: string -> Option<Stamp>, e: Envelope, r: Registry, now: int, skew: nat,
                    v: Verified)
    ensures Verify(p, read, e, r, now, skew) == Ok(v) <==>
            && Complete(e, r) && InScope(read, e, r, now, v.entry) && SignedBy(p, e, v.entry)
            && InWindow(read, e, now, skew, v.stamp)
            && v.nonce == At(e, "nonce").s && v.digest == EnvelopeDigest(p, e)
  {
    hide EnvelopeDigest, HasSignedFields, Resolve, Authorizes, Instants;
    if At(e, "producer_id").Str? && At(e, "route_id").Str? && At(e, "submission_type").Str?
       && At(e, "subject_agent_id").Str?
    {
      var id, route, kind := At(e, "producer_id").s, At(e, "route_id").s, At(e, "submission_type").s;
      ResolvedIff(r, Instants(read), id, route, kind, At(e, "subject_agent_id").s, now, v.entry);
    }
  }
}
