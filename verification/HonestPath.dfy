/**
 The other half of PathC's safety: exactly when each route writes, and that a client that follows the rules gets from a
 request body to a verified receipt.
*/
module HonestPath {
  import opened Text
  import opened Utf8
  import opened JsonValue
  import opened Jsonl
  import opened CanonicalJson
  import opened Crypto
  import opened WriteOnce
  import opened EvaluationStore
  import opened PathC
  import Commitment
  import Receipts

  // ----- what an honest client commits to -----

  /** SHA-256 digests are 32 bytes (FIPS 180-4, section 1). */
  ghost predicate DigestsAre32Bytes(p: Platform) {
    forall b :: |p.sha256(b)| == 32
  }

  /** The client's own choices in the two sub-objects. */
  datatype Terms = Terms(
    verb: string, target: map<string, Json>, contentType: string, agentId: string, actionType: string,
    idempotencyKey: string)

  predicate Complete(t: Terms) {
    t.verb != "" && t.contentType != "" && t.agentId != "" && t.actionType != "" && t.idempotencyKey != ""
  }

  function RequestJson(t: Terms, bodyDigest: string): Json {
    Obj(map["schema_id" := Str(Commitment.ACTION_REQUEST_SCHEMA_ID), "method" := Str(t.verb),
            "target" := Obj(t.target), "content_type" := Str(t.contentType), "body_digest" := Str(bodyDigest)])
  }

  function ActionJson(t: Terms, requestDigest: string): Json {
    Obj(map["schema_id" := Str(Commitment.ACTION_COMMITMENT_SCHEMA_ID), "agent_id" := Str(t.agentId),
            "action_type" := Str(t.actionType), "request_digest" := Str(requestDigest),
            "idempotency_key" := Str(t.idempotencyKey)])
  }

  function RecordOf(body: Json, request: Json, action: Json, ref: string): Json {
    Obj(map["record_type" := Str(Commitment.RECORD_TYPE), "record_version" := Str(Commitment.RECORD_VERSION),
            "request_body" := body, "action_request_commitment" := request, "action_commitment" := action,
            "action_ref" := Str(ref)])
  }

  function RequestOf(p: Platform, body: Json, t: Terms): Json {
    RequestJson(t, Digest(p, body))
  }

  function ActionOf(p: Platform, body: Json, t: Terms): Json {
    ActionJson(t, Digest(p, RequestOf(p, body, t)))
  }

  function ActionRef(p: Platform, body: Json, t: Terms): string {
    Digest(p, ActionOf(p, body, t))
  }

  function HonestRecord(p: Platform, body: Json, t: Terms): Json {
    RecordOf(body, RequestOf(p, body, t), ActionOf(p, body, t), ActionRef(p, body, t))
  }

  lemma {:induction false} HexForm(b: Bytes)
    ensures |Hex(b)| == 2 * |b| && forall i :: 0 <= i < |Hex(b)| ==> IsHexDigit(Hex(b)[i])
  {
    if |b| > 0 { HexForm(b[1..]); }
  }

  lemma DigestForm(p: Platform, v: Json)
    requires DigestsAre32Bytes(p)
    ensures IsSha256Text(Digest(p, v))
  {
    hide Canonical;
    HexForm(p.sha256(Canonical(v)));
    var d := Digest(p, v);
    assert |SHA256_PREFIX| == 7 && d[..7] == SHA256_PREFIX;
    forall i | 7 <= i < 71 ensures IsHexDigit(d[i]) { assert d[i] == Hex(p.sha256(Canonical(v)))[i - 7]; }
  }

  lemma RequestParts(t: Terms, digest: string)
    ensures var r := RequestJson(t, digest);
            && r.Obj? && r.Get("schema_id") == Str(Commitment.ACTION_REQUEST_SCHEMA_ID)
            && r.Get("method") == Str(t.verb) && r.Get("target") == Obj(t.target)
            && r.Get("content_type") == Str(t.contentType) && r.Get("body_digest") == Str(digest)
  {
  }

  lemma ActionParts(t: Terms, digest: string)
    ensures var a := ActionJson(t, digest);
            && a.Obj? && a.Get("schema_id") == Str(Commitment.ACTION_COMMITMENT_SCHEMA_ID)
            && a.Get("agent_id") == Str(t.agentId) && a.Get("action_type") == Str(t.actionType)
            && a.Get("request_digest") == Str(digest) && a.Get("idempotency_key") == Str(t.idempotencyKey)
  {
  }

  lemma RecordParts(body: Json, request: Json, action: Json, ref: string)
    ensures var r := RecordOf(body, request, action, ref);
            && r.Obj? && r.Get("record_type") == Str(Commitment.RECORD_TYPE)
            && r.Get("record_version") == Str(Commitment.RECORD_VERSION) && r.Get("request_body") == body
            && r.Get("action_request_commitment") == request && r.Get("action_commitment") == action
            && r.Get("action_ref") == Str(ref)
  {
  }

  /** Completeness of the check: the record computed from any request body is valid, under the digest it ends in. */
  lemma HonestRecordIsValid(p: Platform, body: Json, t: Terms)
    requires DigestsAre32Bytes(p) && Complete(t) && body.Obj?
    ensures Commitment.Validate(p, HonestRecord(p, body, t)) == Some(ActionRef(p, body, t))
  {
    hide Digest, IsSha256Text, RecordOf, RequestJson, ActionJson, Json.Get;
    var request, action := RequestOf(p, body, t), ActionOf(p, body, t);
    RequestParts(t, Digest(p, body));
    ActionParts(t, Digest(p, request));
    DigestForm(p, body);
    DigestForm(p, request);
    DigestForm(p, action);
    RecordParts(body, request, action, ActionRef(p, body, t));
  }

  // ----- exactly when a route writes -----

  predicate HasKey(policy: Policy, records: seq<Json>, key: string) {
    exists i :: 0 <= i < |records| && policy.validate(records[i]) == Some(key)
  }

  /** A lookup by a well-formed key finds a record exactly when the ledger is readable and holds the key. */
  lemma LookupFindsIff(policy: Policy, records: seq<Json>, key: string)
    requires Lawful(policy) && OnePerKey(policy, records) && policy.validKey(key)
    ensures Readable(records) ==>
              Lookup(policy, records, key).Some?
              && (Lookup(policy, records, key).value.Some? <==> HasKey(policy, records, key))
  {
    if Readable(records) {
      if HasKey(policy, records, key) {
        var i :| 0 <= i < |records| && policy.validate(records[i]) == Some(key);
        LatestOfStored(policy, records, i);
      }
      if Lookup(policy, records, key).value.Some? {
        var i := Found(policy, records, key);
      }
    }
  }

  predicate Wrote(response: Response) {
    response.Done200? && response.stored
  }

  /**
   The record a stored commitment calls for on an output can be built: its spec and policy do not crash the evaluator.
  */
  predicate Buildable(p: Platform, s: State, ref: string, output: Json) {
    exists i :: 0 <= i < |s.commitments| && Commitment.Validate(p, s.commitments[i]) == Some(ref)
                && BuildRecord(p, ref, s.commitments[i], output).Some?
  }

  lemma CommitWritesIff(p: Platform, s: State, record: Json)
    requires Invariant(p, s)
    ensures Wrote(CommitSpec(p, s, record).1) <==>
            Commitment.Validate(p, record).Some? && Readable(s.commitments)
            && !HasKey(Commitment.Store(p), s.commitments, Commitment.Validate(p, record).value)
  {
    Commitment.StoreLawful(p);
    hide Commitment.Validate, EvaluationsFollow, ReceiptsAttest, StoreSpec;
    WritesIff(Commitment.Store(p), s.commitments, record);
  }

  /** The evaluation route writes exactly for an unevaluated ref whose commitment can be evaluated. */
  lemma EvaluateWritesIff(p: Platform, s: State, ref: string, output: Json)
    requires Invariant(p, s)
    ensures Wrote(EvaluateSpecRoute(p, s, ref, output).1) <==>
            && Buildable(p, s, ref, output) && Readable(s.commitments) && Readable(s.evaluations)
            && !HasKey(STORE, s.evaluations, ref)
  {
    hide Invariant, EvaluateSpecRoute, Buildable, HasKey, Readable;
    if Wrote(EvaluateSpecRoute(p, s, ref, output).1) {
      WhenEvaluationWritten(p, s, ref, output);
    }
    if Buildable(p, s, ref, output) && Readable(s.commitments) && Readable(s.evaluations)
       && !HasKey(STORE, s.evaluations, ref) {
      var i := EvaluationIsWritten(p, s, ref, output);
    }
  }

  lemma WhenEvaluationWritten(p: Platform, s: State, ref: string, output: Json)
    requires Invariant(p, s) && Wrote(EvaluateSpecRoute(p, s, ref, output).1)
    ensures Buildable(p, s, ref, output) && Readable(s.commitments) && Readable(s.evaluations)
    ensures !HasKey(STORE, s.evaluations, ref)
  {
    Commitment.StoreLawful(p);
    StoreLawful();
    hide Commitment.Validate, EvaluationStore.Validate, EvaluationsFollow, ReceiptsAttest, StoreSpec, BuildRecord,
      ToJson, OnePerKey, IsSha256Text;
    var i := Found(Commitment.Store(p), s.commitments, ref);
    var c := s.commitments[i];
    StoredRefHasForm(p, c);
    BuiltFollows(p, c, output);
    WritesIff(STORE, s.evaluations, ToJson(BuildRecord(p, ref, c, output).value));
  }

  /** The record a first evaluation writes. */
  lemma EvaluationIsWritten(p: Platform, s: State, ref: string, output: Json) returns (i: nat)
    requires Invariant(p, s) && Buildable(p, s, ref, output)
    requires Readable(s.commitments) && Readable(s.evaluations) && !HasKey(STORE, s.evaluations, ref)
    ensures i < |s.commitments| && BuildRecord(p, ref, s.commitments[i], output).Some?
    ensures Commitment.Validate(p, s.commitments[i]) == Some(ref)
    ensures var record := ToJson(BuildRecord(p, ref, s.commitments[i], output).value);
            && FollowsFrom(p, record, s.commitments[i])
            && EvaluateSpecRoute(p, s, ref, output)
               == (s.(evaluations := s.evaluations + [record]), Done200(true, record))
  {
    StoreLawful();
    hide Commitment.Validate, EvaluationStore.Validate, EvaluationsFollow, ReceiptsAttest, StoreSpec, BuildRecord,
      ToJson, OnePerKey, IsSha256Text, EvaluateSpecRoute, FollowsFrom;
    i :| 0 <= i < |s.commitments| && Commitment.Validate(p, s.commitments[i]) == Some(ref)
         && BuildRecord(p, ref, s.commitments[i], output).Some?;
    StoredRefHasForm(p, s.commitments[i]);
    BuiltFollows(p, s.commitments[i], output);
    RouteUnderCommitment(p, s, i, ref, output);
    var record := ToJson(BuildRecord(p, ref, s.commitments[i], output).value);
    WritesIff(STORE, s.evaluations, record);
    StoreAppends(STORE, s.evaluations, record);
  }

  /** Every evaluation that passed the store's check can be signed for, under a usable configuration. */
  lemma ReceiptCanBeMade(p: Platform, c: Receipts.Config, e: Json, at: string)
    requires AcceptsOwnSignatures(p) && EvaluationStore.Validate(e).Some?
    requires Receipts.IsAgentId(c.evaluatorId) && !Receipts.Blank(c.policyRef)
    ensures NewReceipt(p, c, EvaluationStore.Validate(e).value, e, at).Some? <==> !Receipts.Blank(at)
  {
    var ref, reason := EvaluationStore.Validate(e).value, ReasonOf(e);
    CoreCanBeBuilt(c, e, at);
    hide EvaluationStore.Validate, Receipts.BuildCore, Receipts.CoreJson, Receipts.VerifyReceipt,
      Receipts.SignatureBlock, Receipts.IsAgentId, Receipts.Blank, ReasonOf;
    if !Receipts.Blank(at) {
      Receipts.CoreFields(ref, e.Get("result").s, c, at, reason);
      Receipts.SignedVerifies(p, c, Receipts.CoreJson(ref, e.Get("result").s, c, at, reason));
    }
  }

  lemma CoreCanBeBuilt(c: Receipts.Config, e: Json, at: string)
    requires EvaluationStore.Validate(e).Some?
    requires Receipts.IsAgentId(c.evaluatorId) && !Receipts.Blank(c.policyRef)
    ensures e.Get("result").Str?
    ensures var ref, reason := EvaluationStore.Validate(e).value, ReasonOf(e);
            Receipts.BuildCore(ref, e.Get("result"), c, at, reason)
            == if Receipts.Blank(at) then None else Some(Receipts.CoreJson(ref, e.Get("result").s, c, at, reason))
  {
    CheckedEvaluation(e);
    hide EvaluationStore.Validate, Receipts.IsAgentId, Receipts.Blank, IsSha256Text, Receipts.CoreJson,
      Receipts.IsState, ReasonOf;
  }

  lemma CheckedEvaluation(e: Json)
    requires EvaluationStore.Validate(e).Some?
    ensures IsSha256Text(EvaluationStore.Validate(e).value)
    ensures e.Get("result").Str? && Receipts.IsState(e.Get("result").s)
    ensures ReasonOf(e) != Some("")
  {
  }

  lemma ConfigUsable(p: Platform, env: Receipts.Environment)
    requires Receipts.LoadConfig(p, env).Some?
    ensures var c := Receipts.LoadConfig(p, env).value;
            Receipts.IsAgentId(c.evaluatorId) && !Receipts.Blank(c.policyRef)
  {
    hide Receipts.IsAgentId, Receipts.Blank;
  }

  /** The receipt a first issue writes. */
  predicate Issues(p: Platform, s: State, ref: string, env: Receipts.Environment, at: string, e: Json)
    requires Receipts.LoadConfig(p, env).Some?
  {
    var receipt := NewReceipt(p, Receipts.LoadConfig(p, env).value, ref, e, at);
    && receipt.Some? && Attests(p, receipt.value, e)
    && IssueSpec(p, s, ref, env, at) == (s.(receipts := s.receipts + [receipt.value]), Done200(true, receipt.value))
  }

  /**
   The receipt route writes exactly for an evaluated ref without a receipt, under a usable configuration and clock.
  */
  lemma IssueWritesIff(p: Platform, s: State, ref: string, env: Receipts.Environment, at: string)
    requires Invariant(p, s) && AcceptsOwnSignatures(p)
    ensures Wrote(IssueSpec(p, s, ref, env, at).1) <==>
            && HasKey(STORE, s.evaluations, ref) && !HasKey(Receipts.STORE, s.receipts, ref)
            && Readable(s.evaluations) && Readable(s.receipts)
            && Receipts.LoadConfig(p, env).Some? && !Receipts.Blank(at)
  {
    hide Invariant, IssueSpec, HasKey, Readable, Receipts.LoadConfig, Receipts.Blank, Attests, NewReceipt;
    if Wrote(IssueSpec(p, s, ref, env, at).1) {
      WhenReceiptWritten(p, s, ref, env, at);
    }
    if HasKey(STORE, s.evaluations, ref) && !HasKey(Receipts.STORE, s.receipts, ref) && Readable(s.evaluations)
       && Readable(s.receipts) && Receipts.LoadConfig(p, env).Some? && !Receipts.Blank(at) {
      var i := ReceiptIsWritten(p, s, ref, env, at);
    }
  }

  lemma WhenReceiptWritten(p: Platform, s: State, ref: string, env: Receipts.Environment, at: string)
    requires Invariant(p, s) && AcceptsOwnSignatures(p) && Wrote(IssueSpec(p, s, ref, env, at).1)
    ensures HasKey(STORE, s.evaluations, ref) && !HasKey(Receipts.STORE, s.receipts, ref)
    ensures Readable(s.evaluations) && Readable(s.receipts)
    ensures Receipts.LoadConfig(p, env).Some? && !Receipts.Blank(at)
  {
    StoreLawful();
    Receipts.StoreLawful();
    hide EvaluationStore.Validate, Receipts.Validate, EvaluationsFollow, ReceiptsAttest, StoreSpec, NewReceipt,
      Receipts.LoadConfig, Receipts.Blank, OnePerKey, IsSha256Text, Latest;
    var i := Found(STORE, s.evaluations, ref);
    LookupFindsIff(Receipts.STORE, s.receipts, ref);
    ConfigUsable(p, env);
    ReceiptCanBeMade(p, Receipts.LoadConfig(p, env).value, s.evaluations[i], at);
  }

  lemma ReceiptIsWritten(p: Platform, s: State, ref: string, env: Receipts.Environment, at: string) returns (i: nat)
    requires Invariant(p, s) && AcceptsOwnSignatures(p)
    requires HasKey(STORE, s.evaluations, ref) && !HasKey(Receipts.STORE, s.receipts, ref)
    requires Readable(s.evaluations) && Readable(s.receipts)
    requires Receipts.LoadConfig(p, env).Some? && !Receipts.Blank(at)
    ensures i < |s.evaluations| && EvaluationStore.Validate(s.evaluations[i]) == Some(ref)
    ensures Issues(p, s, ref, env, at, s.evaluations[i])
  {
    StoreLawful();
    Receipts.StoreLawful();
    hide EvaluationStore.Validate, Receipts.Validate, EvaluationsFollow, ReceiptsAttest, StoreSpec, NewReceipt,
      Receipts.LoadConfig, Receipts.Blank, OnePerKey, IsSha256Text, Latest, Attests, Readable, Lookup;
    i :| 0 <= i < |s.evaluations| && STORE.validate(s.evaluations[i]) == Some(ref);
    var e, c := s.evaluations[i], Receipts.LoadConfig(p, env).value;
    StoredLookup(STORE, s.evaluations, i, ref);
    LookupFindsIff(Receipts.STORE, s.receipts, ref);
    ConfigUsable(p, env);
    ReceiptCanBeMade(p, c, e, at);
    NewAttests(p, c, e, at);
    var receipt := NewReceipt(p, c, ref, e, at).value;
    AttestedKey(p, receipt, e);
    WritesIff(Receipts.STORE, s.receipts, receipt);
    StoreAppends(Receipts.STORE, s.receipts, receipt);
  }

  // ----- exactly when a route refuses -----

  /** A commit is answered by the shape check, the readability of the ledger, and the record already under the key. */
  lemma CommitAnswers(p: Platform, s: State, record: Json)
    requires Invariant(p, s)
    ensures var response, key := CommitSpec(p, s, record).1, Commitment.Validate(p, record);
            && (response == Unprocessable422 <==> key.None?)
            && (response == Crashed500 <==> key.Some? && !Readable(s.commitments))
            && (response == Done200(false, record) <==>
                key.Some? && Readable(s.commitments) && record in s.commitments)
            && (response == Conflict409 <==>
                key.Some? && Readable(s.commitments) && record !in s.commitments
                && HasKey(Commitment.Store(p), s.commitments, key.value))
  {
    Commitment.StoreLawful(p);
    hide Commitment.Validate, EvaluationsFollow, ReceiptsAttest, StoreSpec, Readable;
    OutcomeIff(Commitment.Store(p), s.commitments, record);
  }

  /** Evaluating: a malformed ref is a 422, a ref nobody committed a 404, and there is no 503. */
  lemma EvaluateRefusals(p: Platform, s: State, ref: string, output: Json)
    requires Invariant(p, s)
    ensures var response := EvaluateSpecRoute(p, s, ref, output).1;
            && (response == Unprocessable422 <==> !IsSha256Text(ref))
            && (response == NotFound404 <==>
                IsSha256Text(ref) && Readable(s.commitments) && !HasKey(Commitment.Store(p), s.commitments, ref))
            && (response == Crashed500 <==>
                IsSha256Text(ref)
                && (!Readable(s.commitments)
                    || (HasKey(Commitment.Store(p), s.commitments, ref)
                        && (!Buildable(p, s, ref, output) || !Readable(s.evaluations)))))
            && response != Unavailable503
  {
    Commitment.StoreLawful(p);
    hide Commitment.Validate, EvaluationStore.Validate, EvaluationsFollow, ReceiptsAttest, OnePerKey, BuildRecord,
      ToJson, IsSha256Text, StoreSpec, Latest, Readable;
    if IsSha256Text(ref) {
      LookupFindsIff(Commitment.Store(p), s.commitments, ref);
      if Readable(s.commitments) && HasKey(Commitment.Store(p), s.commitments, ref) {
        var i := Found(Commitment.Store(p), s.commitments, ref);
        OneCommitment(p, s, ref, output, i);
        if BuildRecord(p, ref, s.commitments[i], output).Some? {
          BuiltFollows(p, s.commitments[i], output);
          TakenUnlessUnreadable(s, ToJson(BuildRecord(p, ref, s.commitments[i], output).value));
        }
      }
    }
  }

  lemma OneCommitment(p: Platform, s: State, ref: string, output: Json, i: nat)
    requires Invariant(p, s) && i < |s.commitments| && Commitment.Validate(p, s.commitments[i]) == Some(ref)
    ensures Buildable(p, s, ref, output) <==> BuildRecord(p, ref, s.commitments[i], output).Some?
  {
    hide Commitment.Validate, EvaluationsFollow, ReceiptsAttest, BuildRecord;
    if j :| 0 <= j < |s.commitments| && Commitment.Validate(p, s.commitments[j]) == Some(ref)
            && BuildRecord(p, ref, s.commitments[j], output).Some?
    {
      OneHolder(Commitment.Store(p), s.commitments, i, j);
    }
  }

  /** A valid record is written, found again or refused for what is there; only an unreadable ledger crashes. */
  lemma TakenUnlessUnreadable(s: State, record: Json)
    requires EvaluationStore.Validate(record).Some?
    ensures StoreSpec(STORE, s.evaluations, record).1 != Invalid
    ensures StoreSpec(STORE, s.evaluations, record).1 == Unreadable <==> !Readable(s.evaluations)
  {
    StoreLawful();
    hide EvaluationStore.Validate, Readable, Latest, IsSha256Text;
  }

  /** Issuing: a malformed ref is a 422, an unevaluated one a 404, and a 503 means that no key can be loaded. */
  lemma IssueRefusals(p: Platform, s: State, ref: string, env: Receipts.Environment, at: string)
    requires Invariant(p, s)
    ensures var response := IssueSpec(p, s, ref, env, at).1;
            && (!IsSha256Text(ref) ==> response == Unprocessable422)
            && (response == NotFound404 <==>
                IsSha256Text(ref) && Readable(s.evaluations) && !HasKey(STORE, s.evaluations, ref))
            && (response == Unavailable503 <==>
                IsSha256Text(ref) && Readable(s.evaluations) && HasKey(STORE, s.evaluations, ref)
                && Readable(s.receipts) && !HasKey(Receipts.STORE, s.receipts, ref)
                && Receipts.LoadConfig(p, env).None?)
  {
    StoreLawful();
    Receipts.StoreLawful();
    hide EvaluationStore.Validate, Receipts.Validate, EvaluationsFollow, ReceiptsAttest, OnePerKey, NewReceipt,
      Receipts.LoadConfig, IsSha256Text, StoreSpec, Latest, Readable, HasKey;
    if IsSha256Text(ref) {
      LookupFindsIff(STORE, s.evaluations, ref);
      LookupFindsIff(Receipts.STORE, s.receipts, ref);
    }
  }

  lemma AttestedKey(p: Platform, r: Json, e: Json)
    requires Attests(p, r, e)
    ensures EvaluationStore.Validate(e).Some? && Receipts.Validate(r) == EvaluationStore.Validate(e)
  {
  }

  // ----- the whole path -----

  /** No ledger holds the ref, and all three read back. */
  predicate Fresh(p: Platform, s: State, ref: string) {
    && Readable(s.commitments) && Readable(s.evaluations) && Readable(s.receipts)
    && !HasKey(Commitment.Store(p), s.commitments, ref)
    && !HasKey(STORE, s.evaluations, ref) && !HasKey(Receipts.STORE, s.receipts, ref)
  }

  /** The evaluation record the route makes for an output under a commitment record. */
  predicate GoodOutput(p: Platform, ref: string, commitment: Json, output: Json) {
    var record := BuildRecord(p, ref, commitment, output);
    record.Some? && CleanValue(commitment) && CleanValue(ToJson(record.value))
  }

  /** The three answers of committing, evaluating and issuing, one after the other. */
  predicate AllWritten(p: Platform, s: State, ref: string, commitment: Json, output: Json, env: Receipts.Environment,
                       at: string)
  {
    var (s1, first) := CommitSpec(p, s, commitment);
    var (s2, second) := EvaluateSpecRoute(p, s1, ref, output);
    var (s3, third) := IssueSpec(p, s2, ref, env, at);
    && Wrote(first) && Wrote(second) && Wrote(third)
    && FollowsFrom(p, second.record, commitment) && second.record.Get("submitted_output") == output
    && Attests(p, third.record, second.record)
  }

  lemma OneHolder(policy: Policy, records: seq<Json>, i: nat, j: nat)
    requires OnePerKey(policy, records) && i < |records| && j < |records|
    requires policy.validate(records[i]) == policy.validate(records[j])
    ensures i == j
  {
  }

  /** Committing a fresh ref: the record is stored, and the ref is left unevaluated. */
  lemma CommitStep(p: Platform, s: State, ref: string, commitment: Json) returns (s1: State)
    requires Invariant(p, s) && Fresh(p, s, ref)
    requires Commitment.Validate(p, commitment) == Some(ref) && CleanValue(commitment)
    ensures s1 == s.(commitments := s.commitments + [commitment]) && Invariant(p, s1) && Readable(s1.commitments)
    ensures CommitSpec(p, s, commitment) == (s1, Done200(true, commitment))
  {
    hide Invariant, Commitment.Validate, CommitSpec, StoreSpec, HasKey, CleanValue, Readable;
    CommitKeeps(p, s, commitment);
    CommitWritesIff(p, s, commitment);
    CommitAppends(p, s, commitment);
    ReadableWithMore(s.commitments, commitment);
    s1 := s.(commitments := s.commitments + [commitment]);
  }

  lemma CommitAppends(p: Platform, s: State, commitment: Json)
    requires Wrote(CommitSpec(p, s, commitment).1)
    ensures CommitSpec(p, s, commitment)
            == (s.(commitments := s.commitments + [commitment]), Done200(true, commitment))
  {
    hide StoreSpec;
    StoreAppends(Commitment.Store(p), s.commitments, commitment);
  }

  lemma ReadableWithMore(records: seq<Json>, record: Json)
    requires Readable(records) && CleanValue(record)
    ensures Readable(records + [record])
  {
    hide CleanValue;
  }

  /** Evaluating the commitment just stored, whether or not the evaluation itself will read back. */
  lemma FirstEvaluation(p: Platform, s: State, ref: string, output: Json) returns (record: EvaluationRecord)
    requires Invariant(p, s) && |s.commitments| > 0 && Readable(s.commitments) && Readable(s.evaluations)
    requires var commitment := s.commitments[|s.commitments| - 1];
             Commitment.Validate(p, commitment) == Some(ref) && BuildRecord(p, ref, commitment, output).Some?
    requires !HasKey(STORE, s.evaluations, ref)
    ensures var commitment := s.commitments[|s.commitments| - 1];
            record == BuildRecord(p, ref, commitment, output).value && FollowsFrom(p, ToJson(record), commitment)
    ensures EvaluateSpecRoute(p, s, ref, output)
            == (s.(evaluations := s.evaluations + [ToJson(record)]), Done200(true, ToJson(record)))
  {
    var n := |s.commitments| - 1;
    hide Commitment.Validate, BuildRecord, ToJson, HasKey, EvaluateSpecRoute, FollowsFrom, EvaluationsFollow,
      ReceiptsAttest;
    assert Buildable(p, s, ref, output);
    var i := EvaluationIsWritten(p, s, ref, output);
    OneHolder(Commitment.Store(p), s.commitments, i, n);
    record := BuildRecord(p, ref, s.commitments[n], output).value;
  }

  /** Evaluating the commitment just stored, so that all ledgers still read back. */
  lemma EvaluateStep(p: Platform, s: State, ref: string, output: Json) returns (s2: State, record: Json)
    requires Invariant(p, s) && |s.commitments| > 0 && Readable(s.commitments) && Readable(s.evaluations)
    requires var commitment := s.commitments[|s.commitments| - 1];
             Commitment.Validate(p, commitment) == Some(ref) && GoodOutput(p, ref, commitment, output)
    requires !HasKey(STORE, s.evaluations, ref)
    ensures s2 == s.(evaluations := s.evaluations + [record]) && Invariant(p, s2) && Readable(s2.evaluations)
    ensures EvaluateSpecRoute(p, s, ref, output) == (s2, Done200(true, record))
    ensures FollowsFrom(p, record, s.commitments[|s.commitments| - 1]) && record.Get("submitted_output") == output
  {
    hide Commitment.Validate, BuildRecord, ToJson, HasKey, EvaluateSpecRoute, FollowsFrom, Invariant, Readable,
      CleanValue;
    var built := FirstEvaluation(p, s, ref, output);
    record := ToJson(built);
    EvaluateKeeps(p, s, ref, output);
    OutputRecorded(p, ref, s.commitments[|s.commitments| - 1], output);
    ReadableWithMore(s.evaluations, record);
    s2 := s.(evaluations := s.evaluations + [record]);
  }

  lemma OutputRecorded(p: Platform, ref: string, commitment: Json, output: Json)
    requires BuildRecord(p, ref, commitment, output).Some?
    ensures ToJson(BuildRecord(p, ref, commitment, output).value).Get("submitted_output") == output
  {
    var record := BuildRecord(p, ref, commitment, output).value;
    assert record.output == output;
    hide ToJson, BuildRecord;
    RecordFields(record);
  }

  /** Issuing the receipt of the evaluation just stored. */
  lemma IssueStep(p: Platform, s: State, ref: string, env: Receipts.Environment, at: string)
    requires Invariant(p, s) && AcceptsOwnSignatures(p)
    requires |s.evaluations| > 0 && EvaluationStore.Validate(s.evaluations[|s.evaluations| - 1]) == Some(ref)
    requires Readable(s.evaluations) && Readable(s.receipts) && !HasKey(Receipts.STORE, s.receipts, ref)
    requires Receipts.LoadConfig(p, env).Some? && !Receipts.Blank(at)
    ensures Issues(p, s, ref, env, at, s.evaluations[|s.evaluations| - 1])
  {
    var n := |s.evaluations| - 1;
    hide EvaluationStore.Validate, Issues, EvaluationsFollow, ReceiptsAttest, Receipts.LoadConfig, Receipts.Blank,
      Readable;
    assert STORE.validate(s.evaluations[n]) == Some(ref);
    var i := ReceiptIsWritten(p, s, ref, env, at);
    OneHolder(STORE, s.evaluations, i, n);
  }

  /**
   From any reachable state in which the ledgers read back and the ref is new, committing a valid record, evaluating an
   output and issuing a receipt all write, and end in a receipt that attests the evaluation of that output under that
   commitment.
  */
  lemma ValidRecordIsServed(p: Platform, s: State, ref: string, commitment: Json, output: Json,
                            env: Receipts.Environment, at: string)
    requires AcceptsOwnSignatures(p) && Invariant(p, s) && Fresh(p, s, ref)
    requires Commitment.Validate(p, commitment) == Some(ref) && GoodOutput(p, ref, commitment, output)
    requires Receipts.LoadConfig(p, env).Some? && !Receipts.Blank(at)
    ensures AllWritten(p, s, ref, commitment, output, env, at)
  {
    hide Commitment.Validate, CommitSpec, EvaluateSpecRoute, EvaluationStore.Validate,
      IssueSpec, Invariant, HasKey, BuildRecord, ToJson, FollowsFrom, Attests, Receipts.LoadConfig, Receipts.Blank,
      Json.Get, NewReceipt, CleanValue, Readable, Commitment.Store;
    var s1 := CommitStep(p, s, ref, commitment);
    var s2, record := EvaluateStep(p, s1, ref, output);
    SameRef(p, record, commitment);
    IssueStep(p, s2, ref, env, at);
  }

  /** So whatever a client wants checked, the record it computes carries it from request body to verified receipt. */
  lemma HonestClientIsServed(p: Platform, s: State, body: Json, t: Terms, output: Json, env: Receipts.Environment,
                             at: string)
    requires DigestsAre32Bytes(p) && AcceptsOwnSignatures(p)
    requires Invariant(p, s) && Fresh(p, s, ActionRef(p, body, t))
    requires body.Obj? && Complete(t) && GoodOutput(p, ActionRef(p, body, t), HonestRecord(p, body, t), output)
    requires Receipts.LoadConfig(p, env).Some? && !Receipts.Blank(at)
    ensures AllWritten(p, s, ActionRef(p, body, t), HonestRecord(p, body, t), output, env, at)
  {
    HonestRecordIsValid(p, body, t);
    hide *;
    ValidRecordIsServed(p, s, ActionRef(p, body, t), HonestRecord(p, body, t), output, env, at);
  }

  // ----- what a client can commit to -----

  predicate CleanTerms(t: Terms) {
    && CleanText(t.verb) && CleanText(t.contentType) && CleanText(t.agentId) && CleanText(t.actionType)
    && CleanText(t.idempotencyKey) && CleanValue(Obj(t.target))
  }

  lemma DigestIsClean(p: Platform, v: Json)
    ensures CleanText(Digest(p, v))
  {
    hide Canonical;
    HexForm(p.sha256(Canonical(v)));
  }

  lemma KeysAreClean()
    ensures CleanText("schema_id") && CleanText("method") && CleanText("target") && CleanText("content_type")
    ensures CleanText("body_digest") && CleanText("agent_id") && CleanText("action_type")
    ensures CleanText("request_digest") && CleanText("idempotency_key")
  {
  }

  lemma RecordKeysAreClean()
    ensures CleanText("record_type") && CleanText("record_version") && CleanText("request_body")
    ensures CleanText("action_request_commitment") && CleanText("action_commitment") && CleanText("action_ref")
  {
  }

  lemma ConstantsAreClean()
    ensures CleanText(Commitment.ACTION_REQUEST_SCHEMA_ID) && CleanText(Commitment.ACTION_COMMITMENT_SCHEMA_ID)
    ensures CleanText(Commitment.RECORD_TYPE) && CleanText(Commitment.RECORD_VERSION)
  {
  }

  predicate CleanMember(k: string, v: Json) {
    CleanText(k) && CleanValue(v)
  }

  lemma CleanFields(fields: map<string, Json>)
    ensures CleanValue(Obj(fields)) <==> forall k :: k in fields ==> CleanMember(k, fields[k])
  {
  }

  lemma RequestClean(t: Terms, digest: string)
    requires CleanText(digest) && CleanTerms(t)
    ensures CleanValue(RequestJson(t, digest))
  {
    hide CleanText;
    KeysAreClean();
    ConstantsAreClean();
    CleanFields(RequestJson(t, digest).fields);
  }

  lemma ActionClean(t: Terms, digest: string)
    requires CleanText(digest) && CleanTerms(t)
    ensures CleanValue(ActionJson(t, digest))
  {
    hide CleanText;
    KeysAreClean();
    ConstantsAreClean();
    CleanFields(ActionJson(t, digest).fields);
  }

  /** With all its other members clean, an object is clean exactly when this member's value is. */
  lemma CleanButFor(fields: map<string, Json>, key: string)
    requires key in fields && CleanText(key)
    requires forall k :: k in fields && k != key ==> CleanMember(k, fields[k])
    ensures CleanValue(Obj(fields)) <==> CleanValue(fields[key])
  {
    CleanFields(fields);
    hide CleanText, CleanValue;
  }

  lemma RecordMembersClean(request: Json, action: Json, ref: string)
    requires CleanValue(request) && CleanValue(action) && CleanText(ref)
    ensures CleanMember("record_type", Str(Commitment.RECORD_TYPE))
    ensures CleanMember("record_version", Str(Commitment.RECORD_VERSION)) && CleanMember("action_ref", Str(ref))
    ensures CleanMember("action_request_commitment", request) && CleanMember("action_commitment", action)
    ensures CleanText("request_body")
  {
    hide CleanText;
    RecordKeysAreClean();
    ConstantsAreClean();
  }

  lemma RecordClean(body: Json, request: Json, action: Json, ref: string)
    requires CleanValue(request) && CleanValue(action) && CleanText(ref)
    ensures CleanValue(RecordOf(body, request, action, ref)) <==> CleanValue(body)
  {
    RecordMembersClean(request, action, ref);
    RecordParts(body, request, action, ref);
    RecordKeys(body, request, action, ref);
    hide CleanMember, CleanText, CleanValue, RecordOf;
    var record := RecordOf(body, request, action, ref);
    forall k | k in record.fields && k != "request_body" ensures CleanMember(k, record.fields[k]) {
      assert record.fields[k] == record.Get(k);
    }
    CleanButFor(record.fields, "request_body");
  }

  lemma RecordKeys(body: Json, request: Json, action: Json, ref: string)
    ensures RecordOf(body, request, action, ref).Obj?
    ensures forall k :: k in RecordOf(body, request, action, ref).fields <==>
                        || k == "record_type" || k == "record_version" || k == "request_body"
                        || k == "action_request_commitment" || k == "action_commitment" || k == "action_ref"
  {
  }

  /** Under clean terms the record of a body reads back exactly when the body holds no unescaped line end. */
  lemma HonestRecordReadsBackIff(p: Platform, body: Json, t: Terms)
    requires CleanTerms(t)
    ensures CleanValue(HonestRecord(p, body, t)) <==> CleanValue(body)
  {
    hide Digest, CleanValue, CleanText, CleanTerms, RequestJson, ActionJson, RecordOf;
    DigestIsClean(p, body);
    RequestClean(t, Digest(p, body));
    DigestIsClean(p, RequestOf(p, body, t));
    ActionClean(t, Digest(p, RequestOf(p, body, t)));
    DigestIsClean(p, ActionOf(p, body, t));
    RecordClean(body, RequestOf(p, body, t), ActionOf(p, body, t), ActionRef(p, body, t));
  }

  // ----- two accepted records and what follows from them -----

  const SAMPLE_TERMS := Terms("POST", map[], "application/json", "agent:a", "transfer", "key:1")

  lemma SampleTermsServe()
    ensures Complete(SAMPLE_TERMS) && CleanTerms(SAMPLE_TERMS)
  {
    assert |"POST"| == 4 && |"application/json"| == 16 && |"agent:a"| == 7 && |"transfer"| == 8 && |"key:1"| == 5;
  }

  /** The record of an unreadable body is accepted, and from then on nothing is committed or evaluated any more. */
  lemma UncleanBodyStopsTheService(p: Platform, s: State, body: Json, t: Terms, requests: seq<Request>)
    requires DigestsAre32Bytes(p) && Complete(t) && body.Obj? && !CleanValue(body)
    requires Invariant(p, s) && Readable(s.commitments)
    requires !HasKey(Commitment.Store(p), s.commitments, ActionRef(p, body, t))
    ensures var record := HonestRecord(p, body, t);
            var (s1, response) := CommitSpec(p, s, record);
            && response == Done200(true, record) && s1.commitments == s.commitments + [record]
            && Run(p, s1, requests).commitments == s1.commitments
            && Run(p, s1, requests).evaluations == s.evaluations
  {
    HonestRecordIsValid(p, body, t);
    UncleanBody(p, body, t);
    hide DigestsAre32Bytes, Complete, ActionRef, HonestRecord, Commitment.Validate, CommitSpec, Invariant, HasKey,
      CleanValue, Commitment.Store, Run;
    var record := HonestRecord(p, body, t);
    CommitWritesIff(p, s, record);
    CommitAppends(p, s, record);
    var s1 := s.(commitments := s.commitments + [record]);
    assert s1.commitments[|s.commitments|] == record && !Readable(s1.commitments);
    UnreadableForGood(p, s1, requests);
  }

  lemma UncleanBody(p: Platform, body: Json, t: Terms)
    requires !CleanValue(body)
    ensures !CleanValue(HonestRecord(p, body, t))
  {
    var request, action, ref := RequestOf(p, body, t), ActionOf(p, body, t), ActionRef(p, body, t);
    hide RequestOf, ActionOf, ActionRef;
    var fields := RecordOf(body, request, action, ref).fields;
    CleanFields(fields);
    hide CleanValue;
    assert "request_body" in fields && !CleanMember("request_body", fields["request_body"]);
  }

  const SEPARATOR_BODY := Obj(map["note" := Str("\U{2028}")])

  /** Such a run from the empty ledgers: one record whose body holds U+2028, and no request after it gets through. */
  lemma SeparatorStopsTheService(p: Platform, requests: seq<Request>)
    requires DigestsAre32Bytes(p)
    ensures var record := HonestRecord(p, SEPARATOR_BODY, SAMPLE_TERMS);
            var after := Run(p, EMPTY, [Commit(record)] + requests);
            after.commitments == [record] && after.evaluations == []
  {
    SampleTermsServe();
    SeparatorIsUnclean();
    EmptyIsFresh(p, ActionRef(p, SEPARATOR_BODY, SAMPLE_TERMS));
    var record := HonestRecord(p, SEPARATOR_BODY, SAMPLE_TERMS);
    hide HonestRecord, CommitSpec, Complete, CleanValue, DigestsAre32Bytes, Invariant, ActionRef, HasKey,
      EvaluateSpecRoute, IssueSpec, Readable, Commitment.Store;
    UncleanBodyStopsTheService(p, EMPTY, SEPARATOR_BODY, SAMPLE_TERMS, requests);
    var all := [Commit(record)] + requests;
    assert all[0] == Commit(record) && all[1..] == requests;
    assert Run(p, EMPTY, all) == Run(p, CommitSpec(p, EMPTY, record).0, requests);
  }

  lemma SeparatorIsUnclean()
    ensures SEPARATOR_BODY.Obj? && !CleanValue(SEPARATOR_BODY)
  {
    var note := "\U{2028}";
    assert UnescapedBreak(note[0]) && !CleanText(note);
    CleanFields(SEPARATOR_BODY.fields);
    assert "note" in SEPARATOR_BODY.fields && !CleanMember("note", SEPARATOR_BODY.fields["note"]);
  }

  /**
   An output that holds such a line end is accepted for any committed, unevaluated ref, and from then on nothing is
   evaluated and no receipt is issued any more, for any ref.
  */
  lemma UncleanOutputStopsEvaluation(p: Platform, s: State, ref: string, output: Json, requests: seq<Request>)
    requires Invariant(p, s) && Buildable(p, s, ref, output) && !CleanValue(output)
    requires Readable(s.commitments) && Readable(s.evaluations) && !HasKey(STORE, s.evaluations, ref)
    ensures var (s1, response) := EvaluateSpecRoute(p, s, ref, output);
            && Wrote(response) && |s1.evaluations| == |s.evaluations| + 1
            && Run(p, s1, requests).evaluations == s1.evaluations
            && Run(p, s1, requests).receipts == s.receipts
  {
    hide Invariant, Buildable, HasKey, EvaluateSpecRoute, CleanValue, FollowsFrom, BuildRecord, ToJson, Run;
    var i := EvaluationIsWritten(p, s, ref, output);
    OutputRecorded(p, ref, s.commitments[i], output);
    var record := ToJson(BuildRecord(p, ref, s.commitments[i], output).value);
    UncleanMember(record, "submitted_output");
    var s1 := s.(evaluations := s.evaluations + [record]);
    assert s1.evaluations[|s.evaluations|] == record && !Readable(s1.evaluations);
    UnreadableEvaluationsForGood(p, s1, requests);
  }

  lemma UncleanMember(v: Json, key: string)
    requires !CleanValue(v.Get(key))
    ensures !CleanValue(v)
  {
    if v.Has(key) { CleanFields(v.fields); }
  }

  const EMPTY_BODY := Obj(map[])

  /** Such a run from the empty ledgers: a plain commitment, one output with U+2028, and evaluation is over. */
  lemma SeparatorStopsEvaluation(p: Platform, requests: seq<Request>)
    requires DigestsAre32Bytes(p)
    ensures var record, ref := HonestRecord(p, EMPTY_BODY, SAMPLE_TERMS), ActionRef(p, EMPTY_BODY, SAMPLE_TERMS);
            var after := Run(p, EMPTY, [Commit(record), Evaluate(ref, SEPARATOR_BODY)] + requests);
            |after.evaluations| == 1 && after.receipts == []
  {
    SampleTermsServe();
    SeparatorIsUnclean();
    EmptyBodyIsJudged(p);
    HonestRecordIsValid(p, EMPTY_BODY, SAMPLE_TERMS);
    HonestRecordReadsBackIff(p, EMPTY_BODY, SAMPLE_TERMS);
    hide *;
    CommittedThenStopped(p, ActionRef(p, EMPTY_BODY, SAMPLE_TERMS), HonestRecord(p, EMPTY_BODY, SAMPLE_TERMS),
                         SEPARATOR_BODY, requests);
  }

  lemma CommittedThenStopped(p: Platform, ref: string, record: Json, output: Json, requests: seq<Request>)
    requires Commitment.Validate(p, record) == Some(ref) && CleanValue(record)
    requires BuildRecord(p, ref, record, output).Some? && !CleanValue(output)
    ensures var after := Run(p, EMPTY, [Commit(record), Evaluate(ref, output)] + requests);
            |after.evaluations| == 1 && after.receipts == []
  {
    EmptyIsFresh(p, ref);
    hide CommitSpec, CleanValue, Invariant, HasKey, EvaluateSpecRoute, IssueSpec, Readable, Commitment.Validate,
      Commitment.Store, BuildRecord, Run;
    var s1 := CommitStep(p, EMPTY, ref, record);
    assert s1.commitments[0] == record && Buildable(p, s1, ref, output);
    UncleanOutputStopsEvaluation(p, s1, ref, output, requests);
    TwoThenRest(p, EMPTY, Commit(record), Evaluate(ref, output), requests);
  }

  lemma TwoThenRest(p: Platform, s: State, a: Request, b: Request, rest: seq<Request>)
    ensures Run(p, s, [a, b] + rest) == Run(p, Handle(p, Handle(p, s, a).0, b).0, rest)
  {
    hide Handle;
    var all := [a, b] + rest;
    assert all[0] == a && all[1..][0] == b && all[1..][1..] == rest;
  }

  lemma EmptyBodyIsJudged(p: Platform)
    ensures EMPTY_BODY.Obj? && CleanValue(EMPTY_BODY)
    ensures var record, ref := HonestRecord(p, EMPTY_BODY, SAMPLE_TERMS), ActionRef(p, EMPTY_BODY, SAMPLE_TERMS);
            BuildRecord(p, ref, record, SEPARATOR_BODY).Some?
  {
    hide HonestRecord, ActionRef;
    HonestBody(p, EMPTY_BODY, SAMPLE_TERMS);
    assert Commitment.ReleaseProfile(HonestRecord(p, EMPTY_BODY, SAMPLE_TERMS)) == None;
  }

  lemma EmptyIsFresh(p: Platform, ref: string)
    ensures Invariant(p, EMPTY) && Fresh(p, EMPTY, ref)
  {
  }

  const RELEASING_BODY := Obj(map["ds_conditional_release" := RELEASING_PROFILE])

  /**
   Boundary cases are documented as always `manual_review`. But wherever this record is new it can be committed, and
   evaluating any output under it then writes INVALID_ACCEPTANCE_SPEC with the intent to release.
  */
  lemma InvalidSpecCanRelease(p: Platform, s: State, output: Json)
    requires DigestsAre32Bytes(p) && Invariant(p, s) && Fresh(p, s, ActionRef(p, RELEASING_BODY, SAMPLE_TERMS))
    ensures var (s1, first) := CommitSpec(p, s, HonestRecord(p, RELEASING_BODY, SAMPLE_TERMS));
            var second := EvaluateSpecRoute(p, s1, ActionRef(p, RELEASING_BODY, SAMPLE_TERMS), output).1;
            && Wrote(first) && Wrote(second)
            && second.record.Get("reason_code") == Str("INVALID_ACCEPTANCE_SPEC")
            && second.record.Get("declared_release_intent") == Str("should release")
  {
    SampleTermsServe();
    ReleasingBodyIsClean();
    HonestRecordIsValid(p, RELEASING_BODY, SAMPLE_TERMS);
    HonestRecordReadsBackIff(p, RELEASING_BODY, SAMPLE_TERMS);
    ReleasingProfileCommitted(p);
    hide *;
    InvalidSpecReleases(p, s, ActionRef(p, RELEASING_BODY, SAMPLE_TERMS), HonestRecord(p, RELEASING_BODY, SAMPLE_TERMS),
                        output);
  }

  lemma ReleasingProfileCommitted(p: Platform)
    ensures RELEASING_BODY.Obj?
    ensures Commitment.ReleaseProfile(HonestRecord(p, RELEASING_BODY, SAMPLE_TERMS)) == Some(RELEASING_PROFILE)
  {
    hide HonestRecord;
    HonestBody(p, RELEASING_BODY, SAMPLE_TERMS);
    assert RELEASING_BODY.Get("ds_conditional_release") == RELEASING_PROFILE;
  }

  lemma InvalidSpecReleases(p: Platform, s: State, ref: string, commitment: Json, output: Json)
    requires Invariant(p, s) && Fresh(p, s, ref) && CleanValue(commitment)
    requires Commitment.Validate(p, commitment) == Some(ref)
    requires Commitment.ReleaseProfile(commitment) == Some(RELEASING_PROFILE)
    ensures var (s1, first) := CommitSpec(p, s, commitment);
            var second := EvaluateSpecRoute(p, s1, ref, output).1;
            && Wrote(first) && Wrote(second)
            && second.record.Get("reason_code") == Str("INVALID_ACCEPTANCE_SPEC")
            && second.record.Get("declared_release_intent") == Str("should release")
  {
    hide Commitment.ReleaseProfile, Commitment.Validate, CommitSpec, EvaluateSpecRoute, Invariant, HasKey, BuildRecord,
      ToJson, FollowsFrom, Json.Get, CleanValue, Readable, Commitment.Store;
    var s1 := CommitStep(p, s, ref, commitment);
    ReleasingProfileReleases(p, ref, commitment, output);
    var record := FirstEvaluation(p, s1, ref, output);
    OptionalRecordFields(record);
    RecordFields(record);
  }

  lemma HonestBody(p: Platform, body: Json, t: Terms)
    ensures HonestRecord(p, body, t).Get("request_body") == body
  {
    var request, action, ref := RequestOf(p, body, t), ActionOf(p, body, t), ActionRef(p, body, t);
    hide RequestOf, ActionOf, ActionRef;
    RecordParts(body, request, action, ref);
  }

  lemma ReleasingBodyIsClean()
    ensures CleanValue(RELEASING_BODY)
  {
    hide CleanText;
    ReleasingTextsAreClean();
    assert CleanValue(RELEASING_POLICY);
    assert CleanValue(RELEASING_PROFILE);
  }

  lemma ReleasingTextsAreClean()
    ensures CleanText("ds_conditional_release") && CleanText("acceptance_spec") && CleanText("release_policy")
    ensures CleanText("release_on") && CleanText("INDETERMINATE")
  {
  }
}
