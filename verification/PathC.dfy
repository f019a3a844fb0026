/**
 Hosted Path C: commit, evaluate, issue a signed receipt. Three write-once ledgers, one route each that writes them,
 and the invariant that ties every evaluation to its commitment's own spec and every receipt to its evaluation.
*/
module PathC {
  import opened Text
  import opened JsonValue
  import opened CanonicalJson
  import opened Crypto
  import opened WriteOnce
  import opened Evaluator
  import opened EvaluationStore
  import Commitment
  import Receipts

  datatype State = State(commitments: seq<Json>, evaluations: seq<Json>, receipts: seq<Json>)

  /** What reaches the three POST routes; `at` is the clock text read when a receipt is signed. */
  datatype Request =
    | Commit(record: Json)
    | Evaluate(ref: string, output: Json)
    | Issue(ref: string, env: Receipts.Environment, at: string)

  datatype Response =
    | Done200(stored: bool, record: Json)
    | NotFound404
    | Conflict409
    | Unprocessable422
    | Crashed500
    | Unavailable503

  // ----- the evaluation a commitment calls for -----

  /** The verdict, details and boundary reason for a committed action; `None` is an uncaught `TypeError`. */
  function Judge(p: Platform, commitment: Json, output: Json): Option<(Verdict, seq<Detail>, Option<Reason>)> {
    match Commitment.ReleaseProfile(commitment)
    case None => Some((Indeterminate, [], Some(MissingProfile)))
    case Some(profile) =>
      if !profile.Get("acceptance_spec").Obj? then Some((Indeterminate, [], Some(MissingSpec)))
      else
        match EvaluateSpec(p, profile.Get("acceptance_spec"), output)
        case Ok(e) => Some((e.result, e.details, None))
        case Err(BadSpec) => Some((Indeterminate, [], Some(InvalidSpec)))
        case Err(Crash) => None
  }

  /** The release policy is consulted only once the profile holds a spec object. */
  function PolicyOf(commitment: Json): Option<Json> {
    match Commitment.ReleaseProfile(commitment)
    case None => None
    case Some(profile) =>
      if profile.Get("acceptance_spec").Obj? && profile.Get("release_policy").Obj?
         then Some(profile.Get("release_policy"))
      else None
  }

  function SpecIdOf(commitment: Json): Json {
    match Commitment.ReleaseProfile(commitment)
    case None => Null
    case Some(profile) => profile.Get("acceptance_spec").Get("spec_id")
  }

  /** The Step 2A record of an output under a commitment. */
  function BuildRecord(p: Platform, ref: string, commitment: Json, output: Json): Option<EvaluationRecord> {
    match Judge(p, commitment, output)
    case None => None
    case Some((result, details, reason)) =>
      match IntentSpec(result, PolicyOf(commitment))
      case None => None
      case Some(intent) =>
        Some(EvaluationRecord(ref, SpecIdOf(commitment), result, details, intent, output, reason))
  }

  // ----- the routes -----

  function StoreResponse(outcome: Outcome, record: Json): Response {
    match outcome
    case Stored(wrote) => Done200(wrote, record)
    case Invalid => Unprocessable422
    case Conflict => Conflict409
    case Unreadable => Crashed500
  }

  function CommitSpec(p: Platform, s: State, record: Json): (State, Response) {
    var (commitments, outcome) := StoreSpec(Commitment.Store(p), s.commitments, record);
    (s.(commitments := commitments), StoreResponse(outcome, record))
  }

  function EvaluateSpecRoute(p: Platform, s: State, ref: string, output: Json): (State, Response) {
    if !IsSha256Text(ref) then (s, Unprocessable422)
    else
      match Lookup(Commitment.Store(p), s.commitments, ref)
      case None => (s, Crashed500)
      case Some(None) => (s, NotFound404)
      case Some(Some(commitment)) =>
        match BuildRecord(p, ref, commitment, output)
        case None => (s, Crashed500)
        case Some(record) =>
          var (evaluations, outcome) := StoreSpec(STORE, s.evaluations, ToJson(record));
          (s.(evaluations := evaluations), StoreResponse(outcome, ToJson(record)))
  }

  function ReasonOf(evaluation: Json): Option<string> {
    if evaluation.Get("reason_code").Str? then Some(evaluation.Get("reason_code").s) else None
  }

  /** A signed receipt for an evaluation, checked before it may be stored. */
  function NewReceipt(p: Platform, c: Receipts.Config, ref: string, evaluation: Json, at: string): Option<Json> {
    match Receipts.BuildCore(ref, evaluation.Get("result"), c, at, ReasonOf(evaluation))
    case None => None
    case Some(core) =>
      if !core.Obj? then None
      else
        match Receipts.SignReceipt(p, c, core)
        case None => None
        case Some(receipt) =>
          if Receipts.VerifyReceipt(p, receipt, p.publicOf(c.privateKey)).None? then None else Some(receipt)
  }

  function IssueSpec(p: Platform, s: State, ref: string, env: Receipts.Environment, at: string): (State, Response) {
    if !IsSha256Text(ref) then (s, Unprocessable422)
    else
      match Lookup(STORE, s.evaluations, ref)
      case None => (s, Crashed500)
      case Some(None) => (s, NotFound404)
      case Some(Some(evaluation)) =>
        match Lookup(Receipts.STORE, s.receipts, ref)
        case None => (s, Crashed500)
        case Some(Some(existing)) => (s, Done200(false, existing))
        case Some(None) =>
          match Receipts.LoadConfig(p, env)
          case None => (s, Unavailable503)
          case Some(c) =>
            match NewReceipt(p, c, ref, evaluation, at)
            case None => (s, Crashed500)
            case Some(receipt) =>
              var (receipts, outcome) := StoreSpec(Receipts.STORE, s.receipts, receipt);
              (s.(receipts := receipts), StoreResponse(outcome, receipt))
  }

  function Handle(p: Platform, s: State, request: Request): (State, Response) {
    match request
    case Commit(record) => CommitSpec(p, s, record)
    case Evaluate(ref, output) => EvaluateSpecRoute(p, s, ref, output)
    case Issue(ref, env, at) => IssueSpec(p, s, ref, env, at)
  }

  function Run(p: Platform, s: State, requests: seq<Request>): State
    decreases |requests|
  {
    if |requests| == 0 then s else Run(p, Handle(p, s, requests[0]).0, requests[1..])
  }

  // ----- the invariant -----

  /** Record `e` is what commitment `c` calls for on the output recorded in `e`. */
  predicate FollowsFrom(p: Platform, e: Json, c: Json) {
    && Commitment.Validate(p, c).Some? && EvaluationStore.Validate(e) == Commitment.Validate(p, c)
    && var record := BuildRecord(p, Commitment.Validate(p, c).value, c, e.Get("submitted_output"));
       record.Some? && e == ToJson(record.value)
  }

  /** Receipt `r` attests evaluation `e` and verifies under the key embedded in it. */
  predicate Attests(p: Platform, r: Json, e: Json) {
    && EvaluationStore.Validate(e).Some? && Receipts.Validate(r) == EvaluationStore.Validate(e)
    && r.Get("evaluation_state") == e.Get("result")
    && r.Get("reason_code") == e.Get("reason_code")
    && r.Get("signature").Get("public_key").Str?
    && Receipts.VerifyReceipt(p, r, r.Get("signature").Get("public_key").s) == Some(Receipts.SignedCore(r))
  }

  predicate HasCommitment(p: Platform, commitments: seq<Json>, e: Json) {
    exists j :: 0 <= j < |commitments| && FollowsFrom(p, e, commitments[j])
  }

  predicate HasEvaluation(p: Platform, evaluations: seq<Json>, r: Json) {
    exists j :: 0 <= j < |evaluations| && Attests(p, r, evaluations[j])
  }

  predicate EvaluationsFollow(p: Platform, s: State) {
    forall i :: 0 <= i < |s.evaluations| ==> HasCommitment(p, s.commitments, s.evaluations[i])
  }

  predicate ReceiptsAttest(p: Platform, s: State) {
    forall i :: 0 <= i < |s.receipts| ==> HasEvaluation(p, s.evaluations, s.receipts[i])
  }

  predicate Invariant(p: Platform, s: State) {
    && OnePerKey(Commitment.Store(p), s.commitments)
    && OnePerKey(STORE, s.evaluations)
    && OnePerKey(Receipts.STORE, s.receipts)
    && EvaluationsFollow(p, s)
    && ReceiptsAttest(p, s)
  }

  lemma FollowsWithMore(p: Platform, s: State, s': State)
    requires EvaluationsFollow(p, s) && s.commitments <= s'.commitments && s'.evaluations == s.evaluations
    ensures EvaluationsFollow(p, s')
  {
    hide FollowsFrom;
    forall i | 0 <= i < |s'.evaluations| ensures HasCommitment(p, s'.commitments, s'.evaluations[i]) {
      assert HasCommitment(p, s.commitments, s.evaluations[i]);
      var j :| 0 <= j < |s.commitments| && FollowsFrom(p, s.evaluations[i], s.commitments[j]);
      assert FollowsFrom(p, s'.evaluations[i], s'.commitments[j]);
    }
  }

  lemma AttestsWithMore(p: Platform, s: State, s': State)
    requires ReceiptsAttest(p, s) && s.evaluations <= s'.evaluations && s'.receipts == s.receipts
    ensures ReceiptsAttest(p, s')
  {
    hide Attests;
    forall i | 0 <= i < |s'.receipts| ensures HasEvaluation(p, s'.evaluations, s'.receipts[i]) {
      assert HasEvaluation(p, s.evaluations, s.receipts[i]);
      var j :| 0 <= j < |s.evaluations| && Attests(p, s.receipts[i], s.evaluations[j]);
      assert Attests(p, s'.receipts[i], s'.evaluations[j]);
    }
  }

  lemma CommitKeeps(p: Platform, s: State, record: Json)
    requires Invariant(p, s)
    ensures Invariant(p, CommitSpec(p, s, record).0)
    ensures s.commitments <= CommitSpec(p, s, record).0.commitments
    ensures s.evaluations <= CommitSpec(p, s, record).0.evaluations
    ensures s.receipts <= CommitSpec(p, s, record).0.receipts
  {
    Commitment.StoreLawful(p);
    hide StoreSpec, OnePerKey, EvaluationsFollow, ReceiptsAttest;
    StoreKeepsOnePerKey(Commitment.Store(p), s.commitments, record);
    FollowsWithMore(p, s, CommitSpec(p, s, record).0);
    AttestsWithMore(p, s, CommitSpec(p, s, record).0);
  }

  /** What a lookup finds in a one-per-key ledger is one of its records, under that key. */
  lemma Found(policy: Policy, records: seq<Json>, key: string) returns (i: nat)
    requires Lawful(policy) && OnePerKey(policy, records)
    requires Lookup(policy, records, key).Some? && Lookup(policy, records, key).value.Some?
    ensures i < |records| && Lookup(policy, records, key) == Some(Some(records[i]))
    ensures policy.validate(records[i]) == Some(key)
  {
    LatestIs(policy, records, key);
    i :| 0 <= i < |records| && Latest(policy, records, key) == Some(records[i]) && Matches(policy, records[i], key);
    assert policy.validate(records[i]).Some?;
  }

  lemma IntentNotEmpty(v: Verdict, policy: Option<Json>)
    ensures IntentSpec(v, policy).Some? ==> IntentSpec(v, policy).value != ""
  {
  }

  /** A record built for a stored commitment is valid and follows from it. */
  lemma BuiltFollows(p: Platform, c: Json, output: Json)
    requires Commitment.Validate(p, c).Some? && IsSha256Text(Commitment.Validate(p, c).value)
    requires BuildRecord(p, Commitment.Validate(p, c).value, c, output).Some?
    ensures var record := BuildRecord(p, Commitment.Validate(p, c).value, c, output).value;
            && EvaluationStore.Validate(ToJson(record)) == Commitment.Validate(p, c)
            && ToJson(record).Get("submitted_output") == output
            && FollowsFrom(p, ToJson(record), c)
  {
    hide Commitment.Validate, Judge, PolicyOf, SpecIdOf, ToJson, EvaluationStore.Validate, IntentSpec;
    var record := BuildRecord(p, Commitment.Validate(p, c).value, c, output).value;
    IntentNotEmpty(record.result, PolicyOf(c));
    BuiltIsValid(record);
    RecordFields(record);
  }

  /** When the evaluation route writes, it appends one record that follows from a stored commitment. */
  lemma EvaluateAppends(p: Platform, s: State, ref: string, output: Json) returns (i: nat, record: Json)
    requires OnePerKey(Commitment.Store(p), s.commitments) && EvaluateSpecRoute(p, s, ref, output).0 != s
    ensures i < |s.commitments| && FollowsFrom(p, record, s.commitments[i])
    ensures StoreSpec(STORE, s.evaluations, record).0 == s.evaluations + [record]
    ensures EvaluateSpecRoute(p, s, ref, output).0 == s.(evaluations := s.evaluations + [record])
  {
    Commitment.StoreLawful(p);
    i := Found(Commitment.Store(p), s.commitments, ref);
    hide Commitment.Validate, BuildRecord, Lookup, ToJson, FollowsFrom, StoreSpec;
    record := ToJson(BuildRecord(p, ref, s.commitments[i], output).value);
    StoreAppends(STORE, s.evaluations, record);
    BuiltFollows(p, s.commitments[i], output);
  }

  lemma EvaluateKeeps(p: Platform, s: State, ref: string, output: Json)
    requires Invariant(p, s)
    ensures Invariant(p, EvaluateSpecRoute(p, s, ref, output).0)
    ensures s.commitments <= EvaluateSpecRoute(p, s, ref, output).0.commitments
    ensures s.evaluations <= EvaluateSpecRoute(p, s, ref, output).0.evaluations
    ensures s.receipts <= EvaluateSpecRoute(p, s, ref, output).0.receipts
  {
    hide EvaluateSpecRoute, FollowsFrom, StoreSpec, OnePerKey, EvaluationsFollow, ReceiptsAttest;
    var s' := EvaluateSpecRoute(p, s, ref, output).0;
    if s' != s {
      var i, record := EvaluateAppends(p, s, ref, output);
      StoreLawful();
      StoreKeepsOnePerKey(STORE, s.evaluations, record);
      NewEvaluationFollows(p, s, s', record, i);
      AttestsWithMore(p, s, s');
    }
  }

  lemma NewEvaluationFollows(p: Platform, s: State, s': State, record: Json, i: nat)
    requires EvaluationsFollow(p, s) && i < |s.commitments| && FollowsFrom(p, record, s.commitments[i])
    requires s'.commitments == s.commitments && s'.evaluations == s.evaluations + [record]
    ensures EvaluationsFollow(p, s')
  {
    hide FollowsFrom;
    forall k | 0 <= k < |s'.evaluations| ensures HasCommitment(p, s'.commitments, s'.evaluations[k]) {
      if k < |s.evaluations| { assert HasCommitment(p, s.commitments, s.evaluations[k]); }
    }
  }

  /** A receipt made from a core attests whatever evaluation agrees with the core. */
  lemma SignedAttests(p: Platform, c: Receipts.Config, core: Json, receipt: Json, e: Json)
    requires core.Obj? && Receipts.SignReceipt(p, c, core) == Some(receipt)
    requires Receipts.VerifyReceipt(p, receipt, p.publicOf(c.privateKey)).Some?
    requires EvaluationStore.Validate(e).Some? && core.Get("action_ref") == Str(EvaluationStore.Validate(e).value)
    requires IsSha256Text(EvaluationStore.Validate(e).value)
    requires core.Get("evaluation_state") == e.Get("result") && core.Get("reason_code") == e.Get("reason_code")
    ensures Attests(p, receipt, e)
  {
    Receipts.BlockFields(p, c, core);
    hide Receipts.SignatureBlock, EvaluationStore.Validate, Canonical, IsSha256Text, Receipts.SignedCore;
    assert receipt == Obj(core.fields["signature" := Receipts.SignatureBlock(p, c, core)]);
  }

  /** A new receipt attests the evaluation it was issued for. */
  lemma NewAttests(p: Platform, c: Receipts.Config, e: Json, at: string)
    requires EvaluationStore.Validate(e).Some?
    requires NewReceipt(p, c, EvaluationStore.Validate(e).value, e, at).Some?
    ensures Attests(p, NewReceipt(p, c, EvaluationStore.Validate(e).value, e, at).value, e)
  {
    ReasonIsText(e);
    hide EvaluationStore.Validate, Receipts.CoreJson, Receipts.SignReceipt, Receipts.VerifyReceipt, Attests,
      IsSha256Text, Receipts.BuildCore, Json.Get, ReasonOf;
    var ref, reason := EvaluationStore.Validate(e).value, ReasonOf(e);
    Receipts.BuiltCore(ref, e.Get("result"), c, at, reason);
    Receipts.CoreFields(ref, e.Get("result").s, c, at, reason);
    var core := Receipts.CoreJson(ref, e.Get("result").s, c, at, reason);
    SignedAttests(p, c, core, NewReceipt(p, c, ref, e, at).value, e);
  }

  lemma ReasonIsText(e: Json)
    requires EvaluationStore.Validate(e).Some?
    ensures e.Get("reason_code") == if ReasonOf(e).Some? then Str(ReasonOf(e).value) else Null
  {
  }

  lemma NewReceiptAttests(p: Platform, s: State, s': State, receipt: Json, i: nat)
    requires ReceiptsAttest(p, s) && i < |s.evaluations| && Attests(p, receipt, s.evaluations[i])
    requires s'.evaluations == s.evaluations && s'.receipts == s.receipts + [receipt]
    ensures ReceiptsAttest(p, s')
  {
    hide Attests;
    forall k | 0 <= k < |s'.receipts| ensures HasEvaluation(p, s'.evaluations, s'.receipts[k]) {
      if k < |s.receipts| { assert HasEvaluation(p, s.evaluations, s.receipts[k]); }
    }
  }

  /** When the receipt route writes, it appends one receipt that attests a stored evaluation. */
  lemma IssueAppends(p: Platform, s: State, ref: string, env: Receipts.Environment, at: string)
    returns (i: nat, receipt: Json)
    requires OnePerKey(STORE, s.evaluations) && IssueSpec(p, s, ref, env, at).0 != s
    ensures i < |s.evaluations| && Attests(p, receipt, s.evaluations[i])
    ensures StoreSpec(Receipts.STORE, s.receipts, receipt).0 == s.receipts + [receipt]
    ensures IssueSpec(p, s, ref, env, at).0 == s.(receipts := s.receipts + [receipt])
  {
    StoreLawful();
    i := Found(STORE, s.evaluations, ref);
    hide NewReceipt, Lookup, Attests, StoreSpec, EvaluationStore.Validate, Receipts.LoadConfig;
    var c := Receipts.LoadConfig(p, env).value;
    receipt := NewReceipt(p, c, ref, s.evaluations[i], at).value;
    StoreAppends(Receipts.STORE, s.receipts, receipt);
    NewAttests(p, c, s.evaluations[i], at);
  }

  /** A signed receipt, field by field. */
  predicate ReceiptSays(p: Platform, r: Json, ref: string, e: Json, c: Receipts.Config, at: string) {
    var sig := r.Get("signature");
    && r.Obj? && sig.Obj?
    && r.Get("schema_id") == Str("ds.continuity_evaluation.v0.1") && r.Get("action_ref") == Str(ref)
    && r.Get("evaluation_state") == e.Get("result") && r.Get("reason_code") == e.Get("reason_code")
    && r.Get("evaluator_id") == Str(c.evaluatorId) && r.Get("policy_ref") == Str(c.policyRef)
    && r.Get("evaluated_at") == Str(at)
    && sig.Get("alg") == Str("ed25519") && sig.Get("key_id") == Str(c.evaluatorId)
    && sig.Get("public_key") == Str(p.publicOf(c.privateKey))
    && sig.Get("signature") == Str(p.sign(c.privateKey, Canonical(Obj(r.fields - {"signature"}))))
  }

  lemma NewReceiptSays(p: Platform, c: Receipts.Config, e: Json, at: string)
    requires EvaluationStore.Validate(e).Some?
    requires NewReceipt(p, c, EvaluationStore.Validate(e).value, e, at).Some?
    ensures var ref := EvaluationStore.Validate(e).value;
            ReceiptSays(p, NewReceipt(p, c, ref, e, at).value, ref, e, c, at)
  {
    ReasonIsText(e);
    hide EvaluationStore.Validate, Receipts.CoreJson, Receipts.VerifyReceipt, Receipts.SignatureBlock, Canonical,
      IsSha256Text, Receipts.BuildCore, ReasonOf;
    var ref, reason := EvaluationStore.Validate(e).value, ReasonOf(e);
    Receipts.BuiltCore(ref, e.Get("result"), c, at, reason);
    Receipts.CoreFields(ref, e.Get("result").s, c, at, reason);
    var core := Receipts.CoreJson(ref, e.Get("result").s, c, at, reason);
    var block := Receipts.SignatureBlock(p, c, core);
    assert NewReceipt(p, c, ref, e, at).value == Obj(core.fields["signature" := block]);
    Receipts.BlockFields(p, c, core);
    Receipts.CoreOfSigned(core, block);
    FieldsBesides(core, block);
    hide Json.Get, NewReceipt;
  }

  /** A signature block leaves the other fields as they were. */
  lemma FieldsBesides(core: Json, block: Json)
    requires core.Obj?
    ensures var r := Obj(core.fields["signature" := block]);
            && r.Get("signature") == block
            && r.Get("schema_id") == core.Get("schema_id") && r.Get("action_ref") == core.Get("action_ref")
            && r.Get("evaluation_state") == core.Get("evaluation_state")
            && r.Get("reason_code") == core.Get("reason_code") && r.Get("evaluator_id") == core.Get("evaluator_id")
            && r.Get("policy_ref") == core.Get("policy_ref") && r.Get("evaluated_at") == core.Get("evaluated_at")
  {
  }

  /** What a written receipt says: the configured identity and policy, the clock, and the evaluation's own verdict. */
  lemma IssuedReceiptSays(p: Platform, s: State, ref: string, env: Receipts.Environment, at: string)
    returns (i: nat, c: Receipts.Config)
    requires OnePerKey(STORE, s.evaluations) && IssueSpec(p, s, ref, env, at).0 != s
    ensures i < |s.evaluations| && EvaluationStore.Validate(s.evaluations[i]) == Some(ref)
    ensures Receipts.LoadConfig(p, env) == Some(c)
    ensures var written := IssueSpec(p, s, ref, env, at).0.receipts;
            |written| == |s.receipts| + 1 && ReceiptSays(p, written[|s.receipts|], ref, s.evaluations[i], c, at)
  {
    StoreLawful();
    i := Found(STORE, s.evaluations, ref);
    hide NewReceipt, Lookup, ReceiptSays, StoreSpec, EvaluationStore.Validate, Receipts.LoadConfig;
    c := Receipts.LoadConfig(p, env).value;
    StoreAppends(Receipts.STORE, s.receipts, NewReceipt(p, c, ref, s.evaluations[i], at).value);
    NewReceiptSays(p, c, s.evaluations[i], at);
  }

  lemma IssueKeeps(p: Platform, s: State, ref: string, env: Receipts.Environment, at: string)
    requires Invariant(p, s)
    ensures Invariant(p, IssueSpec(p, s, ref, env, at).0)
    ensures s.commitments <= IssueSpec(p, s, ref, env, at).0.commitments
    ensures s.evaluations <= IssueSpec(p, s, ref, env, at).0.evaluations
    ensures s.receipts <= IssueSpec(p, s, ref, env, at).0.receipts
  {
    hide IssueSpec, Attests, StoreSpec, OnePerKey, EvaluationsFollow, ReceiptsAttest;
    var s' := IssueSpec(p, s, ref, env, at).0;
    if s' != s {
      var i, receipt := IssueAppends(p, s, ref, env, at);
      Receipts.StoreLawful();
      StoreKeepsOnePerKey(Receipts.STORE, s.receipts, receipt);
      FollowsWithMore(p, s, s');
      NewReceiptAttests(p, s, s', receipt, i);
    }
  }

  /** Every route keeps the invariant and only ever appends. */
  lemma HandleKeeps(p: Platform, s: State, request: Request)
    requires Invariant(p, s)
    ensures var s' := Handle(p, s, request).0;
            Invariant(p, s') && s.commitments <= s'.commitments && s.evaluations <= s'.evaluations
            && s.receipts <= s'.receipts
  {
    hide Invariant, CommitSpec, EvaluateSpecRoute, IssueSpec;
    match request
    case Commit(record) => CommitKeeps(p, s, record);
    case Evaluate(ref, output) => EvaluateKeeps(p, s, ref, output);
    case Issue(ref, env, at) => IssueKeeps(p, s, ref, env, at);
  }

  /** In every reachable state the three ledgers are tied together, and nothing written is ever lost. */
  lemma {:induction false} RunKeeps(p: Platform, s: State, requests: seq<Request>)
    requires Invariant(p, s)
    ensures var s' := Run(p, s, requests);
            Invariant(p, s') && s.commitments <= s'.commitments && s.evaluations <= s'.evaluations
            && s.receipts <= s'.receipts
    decreases |requests|
  {
    hide Invariant, Handle;
    if |requests| > 0 {
      HandleKeeps(p, s, requests[0]);
      RunKeeps(p, Handle(p, s, requests[0]).0, requests[1..]);
    }
  }

  const EMPTY := State([], [], [])

  lemma Reachable(p: Platform, requests: seq<Request>)
    ensures Invariant(p, Run(p, EMPTY, requests))
  {
    RunKeeps(p, EMPTY, requests);
  }

  // ----- what the invariant says about a record -----

  /** The recorded result, checks and reason code are those of evaluating the commitment's own spec on the output. */
  lemma RecordedVerdict(p: Platform, e: Json, c: Json)
    requires FollowsFrom(p, e, c)
    ensures e.Get("action_ref") == c.Get("action_ref")
    ensures var judged := Judge(p, c, e.Get("submitted_output"));
            && judged.Some?
            && e.Get("result") == Str(VerdictText(judged.value.0))
            && e.Get("checks") == DetailsJson(judged.value.1)
            && e.Get("reason_code") == (if judged.value.2.Some? then Str(ReasonText(judged.value.2.value)) else Null)
  {
    var ref := Commitment.Validate(p, c).value;
    var record := BuildRecord(p, ref, c, e.Get("submitted_output")).value;
    assert record.actionRef == ref;
    Commitment.ValidFacts(p, c);
    hide Judge, ToJson, Commitment.Validate, EvaluationStore.Validate, PolicyOf, SpecIdOf, IntentSpec, DetailsJson;
    RecordFields(record);
    OptionalRecordFields(record);
  }

  function ProfileOf(c: Json): Json {
    c.Get("request_body").Get("ds_conditional_release")
  }

  predicate HasSpec(c: Json) {
    ProfileOf(c).Obj? && ProfileOf(c).Get("acceptance_spec").Obj?
  }

  /** The release policy a commitment declares; it counts only beside a spec. */
  function DeclaredPolicy(c: Json): Option<Json> {
    var policy := ProfileOf(c).Get("release_policy");
    if HasSpec(c) && policy.Obj? then Some(policy) else None
  }

  /** The evaluation a commitment's own spec gives on an output, by the statuses of its checks. */
  predicate SpecFails(p: Platform, c: Json, output: Json) {
    var spec := ProfileOf(c).Get("acceptance_spec");
    && HasSpec(c) && GoodSpec(spec)
    && exists i :: 0 <= i < |spec.Get("checks").items|
                   && EvaluateCheck(p, spec.Get("checks").items[i], output).status == Unsatisfied
                   && spec.Get("checks").items[i].Get("failure_behavior") != Str("INDETERMINATE")
  }

  predicate SpecPasses(p: Platform, c: Json, output: Json) {
    var spec := ProfileOf(c).Get("acceptance_spec");
    && HasSpec(c) && GoodSpec(spec)
    && forall i :: 0 <= i < |spec.Get("checks").items| ==>
                   EvaluateCheck(p, spec.Get("checks").items[i], output).status == Satisfied
  }

  lemma JudgedBySpec(p: Platform, c: Json, output: Json)
    requires Judge(p, c, output).Some?
    ensures var judged := Judge(p, c, output).value;
            && (judged.0 == Pass <==> SpecPasses(p, c, output))
            && (judged.0 == Fail <==> SpecFails(p, c, output))
            && judged.0 != Timeout
            && (judged.2 == Some(MissingProfile) <==> !ProfileOf(c).Obj?)
            && (judged.2 == Some(MissingSpec) <==> ProfileOf(c).Obj? && !ProfileOf(c).Get("acceptance_spec").Obj?)
            && (judged.2 == Some(InvalidSpec) <==> HasSpec(c) && !GoodSpec(ProfileOf(c).Get("acceptance_spec")))
  {
    hide EvaluateCheck, GoodSpec, WorstOf, DetailsOf, SpecFault;
    if HasSpec(c) {
      var spec := ProfileOf(c).Get("acceptance_spec");
      SpecAcceptedIff(spec);
      if GoodSpec(spec) {
        GoodSpecHasChecks(spec);
        VerdictByStatus(p, spec.Get("checks").items, output);
      }
    }
  }

  lemma GoodSpecHasChecks(spec: Json)
    requires GoodSpec(spec)
    ensures spec.Obj? && spec.Get("checks").Arr?
  {
  }

  /**
   The recorded result and reason, as texts, by the commitment's own spec and the recorded output: PASS when every check
   is satisfied, FAIL when one that matters is not, and a reason exactly when there is no usable spec.
  */
  lemma RecordedResultIff(p: Platform, e: Json, c: Json)
    requires FollowsFrom(p, e, c)
    ensures var output := e.Get("submitted_output");
            && (e.Get("result") == Str("PASS") <==> SpecPasses(p, c, output))
            && (e.Get("result") == Str("FAIL") <==> SpecFails(p, c, output))
            && (e.Get("result") == Str("INDETERMINATE") <==> !SpecPasses(p, c, output) && !SpecFails(p, c, output))
    ensures e.Get("reason_code") == Str("MISSING_CONDITIONAL_RELEASE_PROFILE") <==> !ProfileOf(c).Obj?
    ensures e.Get("reason_code") == Str("MISSING_ACCEPTANCE_SPEC") <==>
            ProfileOf(c).Obj? && !ProfileOf(c).Get("acceptance_spec").Obj?
    ensures e.Get("reason_code") == Str("INVALID_ACCEPTANCE_SPEC") <==>
            HasSpec(c) && !GoodSpec(ProfileOf(c).Get("acceptance_spec"))
  {
    RecordedVerdict(p, e, c);
    var output := e.Get("submitted_output");
    JudgedBySpec(p, c, output);
    var judged := Judge(p, c, output).value;
    ResultTexts(judged.0);
    ReasonTexts(judged.2);
    hide *;
  }

  lemma ResultTexts(v: Verdict)
    ensures VerdictText(v) == "PASS" <==> v == Pass
    ensures VerdictText(v) == "FAIL" <==> v == Fail
    ensures VerdictText(v) == "INDETERMINATE" <==> v == Indeterminate
  {
    assert |"PASS"| == 4 && |"FAIL"| == 4 && "PASS"[0] != "FAIL"[0];
    assert |"INDETERMINATE"| == 13 && |"EVALUATOR_TIMEOUT"| == 17;
  }

  /** The spec id that is recorded, and one entry for each check of a valid spec, in the spec's own order. */
  lemma RecordedChecks(p: Platform, e: Json, c: Json)
    requires FollowsFrom(p, e, c)
    ensures var spec, recorded := ProfileOf(c).Get("acceptance_spec"), e.Get("checks");
            && e.Get("spec_id") == spec.Get("spec_id") && recorded.Arr?
            && if HasSpec(c) && GoodSpec(spec) then
                 var checks := spec.Get("checks").items;
                 && |recorded.items| == |checks|
                 && forall i :: 0 <= i < |checks| ==>
                      recorded.items[i] == DetailJson(EvaluateCheck(p, checks[i], e.Get("submitted_output")))
               else recorded.items == []
  {
    var output := e.Get("submitted_output");
    var ref := Commitment.Validate(p, c).value;
    var record := BuildRecord(p, ref, c, output).value;
    JudgedDetails(p, c, output);
    assert record.details == Judge(p, c, output).value.1 && record.specId == SpecIdOf(c);
    SpecIdIs(c);
    hide Judge, ToJson, Commitment.Validate, EvaluationStore.Validate, PolicyOf, SpecIdOf, IntentSpec, DetailJson,
      EvaluateCheck, GoodSpec, HasSpec, ProfileOf;
    RecordSays(record);
  }

  lemma SpecIdIs(c: Json)
    ensures SpecIdOf(c) == ProfileOf(c).Get("acceptance_spec").Get("spec_id")
  {
  }

  lemma JudgedDetails(p: Platform, c: Json, output: Json)
    requires Judge(p, c, output).Some?
    ensures var spec, details := ProfileOf(c).Get("acceptance_spec"), Judge(p, c, output).value.1;
            if HasSpec(c) && GoodSpec(spec) then
              var checks := spec.Get("checks").items;
              && |details| == |checks|
              && forall i :: 0 <= i < |checks| ==> details[i] == EvaluateCheck(p, checks[i], output)
            else details == []
  {
    var spec := ProfileOf(c).Get("acceptance_spec");
    SpecAcceptedIff(spec);
    hide GoodSpec, EvaluateCheck, SpecFault;
  }

  /** A reason as it is recorded, or null. */
  function ReasonJson(reason: Option<Reason>): Json {
    if reason.Some? then Str(ReasonText(reason.value)) else Null
  }

  lemma ReasonTexts(reason: Option<Reason>)
    ensures ReasonJson(reason) == if reason.Some? then Str(ReasonText(reason.value)) else Null
    ensures ReasonJson(reason) == Str("MISSING_CONDITIONAL_RELEASE_PROFILE") <==> reason == Some(MissingProfile)
    ensures ReasonJson(reason) == Str("MISSING_ACCEPTANCE_SPEC") <==> reason == Some(MissingSpec)
    ensures ReasonJson(reason) == Str("INVALID_ACCEPTANCE_SPEC") <==> reason == Some(InvalidSpec)
  {
    assert |"MISSING_CONDITIONAL_RELEASE_PROFILE"| == 35 && |"MISSING_ACCEPTANCE_SPEC"| == 23;
    assert |"INVALID_ACCEPTANCE_SPEC"| == 23 && "MISSING_ACCEPTANCE_SPEC"[0] != "INVALID_ACCEPTANCE_SPEC"[0];
  }

  lemma PolicyIsDeclared(c: Json)
    ensures PolicyOf(c) == DeclaredPolicy(c)
  {
  }

  /** The stored intent, by the recorded result and the members of the policy the commitment declares. */
  lemma RecordedIntentIff(p: Platform, e: Json, c: Json)
    requires FollowsFrom(p, e, c)
    ensures e.Get("result").Str?
    ensures var policy, intent, text := DeclaredPolicy(c), e.Get("declared_release_intent"), e.Get("result").s;
            var review, withhold, release := Names(policy, "manual_review_on", text),
                                             Names(policy, "withhold_on", text), Names(policy, "release_on", text);
            && (intent == Str("manual_review") <==> review || (!withhold && !release && text == "INDETERMINATE"))
            && (intent == Str("should withhold") <==> !review && (withhold || (!release && text == "FAIL")))
            && (intent == Str("should release") <==> !review && !withhold && (release || text == "PASS"))
  {
    var output := e.Get("submitted_output");
    RecordedVerdict(p, e, c);
    JudgedBySpec(p, c, output);
    PolicyIsDeclared(c);
    var v := Judge(p, c, output).value.0;
    IntentIff(v, PolicyOf(c), VerdictText(v));
    RecordHasIntent(p, e, c);
    hide FollowsFrom, Judge, SpecPasses, SpecFails, DeclaredPolicy, PolicyOf, DetailsJson, IntentSpec, Names,
      UsableKeys, Json.Get;
  }

  lemma RecordHasIntent(p: Platform, e: Json, c: Json)
    requires FollowsFrom(p, e, c)
    ensures Judge(p, c, e.Get("submitted_output")).Some?
    ensures var intent := IntentSpec(Judge(p, c, e.Get("submitted_output")).value.0, PolicyOf(c));
            intent.Some? && e.Get("declared_release_intent") == Str(intent.value)
  {
    var record := BuildRecord(p, Commitment.Validate(p, c).value, c, e.Get("submitted_output")).value;
    hide Judge, ToJson, Commitment.Validate, EvaluationStore.Validate, PolicyOf, SpecIdOf, IntentSpec, Json.Get;
    RecordFields(record);
  }

  /** A failing record of a commitment that declares no policy never says `should release`. */
  lemma FailureIsNotReleased(p: Platform, e: Json, c: Json)
    requires FollowsFrom(p, e, c) && DeclaredPolicy(c).None? && e.Get("result") == Str("FAIL")
    ensures e.Get("declared_release_intent") == Str("should withhold")
  {
    hide FollowsFrom, DeclaredPolicy;
    RecordedIntentIff(p, e, c);
  }

  /**
   Boundary cases are documented as always `manual_review`; a boundary record says so exactly when no release policy is
   consulted, or the policy names INDETERMINATE for manual review, or for neither release nor withholding.
  */
  lemma BoundaryIntentIff(p: Platform, ref: string, c: Json, output: Json)
    requires BuildRecord(p, ref, c, output).Some? && BuildRecord(p, ref, c, output).value.reason.Some?
    ensures BuildRecord(p, ref, c, output).value.intent == "manual_review" <==>
            PolicyOf(c).None?
            || Triggers(PolicyOf(c).value, "manual_review_on", Indeterminate)
            || !(Triggers(PolicyOf(c).value, "withhold_on", Indeterminate)
                 || Triggers(PolicyOf(c).value, "release_on", Indeterminate))
  {
    BoundaryIsIndeterminate(p, c, output);
    hide Judge, PolicyOf, SpecIdOf;
  }

  lemma BoundaryIsIndeterminate(p: Platform, c: Json, output: Json)
    requires Judge(p, c, output).Some? && Judge(p, c, output).value.2.Some?
    ensures Judge(p, c, output).value.0.Indeterminate? && Judge(p, c, output).value.1 == []
  {
    hide EvaluateSpec;
  }

  const RELEASING_POLICY := Obj(map["release_on" := Str("INDETERMINATE")])

  /** A spec without checks, under a policy that releases on INDETERMINATE. */
  const RELEASING_PROFILE := Obj(map["acceptance_spec" := Obj(map[]), "release_policy" := RELEASING_POLICY])

  lemma ReleasingProfileReleases(p: Platform, ref: string, c: Json, output: Json)
    requires Commitment.ReleaseProfile(c) == Some(RELEASING_PROFILE)
    ensures var record := BuildRecord(p, ref, c, output);
            record.Some? && record.value.reason == Some(InvalidSpec) && record.value.intent == "should release"
  {
    hide Commitment.ReleaseProfile;
    var profile := RELEASING_PROFILE;
    assert profile.Get("acceptance_spec") == Obj(map[]) && profile.Get("release_policy") == RELEASING_POLICY;
    assert SpecFault(Obj(map[])) == Some(BadSpec);
    assert Judge(p, c, output) == Some((Indeterminate, [], Some(InvalidSpec)));
    assert PolicyOf(c) == Some(RELEASING_POLICY);
    assert IntentSpec(Indeterminate, Some(RELEASING_POLICY)) == Some("should release");
  }

  // ----- a ledger that cannot be read -----

  predicate Refused(response: Response) {
    response.Unprocessable422? || response.Crashed500?
  }

  /** On an unreadable commitment ledger committing and evaluating are refused, whatever is sent. */
  lemma UnreadableRefuses(p: Platform, s: State, request: Request)
    requires !Readable(s.commitments)
    ensures var (s', response) := Handle(p, s, request);
            && s'.commitments == s.commitments && s'.evaluations == s.evaluations
            && (!request.Issue? ==> s' == s && Refused(response))
  {
    Commitment.StoreLawful(p);
    hide Commitment.Validate, BuildRecord, NewReceipt, Receipts.LoadConfig, Latest;
    match request
    case Commit(record) => hide IssueSpec, EvaluateSpecRoute;
    case Evaluate(ref, output) => hide IssueSpec, CommitSpec;
    case Issue(ref, env, at) => hide StoreSpec, Lookup;
  }

  /** And that is so for good: over every run the two ledgers stay as they are. */
  lemma {:induction false} UnreadableForGood(p: Platform, s: State, requests: seq<Request>)
    requires !Readable(s.commitments)
    ensures Run(p, s, requests).commitments == s.commitments && Run(p, s, requests).evaluations == s.evaluations
    decreases |requests|
  {
    hide Handle, Readable;
    if |requests| > 0 {
      UnreadableRefuses(p, s, requests[0]);
      UnreadableForGood(p, Handle(p, s, requests[0]).0, requests[1..]);
    }
  }

  /** On an unreadable evaluation ledger evaluating and issuing are refused, whatever is sent. */
  lemma UnreadableEvaluationsRefuse(p: Platform, s: State, request: Request)
    requires !Readable(s.evaluations)
    ensures var (s', response) := Handle(p, s, request);
            && s'.evaluations == s.evaluations && s'.receipts == s.receipts
            && (!request.Commit? ==> s' == s && (Refused(response) || response.NotFound404?))
  {
    StoreLawful();
    hide Commitment.Validate, EvaluationStore.Validate, BuildRecord, ToJson, NewReceipt, Receipts.LoadConfig, Latest;
    match request
    case Commit(record) => hide IssueSpec, EvaluateSpecRoute, StoreSpec;
    case Evaluate(ref, output) => hide IssueSpec, CommitSpec;
    case Issue(ref, env, at) => hide StoreSpec, CommitSpec, EvaluateSpecRoute;
  }

  /** And that is so for good: over every run no evaluation and no receipt is added. */
  lemma {:induction false} UnreadableEvaluationsForGood(p: Platform, s: State, requests: seq<Request>)
    requires !Readable(s.evaluations)
    ensures Run(p, s, requests).evaluations == s.evaluations && Run(p, s, requests).receipts == s.receipts
    decreases |requests|
  {
    hide Handle, Readable;
    if |requests| > 0 {
      UnreadableEvaluationsRefuse(p, s, requests[0]);
      UnreadableEvaluationsForGood(p, Handle(p, s, requests[0]).0, requests[1..]);
    }
  }

  // ----- retries -----

  lemma JudgeNeverTimesOut(p: Platform, c: Json, output: Json)
    ensures Judge(p, c, output).Some? ==> !Judge(p, c, output).value.0.Timeout?
  {
    var profile := Commitment.ReleaseProfile(c);
    if profile.Some? && profile.value.Get("acceptance_spec").Obj? {
      var e := EvaluateSpec(p, profile.value.Get("acceptance_spec"), output);
      hide SpecFault;
      if e.Ok? { WorstIsNoTimeout(p, profile.value.Get("acceptance_spec").Get("checks").items, output); }
    }
  }

  /** Whether a commitment's evaluation crashes does not depend on the output. */
  lemma CrashIgnoresOutput(p: Platform, ref: string, c: Json, x: Json, y: Json)
    requires BuildRecord(p, ref, c, x).Some?
    ensures BuildRecord(p, ref, c, y).Some?
  {
    JudgeNeverTimesOut(p, c, x);
    JudgeNeverTimesOut(p, c, y);
    JudgeCrashIgnoresOutput(p, c, x, y);
    hide Judge, SpecIdOf;
  }

  lemma JudgeCrashIgnoresOutput(p: Platform, c: Json, x: Json, y: Json)
    ensures Judge(p, c, x).Some? <==> Judge(p, c, y).Some?
  {
    hide SpecFault, WorstOf, DetailsOf;
  }

  /** Evaluating an evaluated action again: the stored record for an equal output, a conflict for any other. */
  function EvaluatedAgain(s: State, e: Json, output: Json): Response {
    if !Readable(s.commitments) || !Readable(s.evaluations) then Crashed500
    else if output == e.Get("submitted_output") then Done200(false, e)
    else Conflict409
  }

  lemma StoredLookup(policy: Policy, records: seq<Json>, i: nat, key: string)
    requires Lawful(policy) && OnePerKey(policy, records) && i < |records| && policy.validate(records[i]) == Some(key)
    ensures policy.validKey(key)
    ensures Lookup(policy, records, key) == if Readable(records) then Some(Some(records[i])) else None
  {
    LatestOfStored(policy, records, i);
  }

  lemma ReplayedRecord(p: Platform, s: State, i: nat, j: nat, output: Json)
    requires OnePerKey(STORE, s.evaluations) && i < |s.evaluations| && j < |s.commitments|
    requires FollowsFrom(p, s.evaluations[i], s.commitments[j])
    requires IsSha256Text(Commitment.Validate(p, s.commitments[j]).value)
    ensures var ref, e := Commitment.Validate(p, s.commitments[j]).value, s.evaluations[i];
            && BuildRecord(p, ref, s.commitments[j], output).Some?
            && var record := ToJson(BuildRecord(p, ref, s.commitments[j], output).value);
               && EvaluationStore.Validate(record) == EvaluationStore.Validate(e)
               && (record == e <==> output == e.Get("submitted_output"))
  {
    var c, e := s.commitments[j], s.evaluations[i];
    var ref := Commitment.Validate(p, c).value;
    CrashIgnoresOutput(p, ref, c, e.Get("submitted_output"), output);
    BuiltFollows(p, c, output);
  }

  /** The route on a ref whose commitment is stored. */
  lemma RouteUnderCommitment(p: Platform, s: State, j: nat, ref: string, output: Json)
    requires OnePerKey(Commitment.Store(p), s.commitments) && j < |s.commitments|
    requires Commitment.Validate(p, s.commitments[j]) == Some(ref)
    requires BuildRecord(p, ref, s.commitments[j], output).Some?
    ensures IsSha256Text(ref)
    ensures var record := ToJson(BuildRecord(p, ref, s.commitments[j], output).value);
            var (evaluations, outcome) := StoreSpec(STORE, s.evaluations, record);
            EvaluateSpecRoute(p, s, ref, output)
            == if Readable(s.commitments) then (s.(evaluations := evaluations), StoreResponse(outcome, record))
               else (s, Crashed500)
  {
    Commitment.StoreLawful(p);
    hide Commitment.Validate, BuildRecord, ToJson, StoreSpec, Readable;
    StoredLookup(Commitment.Store(p), s.commitments, j, ref);
    hide Lookup;
  }

  lemma StoredRefHasForm(p: Platform, c: Json)
    requires Commitment.Validate(p, c).Some?
    ensures IsSha256Text(Commitment.Validate(p, c).value)
  {
    Commitment.StoreLawful(p);
    hide Commitment.Validate;
    assert Commitment.Store(p).validate(c).Some?;
  }

  lemma EvaluateAgainUnder(p: Platform, s: State, i: nat, j: nat, output: Json)
    requires OnePerKey(Commitment.Store(p), s.commitments) && OnePerKey(STORE, s.evaluations)
    requires i < |s.evaluations| && j < |s.commitments| && FollowsFrom(p, s.evaluations[i], s.commitments[j])
    ensures EvaluationStore.Validate(s.evaluations[i]).Some?
    ensures EvaluateSpecRoute(p, s, EvaluationStore.Validate(s.evaluations[i]).value, output)
            == (s, EvaluatedAgain(s, s.evaluations[i], output))
  {
    SameRef(p, s.evaluations[i], s.commitments[j]);
    hide *;
    var e := s.evaluations[i];
    var ref := EvaluationStore.Validate(e).value;
    StoredRefHasForm(p, s.commitments[j]);
    ReplayedRecord(p, s, i, j, output);
    RouteUnderCommitment(p, s, j, ref, output);
    var record := ToJson(BuildRecord(p, ref, s.commitments[j], output).value);
    StoreValidAgain(s, i, record);
    AnswersAgain(s, e, output, record);
  }

  lemma AnswersAgain(s: State, e: Json, output: Json, record: Json)
    requires record == e <==> output == e.Get("submitted_output")
    ensures var outcome := if !Readable(s.evaluations) then Unreadable
            else if record == e then Stored(false) else Conflict;
            (if Readable(s.commitments) then (s.(evaluations := s.evaluations), StoreResponse(outcome, record))
             else (s, Crashed500))
            == (s, EvaluatedAgain(s, e, output))
  {
  }

  lemma SameRef(p: Platform, e: Json, c: Json)
    requires FollowsFrom(p, e, c)
    ensures Commitment.Validate(p, c).Some? && EvaluationStore.Validate(e) == Commitment.Validate(p, c)
  {
  }

  lemma EvaluateAgain(p: Platform, s: State, i: nat, output: Json)
    requires Invariant(p, s) && i < |s.evaluations|
    ensures EvaluationStore.Validate(s.evaluations[i]).Some?
    ensures EvaluateSpecRoute(p, s, EvaluationStore.Validate(s.evaluations[i]).value, output)
            == (s, EvaluatedAgain(s, s.evaluations[i], output))
  {
    hide FollowsFrom, EvaluationStore.Validate, EvaluateSpecRoute, EvaluatedAgain, OnePerKey;
    assert HasCommitment(p, s.commitments, s.evaluations[i]);
    var j :| 0 <= j < |s.commitments| && FollowsFrom(p, s.evaluations[i], s.commitments[j]);
    EvaluateAgainUnder(p, s, i, j, output);
  }

  lemma StoreValidAgain(s: State, i: nat, record: Json)
    requires OnePerKey(STORE, s.evaluations) && i < |s.evaluations|
    requires EvaluationStore.Validate(record) == EvaluationStore.Validate(s.evaluations[i])
    ensures StoreSpec(STORE, s.evaluations, record) ==
            (s.evaluations, if !Readable(s.evaluations) then Unreadable
                            else if record == s.evaluations[i] then Stored(false) else Conflict)
  {
    StoreLawful();
    hide EvaluationStore.Validate;
    StoredLookup(STORE, s.evaluations, i, STORE.validate(s.evaluations[i]).value);
    if Readable(s.evaluations) { StoreAgain(STORE, s.evaluations, i, record); }
  }

  /** Issuing again returns the first receipt, whatever the configuration and the clock say now. */
  lemma IssueAgain(p: Platform, s: State, i: nat, env: Receipts.Environment, at: string)
    requires Invariant(p, s) && i < |s.receipts|
    ensures Receipts.Validate(s.receipts[i]).Some?
    ensures IssueSpec(p, s, Receipts.Validate(s.receipts[i]).value, env, at)
            == (s, if Readable(s.evaluations) && Readable(s.receipts) then Done200(false, s.receipts[i])
              else Crashed500)
  {
    hide IssueSpec, EvaluationStore.Validate, Receipts.Validate, OnePerKey, Readable;
    assert HasEvaluation(p, s.evaluations, s.receipts[i]);
    var j :| 0 <= j < |s.evaluations| && Attests(p, s.receipts[i], s.evaluations[j]);
    IssueFindsReceipt(p, s, i, j, env, at);
  }

  lemma IssueFindsReceipt(p: Platform, s: State, i: nat, j: nat, env: Receipts.Environment, at: string)
    requires OnePerKey(STORE, s.evaluations) && OnePerKey(Receipts.STORE, s.receipts)
    requires i < |s.receipts| && j < |s.evaluations| && EvaluationStore.Validate(s.evaluations[j]).Some?
    requires Receipts.Validate(s.receipts[i]) == EvaluationStore.Validate(s.evaluations[j])
    ensures IssueSpec(p, s, Receipts.Validate(s.receipts[i]).value, env, at)
            == (s, if Readable(s.evaluations) && Readable(s.receipts) then Done200(false, s.receipts[i])
              else Crashed500)
  {
    StoreLawful();
    Receipts.StoreLawful();
    hide EvaluationStore.Validate, Receipts.Validate, OnePerKey, Lookup, NewReceipt, Receipts.LoadConfig, StoreSpec,
      Readable, IsSha256Text;
    var ref := Receipts.Validate(s.receipts[i]).value;
    StoredLookup(STORE, s.evaluations, j, ref);
    StoredLookup(Receipts.STORE, s.receipts, i, ref);
  }

  /**
   Retry stability: after any further traffic, an evaluated action still answers with its stored record, refuses every
   other output, and an issued receipt is returned unchanged; none of this alters a ledger.
  */
  lemma RetriesAreStable(p: Platform, s: State, requests: seq<Request>, i: nat, output: Json)
    requires Invariant(p, s) && i < |s.evaluations|
    ensures var later, e := Run(p, s, requests), s.evaluations[i];
            && EvaluationStore.Validate(e).Some?
            && EvaluateSpecRoute(p, later, EvaluationStore.Validate(e).value, output)
               == (later, EvaluatedAgain(later, e, output))
  {
    RunKeeps(p, s, requests);
    hide Run, Invariant, EvaluateSpecRoute, EvaluationStore.Validate, EvaluatedAgain;
    var later := Run(p, s, requests);
    assert later.evaluations[i] == s.evaluations[i];
    EvaluateAgain(p, later, i, output);
  }

  lemma ReissueIsStable(p: Platform, s: State, requests: seq<Request>, i: nat, env: Receipts.Environment, at: string)
    requires Invariant(p, s) && i < |s.receipts|
    ensures var later, r := Run(p, s, requests), s.receipts[i];
            && Receipts.Validate(r).Some?
            && IssueSpec(p, later, Receipts.Validate(r).value, env, at)
               == (later, if Readable(later.evaluations) && Readable(later.receipts) then Done200(false, r)
                 else Crashed500)
  {
    RunKeeps(p, s, requests);
    hide Run, Invariant, IssueSpec, Receipts.Validate, Readable;
    var later := Run(p, s, requests);
    assert later.receipts[i] == s.receipts[i];
    IssueAgain(p, later, i, env, at);
  }

  // ----- the service over its ledgers -----

  class PathCService {
    const commitments: Ledger
    const evaluations: Ledger
    const receipts: Ledger

    constructor ()
      ensures Valid() && Abstract() == EMPTY
      ensures fresh(commitments) && fresh(evaluations) && fresh(receipts)
    {
      commitments := new Ledger();
      evaluations := new Ledger();
      receipts := new Ledger();
    }

    predicate Valid() {
      commitments != evaluations && evaluations != receipts && commitments != receipts
    }

    function Abstract(): State
      reads commitments, evaluations, receipts
    {
      State(commitments.records, evaluations.records, receipts.records)
    }

    /** `post_action_commitment` */
    method PostActionCommitment(p: Platform, record: Json) returns (response: Response)
      requires Valid()
      modifies commitments
      ensures (Abstract(), response) == CommitSpec(p, old(Abstract()), record)
    {
      hide StoreSpec;
      var outcome := commitments.Store(Commitment.Store(p), record);
      response := StoreResponse(outcome, record);
    }

    /** `post_evaluate_deterministic` */
    method PostEvaluateDeterministic(p: Platform, ref: string, output: Json) returns (response: Response)
      requires Valid()
      modifies evaluations
      ensures (Abstract(), response) == EvaluateSpecRoute(p, old(Abstract()), ref, output)
    {
      hide StoreSpec, Lookup, EvaluateSpec, IntentSpec, ToJson, StoreResponse, SpecIdOf, IsSha256Text,
           Commitment.ReleaseProfile, Commitment.Validate, EvaluationStore.Validate;
      if !IsSha256Text(ref) {
        return Unprocessable422;
      }
      var found := commitments.Get(Commitment.Store(p), ref);
      if found.None? {
        return Crashed500;
      }
      if found.value.None? {
        return NotFound404;
      }
      var commitment := found.value.value;
      var profile := Commitment.ReleaseProfile(commitment);
      var reason: Option<Reason> := None;
      var policy: Option<Json> := None;
      var result, details := Indeterminate, [];
      if profile.None? {
        reason := Some(MissingProfile);
      } else if !profile.value.Get("acceptance_spec").Obj? {
        reason := Some(MissingSpec);
      } else {
        if profile.value.Get("release_policy").Obj? {
          policy := Some(profile.value.Get("release_policy"));
        }
        var evaluated := EvaluateAcceptanceSpec(p, profile.value.Get("acceptance_spec"), output);
        match evaluated
        case Ok(e) => result, details := e.result, e.details;
        case Err(BadSpec) => reason := Some(InvalidSpec);
        case Err(Crash) => return Crashed500;
      }
      var intent := DeriveIntent(result, policy);
      if intent.None? {
        return Crashed500;
      }
      var record :=
        EvaluationRecord(ref, SpecIdOf(commitment), result, details, intent.value, output, reason);
      var outcome := evaluations.Store(STORE, ToJson(record));
      response := StoreResponse(outcome, ToJson(record));
    }

    /** `post_continuity_evaluation_receipt` */
    method PostContinuityReceipt(p: Platform, ref: string, env: Receipts.Environment, at: string)
      returns (response: Response)
      requires Valid()
      modifies receipts
      ensures (Abstract(), response) == IssueSpec(p, old(Abstract()), ref, env, at)
    {
      hide StoreSpec, Lookup, NewReceipt, Receipts.LoadConfig;
      if !IsSha256Text(ref) {
        return Unprocessable422;
      }
      var evaluation := evaluations.Get(STORE, ref);
      if evaluation.None? {
        return Crashed500;
      }
      if evaluation.value.None? {
        return NotFound404;
      }
      var existing := receipts.Get(Receipts.STORE, ref);
      if existing.None? {
        return Crashed500;
      }
      if existing.value.Some? {
        return Done200(false, existing.value.value);
      }
      var config := Receipts.LoadConfig(p, env);
      if config.None? {
        return Unavailable503;
      }
      var receipt := NewReceipt(p, config.value, ref, evaluation.value.value, at);
      if receipt.None? {
        return Crashed500;
      }
      var outcome := receipts.Store(Receipts.STORE, receipt.value);
      response := StoreResponse(outcome, receipt.value);
    }
  }
}
