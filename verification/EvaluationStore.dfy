/** The unsigned Step 2A evaluation record: how it is laid out, the shape check, and its write-once store. */
module EvaluationStore {
  import opened Text
  import opened JsonValue
  import opened Evaluator
  import opened WriteOnce

  const RECORD_TYPE := "deterministic_evaluation_record"
  const RECORD_VERSION := "deterministic_evaluation_record_v1"

  const BOUNDED_CLAIM :=
    "A deterministic evaluator applied a committed acceptance spec to a "
    + "submitted output and produced a recorded result. This record is UNSIGNED: "
    + "it is not a Continuity Evaluation Receipt, not a signed receipt, not proof "
    + "of execution, not proof of payment or resource-release finality, not an "
    + "actual release, and not a statement of objective correctness or legal "
    + "sufficiency."

  predicate ValidResult(v: Json) {
    v == Str("PASS") || v == Str("FAIL") || v == Str("INDETERMINATE") || v == Str("EVALUATOR_TIMEOUT")
  }

  /** `validate_deterministic_evaluation_record`: the record's action_ref, or `None` for a record error. */
  function Validate(r: Json): Option<string> {
    if !r.Obj? || r.Get("record_type") != Str(RECORD_TYPE) || r.Get("record_version") != Str(RECORD_VERSION) then None
    else if !IsSha256(r.Get("action_ref")) || !ValidResult(r.Get("result")) || !r.Get("checks").Arr? then None
    else if !r.Get("declared_release_intent").NonEmptyStr() then None
    else if r.Has("reason_code") && !r.Get("reason_code").NonEmptyStr() then None
    else if r.Has("signature") || r.Has("kid") || r.Has("key_id") then None
    else Some(r.Get("action_ref").s)
  }

  const STORE := Policy("action_ref", IsSha256Text, Validate)

  lemma StoreLawful()
    ensures Lawful(STORE)
  {
    hide ValidResult;
  }

  // ----- the record the evaluation route builds -----

  datatype Reason = MissingProfile | MissingSpec | InvalidSpec

  function ReasonText(r: Reason): string {
    match r
    case MissingProfile => "MISSING_CONDITIONAL_RELEASE_PROFILE"
    case MissingSpec => "MISSING_ACCEPTANCE_SPEC"
    case InvalidSpec => "INVALID_ACCEPTANCE_SPEC"
  }

  datatype EvaluationRecord = EvaluationRecord(
    actionRef: string, specId: Json, result: Verdict, details: seq<Detail>, intent: string, output: Json,
    reason: Option<Reason>)

  function StatusText(s: Status): string {
    match s
    case Satisfied => "satisfied"
    case Unsatisfied => "unsatisfied"
    case Unevaluable => "unevaluable"
  }

  function Member(key: string, v: Option<Json>): map<string, Json> {
    if v.Some? then map[key := v.value] else map[]
  }

  function DetailJson(d: Detail): Json {
    Obj(map["kind" := d.kind] + map["status" := Str(StatusText(d.status))]
        + Member("reason", if d.reason.Some? then Some(Str(d.reason.value)) else None)
        + Member("observed", d.observed) + Member("expected", d.expected))
  }

  function DetailsJson(ds: seq<Detail>): Json {
    Arr(seq(|ds|, i requires 0 <= i < |ds| => DetailJson(ds[i])))
  }

  function ToJson(r: EvaluationRecord): Json {
    Obj(map[
          "record_type" := Str(RECORD_TYPE),
          "record_version" := Str(RECORD_VERSION),
          "action_ref" := Str(r.actionRef),
          "spec_id" := r.specId,
          "evaluator_type" := Str("deterministic"),
          "result" := Str(VerdictText(r.result)),
          "checks" := DetailsJson(r.details),
          "declared_release_intent" := Str(r.intent),
          "submitted_output" := r.output,
          "bounded_claim" := Str(BOUNDED_CLAIM)]
        + Member("reason_code", if r.reason.Some? then Some(Str(ReasonText(r.reason.value))) else None))
  }

  /** The record under these keys; the keys it may not carry are absent. */
  lemma RecordFields(r: EvaluationRecord)
    ensures ToJson(r).Get("action_ref") == Str(r.actionRef)
    ensures ToJson(r).Get("result") == Str(VerdictText(r.result))
    ensures ToJson(r).Get("checks") == DetailsJson(r.details)
    ensures ToJson(r).Get("declared_release_intent") == Str(r.intent)
    ensures ToJson(r).Get("submitted_output") == r.output
  {
    hide DetailsJson, VerdictText, ReasonText;
  }

  lemma ConstantRecordFields(r: EvaluationRecord)
    ensures ToJson(r).Obj?
    ensures ToJson(r).Get("record_type") == Str(RECORD_TYPE) && ToJson(r).Get("record_version") == Str(RECORD_VERSION)
  {
    hide DetailsJson, VerdictText, ReasonText;
  }

  lemma OptionalRecordFields(r: EvaluationRecord)
    ensures ToJson(r).Get("reason_code") == if r.reason.Some? then Str(ReasonText(r.reason.value)) else Null
    ensures ToJson(r).Has("reason_code") <==> r.reason.Some?
    ensures !ToJson(r).Has("signature") && !ToJson(r).Has("kid") && !ToJson(r).Has("key_id")
  {
    hide DetailsJson, VerdictText, ReasonText;
  }

  /** A built record passes the shape check when its action_ref has the right form and its intent is not empty. */
  lemma BuiltIsValid(r: EvaluationRecord)
    requires IsSha256Text(r.actionRef) && r.intent != ""
    ensures Validate(ToJson(r)) == Some(r.actionRef)
  {
    RecordFields(r);
    ConstantRecordFields(r);
    OptionalRecordFields(r);
    hide ToJson;
    assert r.reason.Some? ==> ReasonText(r.reason.value) != "";
  }

  /** When the store takes an evaluation record, and under which key. */
  lemma ValidIff(r: Json, ref: string)
    ensures Validate(r) == Some(ref) <==>
            && r.Get("record_type") == Str("deterministic_evaluation_record")
            && r.Get("record_version") == Str("deterministic_evaluation_record_v1")
            && r.Get("action_ref") == Str(ref) && IsSha256Text(ref)
            && (r.Get("result") == Str("PASS") || r.Get("result") == Str("FAIL")
                || r.Get("result") == Str("INDETERMINATE") || r.Get("result") == Str("EVALUATOR_TIMEOUT"))
            && r.Get("checks").Arr?
            && r.Get("declared_release_intent").Str? && r.Get("declared_release_intent") != Str("")
            && (!r.Has("reason_code") || (r.Get("reason_code").Str? && r.Get("reason_code") != Str("")))
            && !r.Has("signature") && !r.Has("kid") && !r.Has("key_id")
  {
    hide IsSha256Text;
  }

  /** The remaining members of a built record, by name. */
  lemma RecordSays(r: EvaluationRecord)
    ensures var json := ToJson(r);
            && json.Get("record_type") == Str("deterministic_evaluation_record")
            && json.Get("record_version") == Str("deterministic_evaluation_record_v1")
            && json.Get("evaluator_type") == Str("deterministic") && json.Get("spec_id") == r.specId
            && json.Get("bounded_claim") == Str(BOUNDED_CLAIM)
            && json.Get("checks").Arr? && |json.Get("checks").items| == |r.details|
            && forall i :: 0 <= i < |r.details| ==> json.Get("checks").items[i] == DetailJson(r.details[i])
  {
    hide DetailJson, VerdictText, ReasonText;
  }

  /** One check's entry, by name: what it did not see or expect, and a reason it does not need, are left out. */
  lemma DetailSays(d: Detail)
    ensures var json := DetailJson(d);
            && json.Get("kind") == d.kind
            && (json.Get("status") == Str("satisfied") <==> d.status == Satisfied)
            && (json.Get("status") == Str("unsatisfied") <==> d.status == Unsatisfied)
            && (json.Get("status") == Str("unevaluable") <==> d.status == Unevaluable)
            && (json.Has("reason") <==> d.reason.Some?)
            && (d.reason.Some? ==> json.Get("reason") == Str(d.reason.value))
            && (json.Has("observed") <==> d.observed.Some?)
            && (d.observed.Some? ==> json.Get("observed") == d.observed.value)
            && (json.Has("expected") <==> d.expected.Some?)
            && (d.expected.Some? ==> json.Get("expected") == d.expected.value)
  {
    assert |"satisfied"| == 9 && |"unsatisfied"| == 11 && |"unevaluable"| == 11;
    assert "unsatisfied"[2] == 's' && "unevaluable"[2] == 'e';
    DetailMembers(d);
    hide DetailJson;
  }

  lemma DetailMembers(d: Detail)
    ensures var json := DetailJson(d);
            && json.Get("kind") == d.kind && json.Get("status") == Str(StatusText(d.status))
            && (json.Has("reason") <==> d.reason.Some?)
            && (d.reason.Some? ==> json.Get("reason") == Str(d.reason.value))
            && (json.Has("observed") <==> d.observed.Some?)
            && (d.observed.Some? ==> json.Get("observed") == d.observed.value)
            && (json.Has("expected") <==> d.expected.Some?)
            && (d.expected.Some? ==> json.Get("expected") == d.expected.value)
  {
    hide StatusText;
    DetailHas(d);
  }

  lemma DetailHas(d: Detail)
    ensures var json := DetailJson(d);
            && (json.Has("reason") <==> d.reason.Some?) && (json.Has("observed") <==> d.observed.Some?)
            && (json.Has("expected") <==> d.expected.Some?)
  {
    hide StatusText;
  }
}
