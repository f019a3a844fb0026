/** Signed Continuity Evaluation Receipts: configuration, core, signature, verification, and their write-once store. */
module Receipts {
  import opened Text
  import opened JsonValue
  import opened CanonicalJson
  import opened Crypto
  import opened Jsonl
  import opened WriteOnce
  import opened Utf8

  const SCHEMA_ID := "ds.continuity_evaluation.v0.1"
  const SIGNATURE_ALG := "ed25519"
  const DEFAULT_EVALUATOR_ID := "agent:defaultverifier:continuity-v1"
  const DEFAULT_POLICY_REF := "policy:default-settlement/sar-402-deterministic-conditional-release-v1"

  predicate IsState(s: string) {
    s == "PASS" || s == "FAIL" || s == "INDETERMINATE" || s == "EVALUATOR_TIMEOUT"
  }

  predicate IsLowerOrDigit(c: char) {
    'a' <= c <= 'z' || '0' <= c <= '9'
  }

  predicate IsLabelChar(c: char) {
    IsLowerOrDigit(c) || 'A' <= c <= 'Z' || c == '.' || c == '_' || c == '-'
  }

  predicate IsPlainAgentId(s: string) {
    var labels := Split(s, ':');
    && |labels| >= 2 && labels[0] == "agent"
    && labels[1] != "" && (forall i :: 0 <= i < |labels[1]| ==> IsLowerOrDigit(labels[1][i]))
    && forall k :: 2 <= k < |labels| ==>
         labels[k] != "" && forall i :: 0 <= i < |labels[k]| ==> IsLabelChar(labels[k][i])
  }

  /** `_AGENT_ID_RE.match`, whose `$` also accepts one final newline. */
  predicate IsAgentId(s: string) {
    IsPlainAgentId(s) || (EndsWith(s, '\n') && IsPlainAgentId(s[..|s| - 1]))
  }

  /** Lower-case letters and digits, and what the later labels allow besides. */
  predicate SmallLabel(s: string) {
    s != "" && forall i :: 0 <= i < |s| ==> 97 <= s[i] as int <= 122 || 48 <= s[i] as int <= 57
  }

  predicate WideLabel(s: string) {
    s != "" && forall i :: 0 <= i < |s| ==>
                 || 97 <= s[i] as int <= 122 || 65 <= s[i] as int <= 90 || 48 <= s[i] as int <= 57
                 || s[i] in ['.', '_', '-']
  }

  /** `agent:`, then labels joined by colons, the first a small one. */
  predicate Labelled(s: string, labels: seq<string>) {
    && |labels| > 0 && s == "agent:" + Join(labels, ':')
    && SmallLabel(labels[0]) && forall k :: 1 <= k < |labels| ==> WideLabel(labels[k])
  }

  lemma AgentIdIff(s: string)
    ensures IsPlainAgentId(s) <==> exists labels :: Labelled(s, labels)
  {
    hide IsPlainAgentId, Labelled;
    if IsPlainAgentId(s) { var labels := LabelsOf(s); }
    if labels :| Labelled(s, labels) { LabelledIsPlain(s, labels); }
  }

  lemma LabelsOf(s: string) returns (labels: seq<string>)
    requires IsPlainAgentId(s)
    ensures Labelled(s, labels)
  {
    hide Split, Join;
    var all := Split(s, ':');
    JoinOfSplit(s, ':');
    JoinFirst(all);
    labels := all[1..];
    assert forall k :: 1 <= k < |labels| ==> labels[k] == all[k + 1];
  }

  lemma LabelledIsPlain(s: string, labels: seq<string>)
    requires Labelled(s, labels)
    ensures IsPlainAgentId(s)
  {
    hide Split, Join;
    LabelsSplit(labels);
    var all := Split(s, ':');
    assert all == ["agent"] + labels;
    forall k | 2 <= k < |all|
      ensures all[k] != "" && forall i :: 0 <= i < |all[k]| ==> IsLabelChar(all[k][i])
    {
      assert all[k] == labels[k - 1] && WideLabel(labels[k - 1]);
    }
  }

  lemma JoinFirst(all: seq<string>)
    requires |all| >= 2 && all[0] == "agent"
    ensures Join(all, ':') == "agent:" + Join(all[1..], ':')
  {
    assert Join(all, ':') == all[0] + [':'] + Join(all[1..], ':');
    hide *;
    AgentColon();
  }

  lemma AgentColon()
    ensures "agent" + [':'] == "agent:"
  {
  }

  lemma LabelsSplit(labels: seq<string>)
    requires |labels| > 0 && SmallLabel(labels[0]) && forall k :: 1 <= k < |labels| ==> WideLabel(labels[k])
    ensures Split("agent:" + Join(labels, ':'), ':') == ["agent"] + labels
  {
    LabelsHaveNoColon(labels);
    hide *;
    AfterAgent(Join(labels, ':'));
    SplitOfJoin(labels, ':');
  }

  lemma LabelsHaveNoColon(labels: seq<string>)
    requires |labels| > 0 && SmallLabel(labels[0]) && forall k :: 1 <= k < |labels| ==> WideLabel(labels[k])
    ensures forall k :: 0 <= k < |labels| ==> ':' !in labels[k]
  {
  }

  lemma AfterAgent(rest: string)
    ensures Split("agent:" + rest, ':') == ["agent"] + Split(rest, ':')
  {
    hide Split;
    AgentColon();
    SplitAtSeparator("agent", rest, ':');
    SplitWithoutSeparator("agent", ':');
  }

  /** The default identity is one. */
  lemma DefaultIsAgentId()
    ensures IsAgentId(DEFAULT_EVALUATOR_ID)
  {
    DefaultLabels();
    hide IsPlainAgentId, Labelled;
    LabelledIsPlain(DEFAULT_EVALUATOR_ID, ["defaultverifier", "continuity-v1"]);
  }

  lemma DefaultLabels()
    ensures Labelled(DEFAULT_EVALUATOR_ID, ["defaultverifier", "continuity-v1"])
  {
    DefaultLabelsAreLabels();
    DefaultLabelsJoined();
    DefaultText();
    hide Join, SmallLabel, WideLabel, DEFAULT_EVALUATOR_ID;
  }

  lemma DefaultText()
    ensures "agent:" + "defaultverifier:continuity-v1" == DEFAULT_EVALUATOR_ID
  {
  }

  lemma DefaultLabelsAreLabels()
    ensures SmallLabel("defaultverifier") && WideLabel("continuity-v1")
  {
  }

  lemma DefaultLabelsJoined()
    ensures Join(["defaultverifier", "continuity-v1"], ':') == "defaultverifier:continuity-v1"
  {
    assert Join(["continuity-v1"], ':') == "continuity-v1";
    assert "defaultverifier" + ":" + "continuity-v1" == "defaultverifier:continuity-v1";
  }

  /** No identity has a hyphen before its second colon. */
  lemma HyphenInFirstLabel(a: string, b: string)
    requires ':' !in a
    ensures !IsAgentId("agent:" + a + "-" + b)
  {
    NotPlain(a, b);
    if b != "" { NotPlain(a, b[..|b| - 1]); }
    hide IsPlainAgentId;
    var s := "agent:" + a + "-" + b;
    if b == "" {
      assert s[|s| - 1] == '-';
    } else {
      assert s[..|s| - 1] == "agent:" + a + "-" + b[..|b| - 1];
    }
  }

  lemma NotPlain(a: string, b: string)
    requires ':' !in a
    ensures !IsPlainAgentId("agent:" + a + "-" + b)
  {
    AfterAgent(a + "-" + b);
    assert "agent:" + (a + "-" + b) == "agent:" + a + "-" + b;
    FirstPartKeeps(a, '-', b, ':');
    hide Split;
    var parts := Split(a + "-" + b, ':');
    assert (["agent"] + parts)[1] == parts[0];
    assert parts[0][|a|] == (a + "-")[|a|];
    assert !IsLowerOrDigit(parts[0][|a|]);
  }

  lemma {:induction false} FirstPartKeeps(a: string, c: char, b: string, sep: char)
    requires sep !in a && c != sep
    ensures a + [c] <= Split(a + [c] + b, sep)[0]
  {
    var s := a + [c] + b;
    if |a| > 0 {
      assert s[1..] == a[1..] + [c] + b;
      FirstPartKeeps(a[1..], c, b, sep);
      assert a == [a[0]] + a[1..];
    }
  }

  predicate Blank(s: string) {
    Strip(s) == ""
  }

  /** The environment; a private key that is absent or does not load is `None`. */
  datatype Environment = Environment(
    evaluatorId: Option<string>, policyRef: Option<string>, privateKey: Option<string>, pinnedKey: Option<string>)

  datatype Config = Config(evaluatorId: string, policyRef: string, privateKey: string)

  function OrDefault(v: Option<string>, default: string): string {
    if v.Some? && v.value != "" then v.value else default
  }

  /** `EvaluatorSigningConfig.from_env`; `None` is a configuration error. */
  function LoadConfig(p: Platform, env: Environment): Option<Config> {
    var id := OrDefault(env.evaluatorId, DEFAULT_EVALUATOR_ID);
    var policy := OrDefault(env.policyRef, DEFAULT_POLICY_REF);
    if !IsAgentId(id) || Blank(policy) || env.privateKey.None? then None
    else if env.pinnedKey.Some? && env.pinnedKey.value != ""
            && Strip(env.pinnedKey.value) != p.publicOf(env.privateKey.value) then None
    else Some(Config(id, policy, env.privateKey.value))
  }

  predicate Unset(v: Option<string>) {
    v == None || v == Some("")
  }

  /** Which configuration an environment gives, and when it gives one. */
  lemma ConfigIff(p: Platform, env: Environment, c: Config)
    ensures LoadConfig(p, env) == Some(c) <==>
            && (if Unset(env.evaluatorId) then c.evaluatorId == "agent:defaultverifier:continuity-v1"
                else Some(c.evaluatorId) == env.evaluatorId)
            && (if Unset(env.policyRef)
                then c.policyRef == "policy:default-settlement/sar-402-deterministic-conditional-release-v1"
                else Some(c.policyRef) == env.policyRef)
            && IsAgentId(c.evaluatorId) && Strip(c.policyRef) != "" && Some(c.privateKey) == env.privateKey
            && (Unset(env.pinnedKey) || Strip(env.pinnedKey.value) == p.publicOf(c.privateKey))
  {
    hide IsAgentId, Strip;
  }

  /** `build_continuity_evaluation_core`; `None` is a receipt error. */
  function BuildCore(actionRef: string, evaluationState: Json, c: Config, at: string, reason: Option<string>)
    : Option<Json>
  {
    if !IsSha256Text(actionRef) || !evaluationState.Str? || !IsState(evaluationState.s) then None
    else if !IsAgentId(c.evaluatorId) || Blank(c.policyRef) || Blank(at) then None
    else if reason == Some("") then None
    else Some(CoreJson(actionRef, evaluationState.s, c, at, reason))
  }

  function CoreJson(actionRef: string, evaluationState: string, c: Config, at: string, reason: Option<string>): Json {
    Obj(map["schema_id" := Str(SCHEMA_ID), "action_ref" := Str(actionRef), "evaluator_id" := Str(c.evaluatorId),
            "evaluation_state" := Str(evaluationState), "policy_ref" := Str(c.policyRef), "evaluated_at" := Str(at)]
        + if reason.Some? then map["reason_code" := Str(reason.value)] else map[])
  }

  lemma BuiltCore(actionRef: string, evaluationState: Json, c: Config, at: string, reason: Option<string>)
    requires BuildCore(actionRef, evaluationState, c, at, reason).Some?
    ensures IsSha256Text(actionRef) && evaluationState.Str?
    ensures BuildCore(actionRef, evaluationState, c, at, reason).value
            == CoreJson(actionRef, evaluationState.s, c, at, reason)
  {
    hide IsSha256Text, IsState, IsAgentId, Blank, CoreJson;
  }

  /** Which inputs make a core: the four states, an agent identity, a policy, a time, and no empty reason. */
  lemma CoreBuiltIff(actionRef: string, evaluationState: Json, c: Config, at: string, reason: Option<string>)
    ensures BuildCore(actionRef, evaluationState, c, at, reason).Some? <==>
            && IsSha256Text(actionRef)
            && (evaluationState == Str("PASS") || evaluationState == Str("FAIL")
                || evaluationState == Str("INDETERMINATE") || evaluationState == Str("EVALUATOR_TIMEOUT"))
            && IsAgentId(c.evaluatorId) && Strip(c.policyRef) != "" && Strip(at) != "" && reason != Some("")
  {
    hide IsAgentId, Strip, IsSha256Text;
  }

  lemma CoreFields(actionRef: string, evaluationState: string, c: Config, at: string, reason: Option<string>)
    ensures var core := CoreJson(actionRef, evaluationState, c, at, reason);
            && core.Obj? && !core.Has("signature")
            && core.Get("schema_id") == Str("ds.continuity_evaluation.v0.1")
            && core.Get("action_ref") == Str(actionRef)
            && core.Get("evaluator_id") == Str(c.evaluatorId)
            && core.Get("evaluation_state") == Str(evaluationState)
            && core.Get("policy_ref") == Str(c.policyRef)
            && core.Get("evaluated_at") == Str(at)
            && core.Get("reason_code") == if reason.Some? then Str(reason.value) else Null
  {
  }

  /** `_signed_core` */
  function SignedCore(receipt: Json): Json {
    if receipt.Obj? then Obj(receipt.fields - {"signature"}) else receipt
  }

  function SignatureBlock(p: Platform, c: Config, core: Json): Json {
    Obj(map["alg" := Str(SIGNATURE_ALG), "key_id" := Str(c.evaluatorId), "public_key" := Str(p.publicOf(c.privateKey)),
            "signature" := Str(p.sign(c.privateKey, Canonical(core)))])
  }

  /** `sign_continuity_evaluation_receipt` on an object; `None` is a receipt error. */
  function SignReceipt(p: Platform, c: Config, core: Json): Option<Json>
    requires core.Obj?
  {
    if core.Has("signature") || core.Get("evaluator_id") != Str(c.evaluatorId) then None
    else Some(Obj(core.fields["signature" := SignatureBlock(p, c, core)]))
  }

  /** `verify_continuity_evaluation_receipt` */
  function VerifyReceipt(p: Platform, receipt: Json, trustedKey: string): Option<Json> {
    var sig := receipt.Get("signature");
    if !sig.Obj? || sig.Get("alg") != Str(SIGNATURE_ALG) then None
    else if !sig.Get("key_id").Str? || !sig.Get("public_key").Str? || !sig.Get("signature").Str? then None
    else if sig.Get("key_id") != receipt.Get("evaluator_id") then None
    else if sig.Get("public_key").s != trustedKey then None
    else if !p.verify(trustedKey, sig.Get("signature").s, Canonical(SignedCore(receipt))) then None
    else Some(SignedCore(receipt))
  }

  lemma BlockFields(p: Platform, c: Config, core: Json)
    ensures var sig := SignatureBlock(p, c, core);
            && sig.Obj? && sig.Get("alg") == Str(SIGNATURE_ALG) && sig.Get("key_id") == Str(c.evaluatorId)
            && sig.Get("public_key") == Str(p.publicOf(c.privateKey))
            && sig.Get("signature") == Str(p.sign(c.privateKey, Canonical(core)))
  {
    hide Canonical;
  }

  lemma CoreOfSigned(core: Json, block: Json)
    requires core.Obj? && !core.Has("signature")
    ensures SignedCore(Obj(core.fields["signature" := block])) == core
  {
    assert core.fields["signature" := block] - {"signature"} == core.fields;
  }

  /** Round trip: what is signed verifies under the matching key, and gives the core back. */
  lemma SignedVerifies(p: Platform, c: Config, core: Json)
    requires AcceptsOwnSignatures(p) && core.Obj? && SignReceipt(p, c, core).Some?
    ensures VerifyReceipt(p, SignReceipt(p, c, core).value, p.publicOf(c.privateKey)) == Some(core)
  {
    var receipt := SignReceipt(p, c, core).value;
    BlockFields(p, c, core);
    hide Canonical, SignatureBlock;
    CoreOfSigned(core, SignatureBlock(p, c, core));
    hide SignedCore;
    assert p.verify(p.publicOf(c.privateKey), p.sign(c.privateKey, Canonical(core)), Canonical(core));
  }

  /** When a receipt verifies, and what it gives: everything but its signature block. */
  lemma VerifiedIff(p: Platform, receipt: Json, key: string, core: Json)
    ensures VerifyReceipt(p, receipt, key) == Some(core) <==>
            var sig := receipt.Get("signature");
            && sig.Get("alg") == Str("ed25519") && sig.Get("key_id").Str?
            && sig.Get("key_id") == receipt.Get("evaluator_id") && sig.Get("public_key") == Str(key)
            && core.Obj? && core == Obj(receipt.fields - {"signature"})
            && sig.Get("signature").Str? && p.verify(key, sig.Get("signature").s, Canonical(core))
  {
    hide Canonical;
  }

  /** Tamper evidence: a receipt that verifies carries, outside its signature block, a core its key signed. */
  lemma VerifiedWasSigned(p: Platform, receipt: Json, key: string, signed: iset<Bytes>, cores: set<Json>)
    requires VerifyReceipt(p, receipt, key).Some? && OnlySigned(p, key, signed)
    requires forall m :: m in signed ==> exists core :: core in cores && m == Canonical(core)
    ensures SignedCore(receipt) in cores
    ensures receipt.Get("evaluator_id") == receipt.Get("signature").Get("key_id")
  {
    hide Canonical;
    var m := Canonical(SignedCore(receipt));
    assert m in signed;
    var core :| core in cores && m == Canonical(core);
    CanonicalInjective(SignedCore(receipt), core);
  }

  /** The shape the store asks for. */
  function Validate(r: Json): Option<string> {
    if !IsSha256(r.Get("action_ref")) || !r.Get("signature").Obj? then None else Some(r.Get("action_ref").s)
  }

  const STORE := Policy("action_ref", IsSha256Text, Validate)

  lemma StoreLawful()
    ensures Lawful(STORE)
  {
  }
}
