/**
 The deterministic evaluator: dot paths, the seven check kinds, spec validation, aggregation of check results and the
 declared release intent. The loops of the source are methods proved against recursive definitions, and the laws of
 those definitions are proved as lemmas.
*/
module Evaluator {
  import opened Text
  import opened JsonValue
  import opened CanonicalJson
  import opened Crypto

  // ----- dot paths -----

  /** Follows keys through nested objects. */
  function Follow(v: Json, keys: seq<string>): Option<Json> {
    if |keys| == 0 then Some(v)
    else if v.Has(keys[0]) then Follow(v.fields[keys[0]], keys[1..])
    else None
  }

  predicate NoEmptyKey(keys: seq<string>) {
    forall i :: 0 <= i < |keys| ==> keys[i] != ""
  }

  /** What a path means: `$` is the value itself, `$.a.b` follows non-empty keys, anything else is absent. */
  function ResolveDotPath(output: Json, path: Json): Option<Json> {
    if path == Str("$") then Some(output)
    else if path.Str? && StartsWith(path.s, "$.") && NoEmptyKey(Split(path.s[2..], '.')) then
      Follow(output, Split(path.s[2..], '.'))
    else None
  }

  lemma {:induction false} FollowAppend(v: Json, keys: seq<string>, more: seq<string>)
    ensures Follow(v, keys + more) ==
            match Follow(v, keys) {
              case None => None
              case Some(w) => Follow(w, more)
            }
  {
    if |keys| == 0 {
      assert keys + more == more;
    } else {
      assert (keys + more)[1..] == keys[1..] + more;
      if v.Has(keys[0]) { FollowAppend(v.fields[keys[0]], keys[1..], more); }
    }
  }

  /** `_resolve_dot_path` */
  method Resolve(output: Json, path: Json) returns (found: Option<Json>)
    ensures found == ResolveDotPath(output, path)
  {
    if !path.Str? || path.s == "" {
      return None;
    }
    if path.s == "$" {
      return Some(output);
    }
    if !StartsWith(path.s, "$.") {
      return None;
    }
    var segments := Split(path.s[2..], '.');
    var current := output;
    var i := 0;
    while i < |segments|
      invariant 0 <= i <= |segments|
      invariant NoEmptyKey(segments[..i]) && Follow(output, segments[..i]) == Some(current)
    {
      if segments[i] == "" {
        return None;
      }
      assert segments == segments[..i] + segments[i..];
      FollowAppend(output, segments[..i], segments[i..]);
      if !current.Obj? || segments[i] !in current.fields {
        return None;
      }
      assert segments[i..][0] == segments[i];
      assert segments[..i + 1] == segments[..i] + [segments[i]];
      FollowAppend(output, segments[..i], [segments[i]]);
      assert [segments[i]][1..] == [];
      current := current.fields[segments[i]];
      i := i + 1;
    }
    assert segments[..i] == segments;
    found := Some(current);
  }

  /** `$.` and joined keys is recursive lookup of those keys. */
  lemma PathOfKeys(output: Json, keys: seq<string>)
    requires |keys| > 0 && forall i :: 0 <= i < |keys| ==> keys[i] != "" && '.' !in keys[i]
    ensures ResolveDotPath(output, Str("$." + Join(keys, '.'))) == Follow(output, keys)
  {
    var path := "$." + Join(keys, '.');
    assert path[2..] == Join(keys, '.');
    SplitOfJoin(keys, '.');
  }

  // ----- one check -----

  datatype Status = Satisfied | Unsatisfied | Unevaluable

  /** A check's recorded detail; the optional members appear in the record only when present. */
  datatype Detail = Detail(kind: Json, status: Status, reason: Option<string>,
    observed: Option<Json>, expected: Option<Json>)

  function Unevaluated(kind: Json, reason: string, expected: Option<Json>): Detail {
    Detail(kind, Unevaluable, Some(reason), None, expected)
  }

  function Decided(kind: Json, ok: bool, observed: Json, expected: Json): Detail {
    Detail(kind, if ok then Satisfied else Unsatisfied, None, Some(observed), Some(expected))
  }

  function Given(check: Json): Option<Json> {
    if check.Has("expected") then Some(check.Get("expected")) else None
  }

  function NotPresent(p: Platform, path: Json): string {
    "output_path " + Shown(p, path) + " not present"
  }

  predicate ThresholdOp(op: Json) {
    op == Str(">=") || op == Str(">") || op == Str("<=") || op == Str("<") || op == Str("==")
  }

  predicate Compare(op: string, value: int, threshold: int) {
    if op == ">=" then value >= threshold
    else if op == ">" then value > threshold
    else if op == "<=" then value <= threshold
    else if op == "<" then value < threshold
    else value == threshold
  }

  function CheckPresent(p: Platform, check: Json, output: Json): Detail {
    var kind, path := check.Get("kind"), check.Get("inputs").Get("output_path");
    if !path.Str? then Unevaluated(kind, "inputs.output_path is required", None)
    else
      match ResolveDotPath(output, path)
      case None => Detail(kind, Unsatisfied, Some(NotPresent(p, path)), Some(Null), None)
      case Some(v) => Detail(kind, Satisfied, None, Some(v), None)
  }

  /** `field_equals`, `content_type_equals` and `http_status_equals` */
  function CheckEquals(p: Platform, check: Json, output: Json): Detail {
    var kind, path := check.Get("kind"), check.Get("inputs").Get("output_path");
    if !path.Str? then Unevaluated(kind, "inputs.output_path is required", None)
    else
      match ResolveDotPath(output, path)
      case None => Unevaluated(kind, NotPresent(p, path), Given(check))
      case Some(v) => Decided(kind, Canonical(v) == Canonical(check.Get("expected")), v, check.Get("expected"))
  }

  function CheckThreshold(p: Platform, check: Json, output: Json): Detail {
    var kind, path, expected := check.Get("kind"), check.Get("inputs").Get("output_path"), check.Get("expected");
    if !path.Str? then Unevaluated(kind, "inputs.output_path is required", None)
    else if !ThresholdOp(expected.Get("op")) || !expected.Get("value").Int? then
      Unevaluated(kind, "expected must be { op: \">=\"|\">\"|\"<=\"|\"<\"|\"==\", value: <number> }", Given(check))
    else
      match ResolveDotPath(output, path)
      case None => Unevaluated(kind, NotPresent(p, path), Given(check))
      case Some(v) =>
        if !v.Int? then Detail(kind, Unsatisfied, Some("observed value is not a number"), Some(v), Some(expected))
        else Decided(kind, Compare(expected.Get("op").s, v.n, expected.Get("value").n), v, expected)
  }

  function CheckHash(p: Platform, check: Json, output: Json): Detail {
    var kind, path, expected := check.Get("kind"), check.Get("inputs").Get("output_path"), check.Get("expected");
    match if path.Null? then Some(output) else ResolveDotPath(output, path)
    case None => Unevaluated(kind, NotPresent(p, path), Given(check))
    case Some(target) =>
      if !IsSha256(expected) then Unevaluated(kind, "expected must be a sha256:<digest> literal", Some(expected))
      else Decided(kind, Str(Digest(p, target)) == expected, Str(Digest(p, target)), expected)
  }

  function CheckSchema(check: Json): Detail {
    var kind, refs := check.Get("kind"), check.Get("external_refs");
    var schema := refs.Get("schema_ref");
    if !IsSha256(schema) then
      Unevaluated(kind, "external_refs.schema_ref must be a sha256:<digest>", Some(if refs.Obj? then refs else Null))
    else Unevaluated(kind, "json_schema_not_implemented", Some(schema))
  }

  /** `_evaluate_check` */
  function EvaluateCheck(p: Platform, check: Json, output: Json): Detail {
    var kind := check.Get("kind");
    if kind == Str("field_present") then CheckPresent(p, check, output)
    else if kind == Str("field_equals") then CheckEquals(p, check, output)
    else if kind == Str("numeric_threshold") then CheckThreshold(p, check, output)
    else if kind == Str("hash_equals") then CheckHash(p, check, output)
    else if kind == Str("content_type_equals") || kind == Str("http_status_equals") then CheckEquals(p, check, output)
    else if kind == Str("json_schema") then CheckSchema(check)
    else Unevaluated(kind, "unsupported check kind: " + Shown(p, kind), None)
  }

  /** An equality check is satisfied exactly when the path leads to the expected value. */
  lemma EqualsMeansEqual(p: Platform, check: Json, output: Json)
    requires check.Get("inputs").Get("output_path").Str?
    ensures CheckEquals(p, check, output).status.Satisfied? <==>
            ResolveDotPath(output, check.Get("inputs").Get("output_path")) == Some(check.Get("expected"))
    ensures CheckEquals(p, check, output).status.Unevaluable? <==>
            ResolveDotPath(output, check.Get("inputs").Get("output_path")).None?
  {
    var found := ResolveDotPath(output, check.Get("inputs").Get("output_path"));
    if found.Some? { CanonicalInjective(found.value, check.Get("expected")); }
  }

  /** A hash check pins its target: two outputs that satisfy it hold equal values there, or the values collide. */
  lemma HashPinsTarget(p: Platform, check: Json, x: Json, y: Json)
    requires CheckHash(p, check, x).status.Satisfied? && CheckHash(p, check, y).status.Satisfied?
    ensures var path := check.Get("inputs").Get("output_path");
            var v, w := if path.Null? then Some(x) else ResolveDotPath(x, path),
                        if path.Null? then Some(y) else ResolveDotPath(y, path);
            v.Some? && w.Some? && (v == w || Collision(p, Canonical(v.value), Canonical(w.value)))
  {
    hide Digest, Canonical, ResolveDotPath;
    var path := check.Get("inputs").Get("output_path");
    var v, w := if path.Null? then Some(x) else ResolveDotPath(x, path),
                if path.Null? then Some(y) else ResolveDotPath(y, path);
    DigestBinds(p, v.value, w.value);
  }

  /** A well-formed threshold check with this operator and threshold, whose path leads to the integer `v`. */
  predicate Observes(check: Json, output: Json, op: string, threshold: int, v: int) {
    var path, expected := check.Get("inputs").Get("output_path"), check.Get("expected");
    && path.Str? && ThresholdOp(Str(op)) && expected.Get("op") == Str(op) && expected.Get("value") == Int(threshold)
    && ResolveDotPath(output, path) == Some(Int(v))
  }

  /**
   Raising the observed value never turns a satisfied `>=` or `>` check unsatisfied, lowering it never a satisfied
   `<=` or `<` one; and a check on the threshold itself, or next to it, tells the five operators apart.
  */
  lemma ThresholdsMoveOneWay(p: Platform, check: Json, x: Json, y: Json, op: string, threshold: int, v: int, w: int)
    requires Observes(check, x, op, threshold, v) && Observes(check, y, op, threshold, w) && v <= w
    ensures (op == ">=" || op == ">") && CheckThreshold(p, check, x).status.Satisfied? ==>
              CheckThreshold(p, check, y).status.Satisfied?
    ensures (op == "<=" || op == "<") && CheckThreshold(p, check, y).status.Satisfied? ==>
              CheckThreshold(p, check, x).status.Satisfied?
    ensures v == threshold ==>
              (CheckThreshold(p, check, x).status.Satisfied? <==> op == ">=" || op == "<=" || op == "==")
    ensures v == threshold + 1 ==> (CheckThreshold(p, check, x).status.Satisfied? <==> op == ">=" || op == ">")
    ensures v == threshold - 1 ==> (CheckThreshold(p, check, x).status.Satisfied? <==> op == "<=" || op == "<")
  {
    hide ResolveDotPath;
    assert |">="| == 2 && |"<="| == 2 && |"=="| == 2 && |">"| == 1 && |"<"| == 1;
    assert ">="[0] != "<="[0] && ">="[0] != "=="[0] && "<="[0] != "=="[0] && ">"[0] != "<"[0];
  }

  // ----- the status of a check, kind by kind -----

  function PathOf(check: Json): Json {
    check.Get("inputs").Get("output_path")
  }

  /** `field_present`: a text path is satisfied when it leads somewhere, and never left open. */
  lemma FieldPresentIff(p: Platform, check: Json, output: Json)
    requires check.Get("kind") == Str("field_present")
    ensures var status, found := EvaluateCheck(p, check, output).status, ResolveDotPath(output, PathOf(check));
            && (status == Satisfied <==> PathOf(check).Str? && found.Some?)
            && (status == Unsatisfied <==> PathOf(check).Str? && found.None?)
            && (status == Unevaluable <==> !PathOf(check).Str?)
  {
    hide ResolveDotPath;
  }

  /** The three equality kinds: satisfied when the path leads to the expected value, open when it leads nowhere. */
  lemma EqualityIff(p: Platform, check: Json, output: Json)
    requires var kind := check.Get("kind");
             kind == Str("field_equals") || kind == Str("content_type_equals") || kind == Str("http_status_equals")
    ensures var status, found := EvaluateCheck(p, check, output).status, ResolveDotPath(output, PathOf(check));
            && (status == Satisfied <==> PathOf(check).Str? && found == Some(check.Get("expected")))
            && (status == Unsatisfied <==> PathOf(check).Str? && found.Some? && found != Some(check.Get("expected")))
            && (status == Unevaluable <==> !PathOf(check).Str? || found.None?)
  {
    KindsDiffer();
    assert EvaluateCheck(p, check, output) == CheckEquals(p, check, output);
    hide EvaluateCheck, ResolveDotPath, Canonical;
    if PathOf(check).Str? { EqualsMeansEqual(p, check, output); }
  }

  lemma KindsDiffer()
    ensures "field_equals" != "field_present" && "content_type_equals" != "field_present"
    ensures "http_status_equals" != "field_present" && "content_type_equals" != "numeric_threshold"
    ensures "http_status_equals" != "numeric_threshold" && "content_type_equals" != "hash_equals"
    ensures "http_status_equals" != "hash_equals"
  {
    assert |"field_equals"| == 12 && |"field_present"| == 13 && |"content_type_equals"| == 19;
    assert |"http_status_equals"| == 18 && |"numeric_threshold"| == 17 && |"hash_equals"| == 11;
  }

  /** What the five operators ask of an observed and a committed integer. */
  predicate Holds(op: Json, v: int, threshold: int) {
    || (op == Str(">=") && v >= threshold)
    || (op == Str(">") && v > threshold)
    || (op == Str("<=") && v <= threshold)
    || (op == Str("<") && v < threshold)
    || (op == Str("==") && v == threshold)
  }

  predicate GoodThreshold(expected: Json) {
    var op := expected.Get("op");
    && (op == Str(">=") || op == Str(">") || op == Str("<=") || op == Str("<") || op == Str("=="))
    && expected.Get("value").Int?
  }

  /** `numeric_threshold`: a value that is no number is not satisfied; a bad threshold or an absent value is open. */
  lemma ThresholdIff(p: Platform, check: Json, output: Json)
    requires check.Get("kind") == Str("numeric_threshold")
    ensures var status, found := EvaluateCheck(p, check, output).status, ResolveDotPath(output, PathOf(check));
            var expected := check.Get("expected");
            var evaluable := PathOf(check).Str? && GoodThreshold(expected) && found.Some?;
            && (status == Unevaluable <==> !evaluable)
            && (status == Satisfied <==>
                  evaluable && found.value.Int? && Holds(expected.Get("op"), found.value.n, expected.Get("value").n))
            && (status == Unsatisfied <==>
                  evaluable && !(found.value.Int? && Holds(expected.Get("op"), found.value.n, expected.Get("value").n)))
  {
    assert EvaluateCheck(p, check, output) == CheckThreshold(p, check, output);
    hide EvaluateCheck, ResolveDotPath, Compare, Holds;
    var found, expected := ResolveDotPath(output, PathOf(check)), check.Get("expected");
    if GoodThreshold(expected) && found.Some? && found.value.Int? {
      CompareIff(expected.Get("op"), found.value.n, expected.Get("value").n);
    }
  }

  lemma CompareIff(op: Json, v: int, threshold: int)
    requires ThresholdOp(op)
    ensures Compare(op.s, v, threshold) <==> Holds(op, v, threshold)
  {
    OperatorsDiffer();
  }

  lemma OperatorsDiffer()
    ensures ">=" != ">" && ">=" != "<=" && ">=" != "<" && ">=" != "==" && ">" != "<=" && ">" != "<" && ">" != "=="
    ensures "<=" != "<" && "<=" != "==" && "<" != "=="
  {
    assert ">="[0] == '>' && "<="[0] == '<' && "=="[0] == '=' && ">"[0] == '>' && "<"[0] == '<';
  }

  /** `hash_equals`: over the whole output when no path is given; anything but a digest to compare with is open. */
  lemma HashIff(p: Platform, check: Json, output: Json)
    requires check.Get("kind") == Str("hash_equals")
    ensures var status, expected := EvaluateCheck(p, check, output).status, check.Get("expected");
            var target := if PathOf(check) == Null then Some(output) else ResolveDotPath(output, PathOf(check));
            && (status == Unevaluable <==> target.None? || !IsSha256(expected))
            && (status == Satisfied <==>
                  target.Some? && IsSha256(expected)
                  && expected == Str("sha256:" + Hex(p.sha256(Canonical(target.value)))))
            && (status == Unsatisfied <==>
                  target.Some? && IsSha256(expected)
                  && expected != Str("sha256:" + Hex(p.sha256(Canonical(target.value)))))
  {
    assert EvaluateCheck(p, check, output) == CheckHash(p, check, output);
    var path := PathOf(check);
    var target := if path.Null? then Some(output) else ResolveDotPath(output, path);
    if target.Some? { DigestText(p, target.value); }
    hide EvaluateCheck, ResolveDotPath, Canonical, IsSha256, Digest, Hex;
  }

  /** `json_schema` and every unknown kind are always open. */
  lemma SchemaIsOpen(p: Platform, check: Json, output: Json)
    requires var kind := check.Get("kind");
             && kind != Str("field_present") && kind != Str("field_equals") && kind != Str("numeric_threshold")
             && kind != Str("hash_equals") && kind != Str("content_type_equals") && kind != Str("http_status_equals")
    ensures EvaluateCheck(p, check, output).status == Unevaluable
  {
  }

  /** What a path leads to: `$` to the whole, `$.` and joined keys along them, anything else nowhere. */
  lemma PathMeaning(output: Json, path: Json)
    ensures ResolveDotPath(output, Str("$")) == Some(output)
    ensures !path.Str? || (path.s != "$" && !StartsWith(path.s, "$.")) ==> ResolveDotPath(output, path) == None
    ensures path.Str? && StartsWith(path.s, "$.") && "" in Split(path.s[2..], '.') ==>
              ResolveDotPath(output, path) == None
  {
    if path.Str? && StartsWith(path.s, "$.") { assert |path.s| >= 2 && path.s != "$"; }
  }

  // ----- validation -----

  /** Why a spec is not evaluated: its shape, or a `TypeError` on an unhashable check kind. */
  datatype Failure = BadSpec | Crash

  predicate KnownKind(kind: Json) {
    || kind == Str("field_present") || kind == Str("field_equals") || kind == Str("numeric_threshold")
    || kind == Str("hash_equals") || kind == Str("content_type_equals") || kind == Str("http_status_equals")
    || kind == Str("json_schema")
  }

  function CheckFault(check: Json): Option<Failure> {
    var behavior, refs := check.Get("failure_behavior"), check.Get("external_refs");
    if !check.Obj? then Some(BadSpec)
    else if !check.Get("kind").Hashable() then Some(Crash)
    else if !KnownKind(check.Get("kind")) then Some(BadSpec)
    else if behavior != Null && behavior != Str("FAIL") && behavior != Str("INDETERMINATE") then Some(BadSpec)
    else if refs.Obj? && exists k :: k in refs.fields && !IsSha256(refs.fields[k]) then Some(BadSpec)
    else None
  }

  function FirstFault(checks: seq<Json>): Option<Failure> {
    if |checks| == 0 then None
    else if CheckFault(checks[0]).Some? then CheckFault(checks[0])
    else FirstFault(checks[1..])
  }

  /** `validate_acceptance_spec`; `None` is success. */
  function SpecFault(spec: Json): Option<Failure> {
    var kind := spec.Get("evaluator_type");
    if !spec.Obj? || !spec.Get("checks").Arr? then Some(BadSpec)
    else if kind != Null && kind != Str("deterministic") then Some(BadSpec)
    else FirstFault(spec.Get("checks").items)
  }

  method ValidateSpec(spec: Json) returns (fault: Option<Failure>)
    ensures fault == SpecFault(spec)
  {
    if !spec.Obj? || !spec.Get("checks").Arr? {
      return Some(BadSpec);
    }
    if spec.Get("evaluator_type") != Null && spec.Get("evaluator_type") != Str("deterministic") {
      return Some(BadSpec);
    }
    var checks := spec.Get("checks").items;
    var i := 0;
    while i < |checks|
      invariant 0 <= i <= |checks|
      invariant FirstFault(checks) == FirstFault(checks[i..])
    {
      fault := CheckFault(checks[i]);
      if fault.Some? {
        return;
      }
      i := i + 1;
    }
    fault := None;
  }

  // ----- aggregation -----

  datatype Verdict = Pass | Indeterminate | Fail | Timeout

  function VerdictText(v: Verdict): string {
    match v
    case Pass => "PASS"
    case Fail => "FAIL"
    case Indeterminate => "INDETERMINATE"
    case Timeout => "EVALUATOR_TIMEOUT"
  }

  /** PASS < INDETERMINATE < FAIL; the evaluator itself never times out. */
  function Worse(a: Verdict, b: Verdict): Verdict {
    if a.Fail? || b.Fail? then Fail
    else if a.Indeterminate? || b.Indeterminate? then Indeterminate
    else Pass
  }

  /** What one check contributes: a hard failure, an open question, or nothing. */
  function CheckVerdict(p: Platform, check: Json, output: Json): Verdict {
    match EvaluateCheck(p, check, output).status
    case Satisfied => Pass
    case Unevaluable => Indeterminate
    case Unsatisfied => if check.Get("failure_behavior") == Str("INDETERMINATE") then Indeterminate else Fail
  }

  function WorstOf(p: Platform, checks: seq<Json>, output: Json): Verdict {
    if |checks| == 0 then Pass
    else Worse(CheckVerdict(p, checks[0], output), WorstOf(p, checks[1..], output))
  }

  function DetailsOf(p: Platform, checks: seq<Json>, output: Json): (r: seq<Detail>)
    ensures |r| == |checks|
    ensures forall i :: 0 <= i < |checks| ==> r[i] == EvaluateCheck(p, checks[i], output)
  {
    seq(|checks|, i requires 0 <= i < |checks| => EvaluateCheck(p, checks[i], output))
  }

  datatype Evaluation = Evaluation(result: Verdict, details: seq<Detail>)

  function EvaluateSpec(p: Platform, spec: Json, output: Json): Result<Evaluation, Failure> {
    if SpecFault(spec).Some? then Err(SpecFault(spec).value)
    else
      var checks := spec.Get("checks").items;
      Ok(Evaluation(WorstOf(p, checks, output), DetailsOf(p, checks, output)))
  }

  lemma {:induction false} WorstOfConcat(p: Platform, a: seq<Json>, b: seq<Json>, output: Json)
    ensures WorstOf(p, a + b, output) == Worse(WorstOf(p, a, output), WorstOf(p, b, output))
  {
    hide CheckVerdict;
    if |a| == 0 {
      assert a + b == b;
      WorstIsNoTimeout(p, b, output);
    } else {
      assert (a + b)[1..] == a[1..] + b;
      WorstOfConcat(p, a[1..], b, output);
    }
  }

  lemma WorstIsNoTimeout(p: Platform, checks: seq<Json>, output: Json)
    ensures !WorstOf(p, checks, output).Timeout?
  {
  }

  lemma NoChecks(p: Platform, output: Json)
    ensures WorstOf(p, [], output) == Pass
  {
  }

  lemma WorstOfNext(p: Platform, checks: seq<Json>, i: nat, output: Json)
    requires i < |checks|
    ensures WorstOf(p, checks[..i + 1], output)
            == Worse(WorstOf(p, checks[..i], output), CheckVerdict(p, checks[i], output))
  {
    hide CheckVerdict;
    assert checks[..i + 1] == checks[..i] + [checks[i]];
    WorstOfConcat(p, checks[..i], [checks[i]], output);
    assert WorstOf(p, [checks[i]], output) == Worse(CheckVerdict(p, checks[i], output), Pass);
  }

  /** `evaluate_acceptance_spec` with its two flags. */
  method EvaluateAcceptanceSpec(p: Platform, spec: Json, output: Json) returns (r: Result<Evaluation, Failure>)
    ensures r == EvaluateSpec(p, spec, output)
  {
    hide EvaluateCheck, WorstOf, FirstFault;
    var fault := ValidateSpec(spec);
    if fault.Some? {
      return Err(fault.value);
    }
    hide SpecFault;
    var checks := spec.Get("checks").items;
    assert WorstOf(p, checks[..0], output) == Pass by { NoChecks(p, output); }
    var details: seq<Detail> := [];
    var hardFail, indeterminate := false, false;
    var i := 0;
    while i < |checks|
      invariant 0 <= i <= |checks|
      invariant |details| == i && forall k :: 0 <= k < i ==> details[k] == EvaluateCheck(p, checks[k], output)
      invariant WorstOf(p, checks[..i], output)
                == if hardFail then Fail else if indeterminate then Indeterminate else Pass
    {
      var detail := EvaluateCheck(p, checks[i], output);
      details := details + [detail];
      if detail.status.Unsatisfied? {
        if checks[i].Get("failure_behavior") == Str("INDETERMINATE") {
          indeterminate := true;
        } else {
          hardFail := true;
        }
      } else if detail.status.Unevaluable? {
        indeterminate := true;
      }
      WorstOfNext(p, checks, i, output);
      i := i + 1;
    }
    assert checks[..i] == checks && details == DetailsOf(p, checks, output);
    r := Ok(Evaluation(if hardFail then Fail else if indeterminate then Indeterminate else Pass, details));
  }

  /** FAIL, PASS and INDETERMINATE in terms of the single checks. */
  lemma {:induction false} VerdictMeans(p: Platform, checks: seq<Json>, output: Json)
    ensures WorstOf(p, checks, output).Fail? <==>
            exists i :: 0 <= i < |checks| && CheckVerdict(p, checks[i], output).Fail?
    ensures WorstOf(p, checks, output).Pass? <==>
            forall i :: 0 <= i < |checks| ==> EvaluateCheck(p, checks[i], output).status.Satisfied?
  {
    hide EvaluateCheck;
    if |checks| > 0 {
      VerdictMeans(p, checks[1..], output);
      WorstIsNoTimeout(p, checks[1..], output);
      assert forall i :: 1 <= i < |checks| ==> checks[i] == checks[1..][i - 1];
      if i :| 0 <= i < |checks[1..]| && CheckVerdict(p, checks[1..][i], output).Fail? {
        assert CheckVerdict(p, checks[i + 1], output).Fail?;
      }
      if i :| 0 <= i < |checks| && CheckVerdict(p, checks[i], output).Fail? && i > 0 {
        assert CheckVerdict(p, checks[1..][i - 1], output).Fail?;
      }
      if forall i :: 0 <= i < |checks| ==> EvaluateCheck(p, checks[i], output).status.Satisfied? {
        assert EvaluateCheck(p, checks[0], output).status.Satisfied?;
      }
    }
  }

  /** A spec with a `json_schema` check never passes: such a check is never satisfied. */
  lemma SchemaNeverPasses(p: Platform, checks: seq<Json>, output: Json, i: nat)
    requires i < |checks| && checks[i].Get("kind") == Str("json_schema")
    ensures !WorstOf(p, checks, output).Pass?
  {
    hide EvaluateCheck;
    VerdictMeans(p, checks, output);
    SchemaDiffers();
    SchemaIsOpen(p, checks[i], output);
  }

  /** The order of the checks does not matter to the verdict. */
  lemma OrderIndependent(p: Platform, checks: seq<Json>, shuffled: seq<Json>, output: Json)
    requires multiset(checks) == multiset(shuffled)
    ensures WorstOf(p, checks, output) == WorstOf(p, shuffled, output)
  {
    hide EvaluateCheck, CheckVerdict;
    VerdictMeans(p, checks, output);
    VerdictMeans(p, shuffled, output);
    WorstIsNoTimeout(p, checks, output);
    WorstIsNoTimeout(p, shuffled, output);
    SameElements(checks, shuffled);
    forall i | 0 <= i < |checks| ensures exists j :: 0 <= j < |shuffled| && shuffled[j] == checks[i] {
      assert checks[i] in shuffled;
    }
    forall j | 0 <= j < |shuffled| ensures exists i :: 0 <= i < |checks| && checks[i] == shuffled[j] {
      assert shuffled[j] in checks;
    }
  }

  lemma SameElements(a: seq<Json>, b: seq<Json>)
    requires multiset(a) == multiset(b)
    ensures forall x :: x in a <==> x in b
  {
    forall x ensures x in a <==> x in b {
      assert x in a <==> x in multiset(a);
      assert x in b <==> x in multiset(b);
    }
  }

  // ----- declared release intent -----

  function DefaultIntent(v: Verdict): string {
    match v
    case Pass => "should release"
    case Fail => "should withhold"
    case Indeterminate => "manual_review"
    case Timeout => "manual_review"
  }

  /** The policy names this result as the trigger. */
  predicate Triggers(policy: Json, key: string, v: Verdict) {
    policy.Get(key) == Str(VerdictText(v))
  }

  /** The committed policy decides, the later of its three triggers winning; `None` is the `TypeError` of a bad key. */
  function IntentSpec(v: Verdict, policy: Option<Json>): Option<string> {
    if policy.None? then Some(DefaultIntent(v))
    else
      var release := policy.value;
      if v.Timeout? then
        Some(if release.Get("timeout_behavior").NonEmptyStr() then release.Get("timeout_behavior").s
          else DefaultIntent(v))
      else if !release.Get("release_on").Hashable() || !release.Get("withhold_on").Hashable()
              || !release.Get("manual_review_on").Hashable() then None
      else if Triggers(release, "manual_review_on", v) then Some("manual_review")
      else if Triggers(release, "withhold_on", v) then Some("should withhold")
      else if Triggers(release, "release_on", v) then Some("should release")
      else Some(DefaultIntent(v))
  }

  /** `derive_declared_release_intent`, which inverts the policy into a dictionary. */
  method DeriveIntent(v: Verdict, policy: Option<Json>) returns (intent: Option<string>)
    ensures intent == IntentSpec(v, policy)
  {
    if policy.None? {
      return Some(DefaultIntent(v));
    }
    var release := policy.value;
    if v.Timeout? {
      if release.Get("timeout_behavior").NonEmptyStr() {
        return Some(release.Get("timeout_behavior").s);
      }
      return Some(DefaultIntent(v));
    }
    var mapping: map<Json, string> := map[];
    if release.Get("release_on") != Null {
      if !release.Get("release_on").Hashable() { return None; }
      mapping := mapping[release.Get("release_on") := "should release"];
    }
    if release.Get("withhold_on") != Null {
      if !release.Get("withhold_on").Hashable() { return None; }
      mapping := mapping[release.Get("withhold_on") := "should withhold"];
    }
    if release.Get("manual_review_on") != Null {
      if !release.Get("manual_review_on").Hashable() { return None; }
      mapping := mapping[release.Get("manual_review_on") := "manual_review"];
    }
    var key := Str(VerdictText(v));
    intent := Some(if key in mapping then mapping[key] else DefaultIntent(v));
  }

  // ----- what a verdict and an intent say -----

  /** FAIL, PASS and INDETERMINATE by the statuses of the checks and what the spec wants of a failing one. */
  lemma VerdictByStatus(p: Platform, checks: seq<Json>, output: Json)
    ensures WorstOf(p, checks, output) == Fail <==>
            exists i :: 0 <= i < |checks| && EvaluateCheck(p, checks[i], output).status == Unsatisfied
                        && checks[i].Get("failure_behavior") != Str("INDETERMINATE")
    ensures WorstOf(p, checks, output) == Pass <==>
            forall i :: 0 <= i < |checks| ==> EvaluateCheck(p, checks[i], output).status == Satisfied
    ensures WorstOf(p, checks, output) != Timeout
  {
    hide EvaluateCheck;
    VerdictMeans(p, checks, output);
    WorstIsNoTimeout(p, checks, output);
    forall i | 0 <= i < |checks|
      ensures CheckVerdict(p, checks[i], output).Fail? <==>
              EvaluateCheck(p, checks[i], output).status == Unsatisfied
              && checks[i].Get("failure_behavior") != Str("INDETERMINATE")
    {
    }
  }

  /** The verdicts as they are recorded. */
  lemma VerdictTexts()
    ensures VerdictText(Pass) == "PASS" && VerdictText(Fail) == "FAIL" && VerdictText(Indeterminate) == "INDETERMINATE"
    ensures VerdictText(Timeout) == "EVALUATOR_TIMEOUT"
  {
  }

  /** A spec is accepted exactly in this shape, every external reference content-addressed. */
  predicate GoodCheck(check: Json) {
    var kind, behavior, refs := check.Get("kind"), check.Get("failure_behavior"), check.Get("external_refs");
    && check.Obj?
    && (kind == Str("field_present") || kind == Str("field_equals") || kind == Str("numeric_threshold")
        || kind == Str("hash_equals") || kind == Str("content_type_equals") || kind == Str("http_status_equals")
        || kind == Str("json_schema"))
    && (behavior == Null || behavior == Str("FAIL") || behavior == Str("INDETERMINATE"))
    && (refs.Obj? ==> forall k :: k in refs.fields ==> IsSha256(refs.fields[k]))
  }

  predicate GoodSpec(spec: Json) {
    && spec.Obj? && spec.Get("checks").Arr?
    && (spec.Get("evaluator_type") == Null || spec.Get("evaluator_type") == Str("deterministic"))
    && forall i :: 0 <= i < |spec.Get("checks").items| ==> GoodCheck(spec.Get("checks").items[i])
  }

  lemma SpecAcceptedIff(spec: Json)
    ensures SpecFault(spec) == None <==> GoodSpec(spec)
  {
    if spec.Get("checks").Arr? { NoFaultIff(spec.Get("checks").items); }
    hide GoodCheck;
  }

  lemma {:induction false} NoFaultIff(checks: seq<Json>)
    ensures FirstFault(checks) == None <==> forall i :: 0 <= i < |checks| ==> GoodCheck(checks[i])
  {
    if |checks| > 0 {
      NoFaultIff(checks[1..]);
      CheckFaultIff(checks[0]);
      hide CheckFault, GoodCheck;
      assert forall i :: 1 <= i < |checks| ==> checks[i] == checks[1..][i - 1];
    }
  }

  lemma CheckFaultIff(check: Json)
    ensures CheckFault(check) == None <==> GoodCheck(check)
  {
    hide IsSha256;
  }

  /** The policy names the verdict with this text under this key. */
  predicate Names(policy: Option<Json>, key: string, text: string) {
    policy.Some? && policy.value.Get(key) == Str(text)
  }

  predicate UsableKeys(policy: Option<Json>) {
    policy.Some? ==>
      && !policy.value.Get("release_on").Arr? && !policy.value.Get("release_on").Obj?
      && !policy.value.Get("withhold_on").Arr? && !policy.value.Get("withhold_on").Obj?
      && !policy.value.Get("manual_review_on").Arr? && !policy.value.Get("manual_review_on").Obj?
  }

  /**
   Which intent is declared, by the text of the verdict and the policy's own members: manual review wins over
   withholding, withholding over releasing, and a verdict no member names has its own default.
  */
  lemma IntentIff(v: Verdict, policy: Option<Json>, text: string)
    requires (v == Pass && text == "PASS") || (v == Fail && text == "FAIL")
             || (v == Indeterminate && text == "INDETERMINATE")
    ensures IntentSpec(v, policy) == None <==> !UsableKeys(policy)
    ensures UsableKeys(policy) ==>
              var review, withhold, release := Names(policy, "manual_review_on", text),
                                               Names(policy, "withhold_on", text), Names(policy, "release_on", text);
              && (IntentSpec(v, policy) == Some("manual_review") <==>
                    review || (!withhold && !release && text == "INDETERMINATE"))
              && (IntentSpec(v, policy) == Some("should withhold") <==>
                    !review && (withhold || (!release && text == "FAIL")))
              && (IntentSpec(v, policy) == Some("should release") <==>
                    !review && !withhold && (release || text == "PASS"))
  {
    assert |"should release"| == 14 && |"should withhold"| == 15 && |"manual_review"| == 13;
    assert |"PASS"| == 4 && |"FAIL"| == 4 && "PASS"[0] != "FAIL"[0] && |"INDETERMINATE"| == 13;
  }

  /** A timeout follows its own member of the policy. */
  lemma TimeoutIntent(policy: Json)
    ensures var behavior := policy.Get("timeout_behavior");
            IntentSpec(Timeout, Some(policy))
            == Some(if behavior.Str? && behavior.s != "" then behavior.s else "manual_review")
  {
  }

  /** Without a policy a FAIL never declares release, and a PASS never anything else. */
  lemma IntentWithoutPolicy()
    ensures IntentSpec(Pass, None) == Some("should release") && IntentSpec(Fail, None) == Some("should withhold")
    ensures IntentSpec(Indeterminate, None) == Some("manual_review")
    ensures IntentSpec(Timeout, None) == Some("manual_review")
  {
  }

  // ----- what a check's record says -----

  function Absence(p: Platform, check: Json): Option<string> {
    Some("output_path " + Shown(p, PathOf(check)) + " not present")
  }

  /** `field_present` records what it found, or a null and why. */
  lemma PresentRecords(p: Platform, check: Json, output: Json)
    requires check.Get("kind") == Str("field_present") && PathOf(check).Str?
    ensures var d, found := EvaluateCheck(p, check, output), ResolveDotPath(output, PathOf(check));
            && d.kind == Str("field_present") && d.expected == None
            && d.observed == Some(if found.Some? then found.value else Null)
            && d.reason == if found.Some? then None else Absence(p, check)
  {
    hide ResolveDotPath;
  }

  /** The equality kinds record the found and the expected value, or why they could not compare. */
  lemma EqualityRecords(p: Platform, check: Json, output: Json)
    requires var kind := check.Get("kind");
             kind == Str("field_equals") || kind == Str("content_type_equals") || kind == Str("http_status_equals")
    requires PathOf(check).Str?
    ensures var d, found := EvaluateCheck(p, check, output), ResolveDotPath(output, PathOf(check));
            && d.kind == check.Get("kind") && d.observed == found
            && (d.expected == Some(check.Get("expected"))
                || (found.None? && !check.Has("expected") && d.expected == None))
            && d.reason == if found.Some? then None else Absence(p, check)
  {
    KindsDiffer();
    assert EvaluateCheck(p, check, output) == CheckEquals(p, check, output);
    hide EvaluateCheck, ResolveDotPath, Canonical, Shown;
  }

  /** `numeric_threshold` does the same, and gives a reason of its own for a value that is no number. */
  lemma ThresholdRecords(p: Platform, check: Json, output: Json)
    requires check.Get("kind") == Str("numeric_threshold") && PathOf(check).Str? && GoodThreshold(check.Get("expected"))
    ensures var d, found := EvaluateCheck(p, check, output), ResolveDotPath(output, PathOf(check));
            && d.kind == Str("numeric_threshold") && d.observed == found && d.expected == Some(check.Get("expected"))
            && d.reason == if found.None? then Absence(p, check)
                           else if found.value.Int? then None else Some("observed value is not a number")
  {
    assert EvaluateCheck(p, check, output) == CheckThreshold(p, check, output);
    hide EvaluateCheck, ResolveDotPath, Compare, Shown;
  }

  /** `hash_equals` records the digest it computed and the one it was given. */
  lemma HashRecords(p: Platform, check: Json, output: Json, target: Json)
    requires check.Get("kind") == Str("hash_equals") && IsSha256(check.Get("expected"))
    requires (if PathOf(check) == Null then Some(output) else ResolveDotPath(output, PathOf(check))) == Some(target)
    ensures var d := EvaluateCheck(p, check, output);
            && d.kind == Str("hash_equals") && d.reason == None && d.expected == Some(check.Get("expected"))
            && d.observed == Some(Str("sha256:" + Hex(p.sha256(Canonical(target)))))
  {
    assert EvaluateCheck(p, check, output) == CheckHash(p, check, output);
    DigestText(p, target);
    hide EvaluateCheck, ResolveDotPath, Canonical, IsSha256, Digest, Hex;
  }

  /** `json_schema` with a pinned schema says that it is not implemented. */
  lemma SchemaRecords(p: Platform, check: Json, output: Json)
    requires check.Get("kind") == Str("json_schema") && IsSha256(check.Get("external_refs").Get("schema_ref"))
    ensures EvaluateCheck(p, check, output)
            == Detail(Str("json_schema"), Unevaluable, Some("json_schema_not_implemented"), None,
                      Some(check.Get("external_refs").Get("schema_ref")))
  {
    SchemaDiffers();
    assert EvaluateCheck(p, check, output) == CheckSchema(check);
    hide EvaluateCheck, IsSha256Text;
  }

  lemma SchemaDiffers()
    ensures "json_schema" != "field_equals" && "json_schema" != "field_present" && "json_schema" != "hash_equals"
    ensures "json_schema" != "content_type_equals" && "json_schema" != "http_status_equals"
    ensures "json_schema" != "numeric_threshold"
  {
    assert |"json_schema"| == 11 && |"field_equals"| == 12 && |"content_type_equals"| == 19;
    assert |"field_present"| == 13 && |"http_status_equals"| == 18 && |"numeric_threshold"| == 17;
    assert "hash_equals"[0] == 'h' && "json_schema"[0] == 'j';
  }
}
