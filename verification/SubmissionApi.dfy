/**
 `POST /v1/attest/authenticated`: route check, verification, nonce claim, then the append to the submissions ledger.
 Over every run with agreeing clocks that ledger never holds the same producer, nonce and timestamp twice.
*/
module SubmissionApi {
  import opened Text
  import opened JsonValue
  import opened CanonicalJson
  import opened Crypto
  import opened ProducerRegistry
  import opened Submission
  import opened IsoTime
  import opened NonceLedger
  import Replay

  const ROUTE_ID := "/v1/attest/authenticated"

  datatype Response = Accepted200 | Unauthorized401 | Unavailable503 | Crashed500 | Died // the process died mid-request

  /** The deployment: primitives, timestamp reader, acceptance window. */
  datatype Service = Service(platform: Platform, read: string -> Option<Stamp>, skew: nat)

  /**
   One request: the envelope, the registry (`None` when it is not configured or does not load), the verifier's and the
   ledger's clock readings, whether SQLite answers, and whether the process lives to append.
  */
  datatype Call =
    | Submit(envelope: Envelope, registry: Option<Registry>, verifier: int, ledger: int, up: bool, lives: bool)
    | Sweep(now: int, up: bool)

  datatype State = State(rows: Table, lines: seq<Json>)

  /** The request model admits strings, and null for the source evidence only. */
  predicate Declared(e: Envelope) {
    && e.Keys == (set f | f in SIGNED_FIELDS) + {"producer_signature"}
    && forall f :: f in e ==> e[f].Str? || (f == "source_evidence_digest" && e[f].Null?)
  }

  predicate ValidCall(call: Call) {
    match call
    case Submit(e, _, _, ledger, _, _) => Declared(e) && InRange(ledger)
    case Sweep(now, _) => InRange(now)
  }

  function AuditOf(p: Platform, e: Envelope, v: Verified): Audit {
    Audit(OptionalText(e, "request_id"), OptionalText(e, "route_id"), OptionalText(e, "subject_agent_id"),
          Some(Hex(v.digest)))
  }

  function OptionalText(e: Envelope, key: string): Option<string> {
    if At(e, key).Str? then Some(At(e, key).s) else None
  }

  /** The appended line: every declared field, the provenance class and the registry identity. */
  function LineOf(e: Envelope, r: Registry): Json {
    Obj(e["submission_provenance" := Str("authenticated_claim")]["producer_registry_sha256" := Str(r.sha256)])
  }

  /** The claim of a verified submission and, when it is accepted, the append. */
  function RecordSpec(svc: Service, s: State, call: Call, v: Verified): (State, Response)
    requires call.Submit? && call.registry.Some? && ValidStamp(v.stamp) && InRange(call.ledger)
  {
    var e := call.envelope;
    var (rows, result) :=
      ClaimSpec(s.rows, (v.entry.producerId, v.nonce), v.stamp, svc.skew, call.ledger,
                AuditOf(svc.platform, e, v), call.up);
    if result.OutOfRange? then (s, Crashed500)
    else if !result.Accepted? then (s, Unauthorized401)
    else if !call.lives then (State(rows, s.lines), Died)
    else (State(rows, s.lines + [LineOf(e, call.registry.value)]), Accepted200)
  }

  function SubmitSpec(svc: Service, s: State, call: Call): (State, Response)
    requires ValidCall(call) && call.Submit?
  {
    var e := call.envelope;
    if At(e, "route_id") != Str(ROUTE_ID) then (s, Unauthorized401)
    else if call.registry.None? then (s, Unavailable503)
    else
      var r := call.registry.value;
      match Verify(svc.platform, svc.read, e, r, call.verifier, svc.skew)
      case Err(RegistryRejected(UnreadableDate)) => (s, Crashed500)
      case Err(NonStringField) => (s, Crashed500)
      case Err(_) => (s, Unauthorized401)
      case Ok(v) => RecordSpec(svc, s, call, v)
  }

  function Step(svc: Service, s: State, call: Call): State
    requires ValidCall(call)
  {
    if call.Submit? then SubmitSpec(svc, s, call).0
    else if call.up then s.(rows := Perform(s.rows, Cleanup(IsoFormat(call.now))).0)
    else s
  }

  // ----- what is admitted, answered and written -----

  /** The request model, field by field. */
  lemma DeclaredIff(e: Envelope)
    ensures Declared(e) <==>
            && (forall k :: k in e <==> Named(k) || k == "producer_signature")
            && forall k :: k in e ==> e[k].Str? || (k == "source_evidence_digest" && e[k].Null?)
  {
    hide Named;
    forall k ensures k in SIGNED_FIELDS <==> Named(k) { SignedFieldsAre(k); }
    var declared := (set f | f in SIGNED_FIELDS) + {"producer_signature"};
    assert forall k :: k in declared <==> Named(k) || k == "producer_signature";
    assert e.Keys == declared <==> forall k :: k in e <==> k in declared;
  }

  /** The appended line: every field as it came, and the two the service adds. */
  lemma LineSays(e: Envelope, r: Registry)
    requires Declared(e)
    ensures var line := LineOf(e, r);
            && line.Get("submission_provenance") == Str("authenticated_claim")
            && line.Get("producer_registry_sha256") == Str(r.sha256)
            && (forall k :: k in e ==> line.Get(k) == e[k])
            && forall k :: line.Has(k) <==> k in e || k == "submission_provenance" || k == "producer_registry_sha256"
  {
    DeclaredIff(e);
    AddedAreNew();
    hide Named, Declared;
    assert "producer_registry_sha256" != "submission_provenance" by { assert "producer"[0] == 'p'; AddedDiffer(); }
  }

  lemma AddedDiffer()
    ensures "producer_registry_sha256" != "submission_provenance"
  {
    assert "producer_registry_sha256"[0] == 'p' && "submission_provenance"[0] == 's';
  }

  lemma AddedAreNew()
    ensures !Named("submission_provenance") && !Named("producer_registry_sha256")
    ensures "submission_provenance" != "producer_signature" && "producer_registry_sha256" != "producer_signature"
  {
    var provenance, registry := "submission_provenance", "producer_registry_sha256";
    assert |provenance| == 21 && |registry| == 24 && |"producer_signature"| == 18;
    assert |"schema_version"| == 14 && |"submission_id"| == 13 && |"producer_id"| == 11 && |"subject_agent_id"| == 16;
    assert |"submission_type"| == 15 && |"route_id"| == 8 && |"request_id"| == 10 && |"verdict"| == 7;
    assert |"canonical_payload_digest"| == 24 && "canonical_payload_digest"[0] == 'c' && registry[0] == 'p';
    assert |"source_evidence_digest"| == 22 && |"reason_code"| == 11 && |"timestamp"| == 9 && |"nonce"| == 5;
    assert |"producer_registry_identity"| == 26 && |"authority_scope"| == 15;
  }

  /** What the ledger row keeps of a declared envelope. */
  lemma AuditSays(p: Platform, e: Envelope, v: Verified)
    requires Declared(e) && HasSignedFields(e) && v.digest == EnvelopeDigest(p, e)
    ensures At(e, "request_id").Str? && At(e, "route_id").Str? && At(e, "subject_agent_id").Str?
    ensures AuditOf(p, e, v)
            == Audit(Some(At(e, "request_id").s), Some(At(e, "route_id").s), Some(At(e, "subject_agent_id").s),
                     Some(Hex(p.sha256(Canonical(SignedView(e))))))
  {
    NoneIsEvidence();
    FirstAreNamed();
    LastAreNamed();
    hide Named, Declared, Canonical, Hex, SignedView, At, HasSignedFields;
    IsText(e, "request_id");
    IsText(e, "route_id");
    IsText(e, "subject_agent_id");
  }

  /** Only the source evidence may be null. */
  lemma IsText(e: Envelope, k: string)
    requires Declared(e) && (Named(k) || k == "producer_signature") && k != "source_evidence_digest"
    ensures At(e, k).Str?
  {
    DeclaredIff(e);
    hide Named, Declared;
  }

  lemma NoneIsEvidence()
    ensures "request_id" != "source_evidence_digest" && "route_id" != "source_evidence_digest"
    ensures "subject_agent_id" != "source_evidence_digest" && "producer_id" != "source_evidence_digest"
    ensures "submission_type" != "source_evidence_digest" && "producer_signature" != "source_evidence_digest"
    ensures "timestamp" != "source_evidence_digest" && "nonce" != "source_evidence_digest"
  {
    assert |"source_evidence_digest"| == 22 && |"request_id"| == 10 && |"route_id"| == 8 && |"subject_agent_id"| == 16;
    assert |"producer_id"| == 11 && |"submission_type"| == 15 && |"producer_signature"| == 18 && |"timestamp"| == 9;
    assert |"nonce"| == 5;
  }

  /** What a route that reaches the verifier answers, from the verifier's own verdict. */
  predicate AnswersTo(svc: Service, result: Result<Verified, SubmissionError>, call: Call, response: Response)
    requires call.Submit?
  {
    && (response == Crashed500 <==>
        result == Err(RegistryRejected(UnreadableDate))
        || (result.Ok? && !ValidStamp(Expiry(result.value.stamp, svc.skew))))
    && (response == Accepted200 ==> result.Ok? && call.up && call.lives)
    && (response == Died ==> result.Ok? && call.up && !call.lives)
    && response != Unavailable503
  }

  /**
   How a request is answered. Nothing is written unless it is accepted, or the process dies after the claim: a replay
   ledger that does not answer refuses.
  */
  lemma AnsweredIff(svc: Service, s: State, call: Call)
    requires ValidCall(call) && call.Submit?
    ensures var e := call.envelope;
            var (s', response) := SubmitSpec(svc, s, call);
            && (s'.lines != s.lines <==> response == Accepted200)
            && (s' != s ==> response == Accepted200 || response == Died)
            && if At(e, "route_id") != Str("/v1/attest/authenticated") then response == Unauthorized401
               else if call.registry.None? then response == Unavailable503
               else
                 var result := Verify(svc.platform, svc.read, e, call.registry.value, call.verifier, svc.skew);
                 AnswersTo(svc, result, call, response)
  {
    SubmitCases(svc, s, call);
    if call.registry.Some? {
      hide Verify, SubmitSpec, ValidCall, AnswersTo, RecordSpec, At;
      var result := Verify(svc.platform, svc.read, call.envelope, call.registry.value, call.verifier, svc.skew);
      if result.Ok? {
        RecordAnswers(svc, s, call, result.value);
      } else {
        RejectionAnswers(svc, call, result.error);
      }
    }
  }

  lemma RejectionAnswers(svc: Service, call: Call, error: SubmissionError)
    requires call.Submit?
    ensures AnswersTo(svc, Err(error), call,
                      if error == RegistryRejected(UnreadableDate) then Crashed500 else Unauthorized401)
  {
  }

  /** The four ways through the route. */
  lemma SubmitCases(svc: Service, s: State, call: Call)
    requires ValidCall(call) && call.Submit?
    ensures if At(call.envelope, "route_id") != Str("/v1/attest/authenticated") then
              SubmitSpec(svc, s, call) == (s, Unauthorized401)
            else if call.registry.None? then
              SubmitSpec(svc, s, call) == (s, Unavailable503)
            else
              var result := Verify(svc.platform, svc.read, call.envelope, call.registry.value, call.verifier, svc.skew);
              SubmitSpec(svc, s, call)
              == if result.Ok? then RecordSpec(svc, s, call, result.value)
                 else (s, if result.error == RegistryRejected(UnreadableDate) then Crashed500 else Unauthorized401)
  {
    hide Declared, StringFields, At, RecordSpec, Verify, InRange, ValidStamp;
    DeclaredAreStrings(call.envelope);
    if call.registry.Some? { NoFieldIsMistyped(svc, call); }
  }

  lemma RecordAnswers(svc: Service, s: State, call: Call, v: Verified)
    requires call.Submit? && call.registry.Some? && ValidStamp(v.stamp) && InRange(call.ledger)
    ensures var (s', response) := RecordSpec(svc, s, call, v);
            && (s'.lines != s.lines <==> response == Accepted200)
            && (s' != s ==> response == Accepted200 || response == Died)
            && AnswersTo(svc, Ok(v), call, response)
  {
    hide IsoFormat, IsoStamp, Perform, ClaimTask, LineOf, AuditOf, Expiry, ValidStamp, InRange;
    var line := LineOf(call.envelope, call.registry.value);
    assert |s.lines + [line]| != |s.lines|;
  }

  lemma DeclaredAreStrings(e: Envelope)
    requires Declared(e)
    ensures StringFields(e)
  {
    NoneIsEvidence();
    FirstAreNamed();
    LastAreNamed();
    hide Named, Declared, At;
    IsText(e, "producer_id");
    IsText(e, "route_id");
    IsText(e, "submission_type");
    IsText(e, "subject_agent_id");
    IsText(e, "producer_signature");
    IsText(e, "timestamp");
    IsText(e, "nonce");
  }

  lemma NoFieldIsMistyped(svc: Service, call: Call)
    requires call.Submit? && call.registry.Some? && StringFields(call.envelope)
    ensures Verify(svc.platform, svc.read, call.envelope, call.registry.value, call.verifier, svc.skew)
            != Err(NonStringField)
  {
    hide HasSignedFields, Resolve, EnvelopeDigest;
  }

  predicate AllValid(calls: seq<Call>) {
    forall i :: 0 <= i < |calls| ==> ValidCall(calls[i])
  }

  function Run(svc: Service, s: State, calls: seq<Call>): State
    requires AllValid(calls)
  {
    if |calls| == 0 then s
    else Step(svc, Run(svc, s, calls[..|calls| - 1]), calls[|calls| - 1])
  }

  /** The route handler and its two pieces of durable state. */
  class Api {
    const store: SqliteNonceStore
    var lines: seq<Json>

    constructor ()
      ensures fresh(store) && store.rows == map[] && lines == []
    {
      store := new SqliteNonceStore();
      lines := [];
    }

    function Abstract(): State
      reads this, store
    {
      State(store.rows, lines)
    }

    /** `submit_authenticated_evidence`; dying before the append is the caller's `lives == false`. */
    method SubmitAuthenticatedEvidence(svc: Service, call: Call) returns (response: Response)
      requires ValidCall(call) && call.Submit?
      modifies this`lines, store
      ensures (Abstract(), response) == SubmitSpec(svc, old(Abstract()), call)
      ensures response == Accepted200 <==> |lines| == |old(lines)| + 1
    {
      hide IsoFormat, IsoStamp, Verify;
      var e := call.envelope;
      if At(e, "route_id") != Str(ROUTE_ID) {
        return Unauthorized401;
      }
      if call.registry.None? {
        return Unavailable503;
      }
      var r := call.registry.value;
      match Verify(svc.platform, svc.read, e, r, call.verifier, svc.skew)
      case Err(RegistryRejected(UnreadableDate)) => return Crashed500;
      case Err(NonStringField) => return Crashed500;
      case Err(_) => return Unauthorized401;
      case Ok(v) =>
        VerifiedFacts(svc.platform, svc.read, e, r, call.verifier, svc.skew);
        var audit := AuditOf(svc.platform, e, v);
        var result :=
          store.CheckAndRecord((v.entry.producerId, v.nonce), v.stamp, svc.skew, call.ledger, audit, call.up);
        if result.OutOfRange? {
          return Crashed500;
        }
        if !result.Accepted? {
          return Unauthorized401;
        }
        if !call.lives {
          return Died;
        }
        lines := lines + [LineOf(e, r)];
        response := Accepted200;
    }
  }

  // ----- calls as ledger events -----

  /** What the call amounts to for the replay ledger. */
  function EventOf(svc: Service, call: Call): Replay.Event
    requires ValidCall(call)
  {
    if call.Sweep? then Replay.Sweep(call.now, call.up)
    else
      var e := call.envelope;
      if At(e, "route_id") != Str(ROUTE_ID) || call.registry.None? then Replay.Rejected
      else
        match Verify(svc.platform, svc.read, e, call.registry.value, call.verifier, svc.skew)
        case Err(_) => Replay.Rejected
        case Ok(v) =>
          if !ValidStamp(Expiry(v.stamp, svc.skew)) then Replay.Rejected
          else Replay.Submission((v.entry.producerId, v.nonce), v.stamp, call.verifier, call.ledger,
                                 AuditOf(svc.platform, e, v), call.up)
  }

  lemma EventWellTimed(svc: Service, call: Call)
    requires ValidCall(call)
    ensures Replay.WellTimed(EventOf(svc, call), svc.skew)
  {
    hide Verify, IsoFormat, IsoStamp, Resolve;
    if call.Submit? && call.registry.Some?
       && Verify(svc.platform, svc.read, call.envelope, call.registry.value, call.verifier, svc.skew).Ok?
    {
      VerifiedFacts(svc.platform, svc.read, call.envelope, call.registry.value, call.verifier, svc.skew);
    }
  }

  function EventsOf(svc: Service, calls: seq<Call>): (events: seq<Replay.Event>)
    requires AllValid(calls)
    ensures |events| == |calls|
    ensures forall i :: 0 <= i < |calls| ==> events[i] == EventOf(svc, calls[i])
  {
    seq(|calls|, i requires 0 <= i < |calls| => EventOf(svc, calls[i]))
  }

  /**
   One call does to the table what its event does, and appends its line exactly when its event commits a claim and the
   process lives.
  */
  lemma StepIsTask(svc: Service, s: State, call: Call)
    requires ValidCall(call)
    ensures Replay.WellTimed(EventOf(svc, call), svc.skew)
    ensures var (rows, committed) := Perform(s.rows, Replay.TaskOf(EventOf(svc, call), svc.skew));
            var s' := Step(svc, s, call);
            && s'.rows == rows
            && if committed && EventOf(svc, call).Submission? && call.Submit? && call.registry.Some? && call.lives
               then s'.lines == s.lines + [LineOf(call.envelope, call.registry.value)]
               else s'.lines == s.lines
  {
    hide Verify, IsoFormat, IsoStamp, Resolve;
    EventWellTimed(svc, call);
  }

  // ----- the submissions ledger over whole runs -----

  /** Which call wrote each line, in order. */
  predicate Owns(svc: Service, t: Table, calls: seq<Call>, lines: seq<Json>, owners: seq<nat>)
    requires AllValid(calls) && Replay.AllWellTimed(EventsOf(svc, calls), svc.skew)
  {
    && |owners| == |lines|
    && (forall a, b :: 0 <= a < b < |owners| ==> owners[a] < owners[b])
    && forall a :: 0 <= a < |owners| ==>
         owners[a] < |calls|
         && calls[owners[a]].Submit? && calls[owners[a]].registry.Some?
         && Replay.Accepts(t, EventsOf(svc, calls), svc.skew, owners[a])
         && lines[a] == LineOf(calls[owners[a]].envelope, calls[owners[a]].registry.value)
  }

  lemma AllEventsWellTimed(svc: Service, calls: seq<Call>)
    requires AllValid(calls)
    ensures Replay.AllWellTimed(EventsOf(svc, calls), svc.skew)
  {
    forall i | 0 <= i < |calls| ensures Replay.WellTimed(EventsOf(svc, calls)[i], svc.skew) {
      EventWellTimed(svc, calls[i]);
    }
  }

  /** Acceptance at `i` does not depend on the calls after `i`. */
  lemma AcceptsInPrefix(svc: Service, t: Table, calls: seq<Call>, n: nat, i: nat)
    requires AllValid(calls) && i < n <= |calls|
    requires Replay.AllWellTimed(EventsOf(svc, calls), svc.skew)
    requires Replay.AllWellTimed(EventsOf(svc, calls[..n]), svc.skew)
    ensures Replay.Accepts(t, EventsOf(svc, calls), svc.skew, i)
            <==> Replay.Accepts(t, EventsOf(svc, calls[..n]), svc.skew, i)
  {
    hide EventOf, Perform, After, Replay.TaskOf;
    var tasks := Replay.TasksOf(EventsOf(svc, calls), svc.skew);
    var tasks' := Replay.TasksOf(EventsOf(svc, calls[..n]), svc.skew);
    assert tasks[..i] == tasks'[..i] && tasks[i] == tasks'[i];
  }

  lemma {:induction false} RunRows(svc: Service, t: Table, calls: seq<Call>)
    requires AllValid(calls)
    ensures Replay.AllWellTimed(EventsOf(svc, calls), svc.skew)
    ensures Run(svc, State(t, []), calls).rows == After(t, Replay.TasksOf(EventsOf(svc, calls), svc.skew))
    decreases |calls|
  {
    AllEventsWellTimed(svc, calls);
    if |calls| > 0 {
      var n := |calls| - 1;
      var before := calls[..n];
      RunRows(svc, t, before);
      StepIsTask(svc, Run(svc, State(t, []), before), calls[n]);
      hide EventOf, Perform, Replay.TaskOf, Step;
      var tasks := Replay.TasksOf(EventsOf(svc, calls), svc.skew);
      assert tasks[..n] == Replay.TasksOf(EventsOf(svc, before), svc.skew);
    }
  }

  lemma OwnsExtends(svc: Service, t: Table, calls: seq<Call>, n: nat, lines: seq<Json>, owners: seq<nat>)
    requires AllValid(calls) && n <= |calls|
    requires Replay.AllWellTimed(EventsOf(svc, calls), svc.skew)
    requires Replay.AllWellTimed(EventsOf(svc, calls[..n]), svc.skew)
    requires Owns(svc, t, calls[..n], lines, owners)
    ensures Owns(svc, t, calls, lines, owners) && forall a :: 0 <= a < |owners| ==> owners[a] < n
  {
    hide EventOf, LineOf, Replay.Accepts;
    forall a | 0 <= a < |owners| ensures Replay.Accepts(t, EventsOf(svc, calls), svc.skew, owners[a]) {
      AcceptsInPrefix(svc, t, calls, n, owners[a]);
    }
  }

  /** The last call writes a line exactly when its event is an acceptance and the process lives. */
  lemma LastLine(svc: Service, t: Table, calls: seq<Call>)
    requires AllValid(calls) && |calls| > 0 && Replay.AllWellTimed(EventsOf(svc, calls), svc.skew)
    ensures var n := |calls| - 1;
            var before, after := Run(svc, State(t, []), calls[..n]).lines, Run(svc, State(t, []), calls).lines;
            if calls[n].Submit? && calls[n].registry.Some? && calls[n].lives
               && Replay.Accepts(t, EventsOf(svc, calls), svc.skew, n)
            then after == before + [LineOf(calls[n].envelope, calls[n].registry.value)]
            else after == before
  {
    var n := |calls| - 1;
    RunRows(svc, t, calls[..n]);
    StepIsTask(svc, Run(svc, State(t, []), calls[..n]), calls[n]);
    EventHasCall(svc, calls[n]);
    hide EventOf, Perform, After, Replay.TaskOf, Replay.WellTimed, Step, LineOf, ValidCall;
    var tasks := Replay.TasksOf(EventsOf(svc, calls), svc.skew);
    assert tasks[..n] == Replay.TasksOf(EventsOf(svc, calls[..n]), svc.skew);
    assert tasks[n] == Replay.TaskOf(EventOf(svc, calls[n]), svc.skew);
    assert Run(svc, State(t, []), calls) == Step(svc, Run(svc, State(t, []), calls[..n]), calls[n]);
  }

  lemma EventHasCall(svc: Service, call: Call)
    requires ValidCall(call)
    ensures EventOf(svc, call).Submission? ==> call.Submit? && call.registry.Some?
  {
    hide Verify;
  }

  lemma OwnsAppend(svc: Service, t: Table, calls: seq<Call>, lines: seq<Json>, owners: seq<nat>, n: nat)
    requires AllValid(calls) && n < |calls| && Replay.AllWellTimed(EventsOf(svc, calls), svc.skew)
    requires Owns(svc, t, calls, lines, owners) && forall a :: 0 <= a < |owners| ==> owners[a] < n
    requires calls[n].Submit? && calls[n].registry.Some? && Replay.Accepts(t, EventsOf(svc, calls), svc.skew, n)
    ensures Owns(svc, t, calls, lines + [LineOf(calls[n].envelope, calls[n].registry.value)], owners + [n])
  {
    hide EventOf, LineOf, Replay.Accepts;
  }

  lemma {:induction false} LinesHaveOwners(svc: Service, t: Table, calls: seq<Call>) returns (owners: seq<nat>)
    requires AllValid(calls)
    ensures Replay.AllWellTimed(EventsOf(svc, calls), svc.skew)
    ensures Owns(svc, t, calls, Run(svc, State(t, []), calls).lines, owners)
    decreases |calls|
  {
    hide ValidCall, EventOf, Step, LineOf, Replay.Accepts, Replay.WellTimed;
    AllEventsWellTimed(svc, calls);
    owners := [];
    if |calls| > 0 {
      var n := |calls| - 1;
      AllEventsWellTimed(svc, calls[..n]);
      owners := LinesHaveOwners(svc, t, calls[..n]);
      hide Run, Owns;
      var before := Run(svc, State(t, []), calls[..n]).lines;
      LastLine(svc, t, calls);
      OwnsExtends(svc, t, calls, n, before, owners);
      if Run(svc, State(t, []), calls).lines != before {
        OwnsAppend(svc, t, calls, before, owners, n);
        owners := owners + [n];
      }
    }
  }

  /** What identifies a submission: producer, nonce, and the instant its timestamp denotes, however it is written. */
  function Identity(svc: Service, line: Json): (Json, Json, Option<int>) {
    (line.Get("producer_id"), line.Get("nonce"),
     if line.Get("timestamp").Str? then Instants(svc.read)(line.Get("timestamp").s) else None)
  }

  /** An appended line carries the identity its event was claimed under. */
  lemma LineIdentity(svc: Service, call: Call)
    requires ValidCall(call) && EventOf(svc, call).Submission? && call.Submit? && call.registry.Some?
    requires IndexedById(call)
    ensures var event := EventOf(svc, call);
            Identity(svc, LineOf(call.envelope, call.registry.value))
            == (Str(event.key.0), Str(event.key.1), Some(event.stamp.utc))
  {
    hide Verify, IsoFormat, IsoStamp, Resolve, HasSignedFields;
    VerifiedFacts(svc.platform, svc.read, call.envelope, call.registry.value, call.verifier, svc.skew);
  }

  /** The registry was loaded, so its index is by producer id. */
  predicate IndexedById(call: Call) {
    call.Submit? && call.registry.Some? ==>
      forall id :: id in call.registry.value.byId ==> call.registry.value.byId[id].producerId == id
  }

  lemma LoadedIsIndexed(call: Call, entries: seq<Entry>, sha256: string)
    requires call.Submit? && Load(entries, sha256).Ok? && call.registry == Some(Load(entries, sha256).value)
    ensures IndexedById(call)
  {
    var r := call.registry.value;
    forall id | id in r.byId ensures r.byId[id].producerId == id { IndexIsExact(entries, id); }
  }

  /**
   No clock the ledger reads runs more than three acceptance windows, and the offset of the zone its timestamp is first
   written in, ahead of the verifier of a later request for the same submission.
  */
  predicate ClocksAgree(svc: Service, calls: seq<Call>)
    requires AllValid(calls)
  {
    var events := EventsOf(svc, calls);
    forall i, j :: 0 <= i < j < |events| && Replay.SameSubmission(events[i], events[j]) ==>
      Replay.ClocksAgree(events, svc.skew, i, j)
  }

  /** No producer, nonce and instant is written to the submissions ledger twice, over any run. */
  lemma LedgerHoldsEachSubmissionOnce(svc: Service, t: Table, calls: seq<Call>, a: nat, b: nat)
    requires AllValid(calls) && ClocksAgree(svc, calls)
    requires forall i :: 0 <= i < |calls| ==> IndexedById(calls[i])
    requires a < b < |Run(svc, State(t, []), calls).lines|
    ensures Identity(svc, Run(svc, State(t, []), calls).lines[a])
            != Identity(svc, Run(svc, State(t, []), calls).lines[b])
  {
    var lines := Run(svc, State(t, []), calls).lines;
    var owners := LinesHaveOwners(svc, t, calls);
    hide Run, EventOf, LineOf, Replay.TaskOf, After, Perform;
    var i, j := owners[a], owners[b];
    var events := EventsOf(svc, calls);
    LineIdentity(svc, calls[i]);
    LineIdentity(svc, calls[j]);
    if Identity(svc, lines[a]) == Identity(svc, lines[b]) {
      assert Replay.SameSubmission(events[i], events[j]);
      Replay.NeverAcceptedTwice(t, events, svc.skew, i, j);
    }
  }
}
