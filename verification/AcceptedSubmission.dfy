/**
 Exactly which requests the submission route writes a line for, and two that it does: one fresh submission, and one in a
 zone far behind UTC that is written twice.
*/
module AcceptedSubmission {
  import opened Text
  import opened JsonValue
  import opened Crypto
  import opened ProducerRegistry
  import opened Submission
  import opened IsoTime
  import opened NonceLedger
  import opened SubmissionApi
  import Replay
  import ClaimProtocol
  import InterleavedReplay
  import InterleavedLedger

  /** A request the route verifies: complete, in scope, signed and in the window, with an expiry Python can hold. */
  ghost predicate Verifiable(svc: Service, call: Call) {
    && call.Submit? && call.registry.Some?
    && At(call.envelope, "route_id") == Str(ROUTE_ID)
    && Passes(svc, call.envelope, call.registry.value, call.verifier)
  }

  ghost predicate Passes(svc: Service, e: Envelope, r: Registry, now: int) {
    && Submission.Complete(e, r)
    && exists entry, stamp :: PassesWith(svc, e, r, now, entry, stamp)
  }

  predicate PassesWith(svc: Service, e: Envelope, r: Registry, now: int, entry: Entry, stamp: Stamp)
    requires Submission.Complete(e, r)
  {
    && InScope(svc.read, e, r, now, entry) && SignedBy(svc.platform, e, entry)
    && InWindow(svc.read, e, now, svc.skew, stamp) && ValidStamp(Expiry(stamp, svc.skew))
  }

  lemma PassesIff(svc: Service, e: Envelope, r: Registry, now: int)
    ensures var result := Verify(svc.platform, svc.read, e, r, now, svc.skew);
            Passes(svc, e, r, now) <==> result.Ok? && ValidStamp(Expiry(result.value.stamp, svc.skew))
  {
    hide Verify, Submission.Complete, InScope, SignedBy, InWindow, EnvelopeDigest, ValidStamp;
    var result := Verify(svc.platform, svc.read, e, r, now, svc.skew);
    if result.Ok? && ValidStamp(Expiry(result.value.stamp, svc.skew)) {
      VerifiedIff(svc.platform, svc.read, e, r, now, svc.skew, result.value);
      assert PassesWith(svc, e, r, now, result.value.entry, result.value.stamp);
    }
    if Passes(svc, e, r, now) {
      var entry, stamp :| PassesWith(svc, e, r, now, entry, stamp);
      var v := OkValue(svc, e, r, entry, stamp);
      VerifiedIff(svc.platform, svc.read, e, r, now, svc.skew, v);
    }
  }

  function OkValue(svc: Service, e: Envelope, r: Registry, entry: Entry, stamp: Stamp): Verified
    requires Submission.Complete(e, r)
  {
    Verified(entry, At(e, "nonce").s, stamp, EnvelopeDigest(svc.platform, e))
  }

  /** The requests that reach the nonce ledger are the verifiable ones. */
  lemma ReachesLedgerIff(svc: Service, call: Call)
    requires ValidCall(call)
    ensures EventOf(svc, call).Submission? <==> Verifiable(svc, call)
  {
    if call.Submit? && call.registry.Some? { PassesIff(svc, call.envelope, call.registry.value, call.verifier); }
    hide Verify, Passes, ValidStamp, AuditOf;
  }

  /** Every earlier acceptance of the last call's producer and nonce has been forgotten by the ledger. */
  predicate Fresh(svc: Service, calls: seq<Call>)
    requires AllValid(calls) && |calls| > 0 && Replay.AllWellTimed(EventsOf(svc, calls), svc.skew)
  {
    var events, n := EventsOf(svc, calls), |calls| - 1;
    events[n].Submission? ==>
      forall i :: 0 <= i < n && Replay.SameKey(events[i], events[n]) && Replay.Accepts(map[], events, svc.skew, i) ==>
        Replay.Forgotten(events, svc.skew, i, n)
  }

  /**
   Over any history from empty ledgers the last call writes its line if and only if it is verifiable and fresh, the
   ledger answers and the process lives.
  */
  lemma LineWrittenIff(svc: Service, calls: seq<Call>)
    requires AllValid(calls) && |calls| > 0
    ensures Replay.AllWellTimed(EventsOf(svc, calls), svc.skew)
    ensures var n := |calls| - 1;
            var before, after := Run(svc, State(map[], []), calls[..n]).lines, Run(svc, State(map[], []), calls).lines;
            if Verifiable(svc, calls[n]) && Fresh(svc, calls) && calls[n].up && calls[n].lives
            then after == before + [LineOf(calls[n].envelope, calls[n].registry.value)]
            else after == before
  {
    AllEventsWellTimed(svc, calls);
    var n := |calls| - 1;
    var events := EventsOf(svc, calls);
    ReachesLedgerIff(svc, calls[n]);
    SubmissionEvent(svc, calls[n]);
    LastLine(svc, map[], calls);
    hide EventOf, Verifiable, LineOf, Run, Replay.Accepts, Replay.Forgotten, Replay.WellTimed;
    if events[n].Submission? { Replay.AcceptedIff(events, svc.skew, n); }
    if !events[n].Submission? { NotAccepted(svc, calls); }
  }

  lemma SubmissionEvent(svc: Service, call: Call)
    requires ValidCall(call)
    ensures EventOf(svc, call).Submission? ==>
              call.Submit? && call.registry.Some? && EventOf(svc, call).up == call.up
              && EventOf(svc, call).ledger == call.ledger
  {
    hide Verify;
  }

  lemma NotAccepted(svc: Service, calls: seq<Call>)
    requires AllValid(calls) && |calls| > 0 && Replay.AllWellTimed(EventsOf(svc, calls), svc.skew)
    requires !EventsOf(svc, calls)[|calls| - 1].Submission?
    ensures !Replay.Accepts(map[], EventsOf(svc, calls), svc.skew, |calls| - 1)
  {
  }

  // ----- a request that is accepted -----

  /** A sample envelope's fields: all but three are one letter. */
  function Field(key: string, timestamp: string): Json {
    if key == "schema_version" then Str(SCHEMA_VERSION)
    else if key == "route_id" then Str(ROUTE_ID)
    else if key == "timestamp" then Str(timestamp)
    else Str("x")
  }

  function Unsigned(timestamp: string): (e: Envelope)
    ensures HasSignedFields(e)
  {
    map f | f in SIGNED_FIELDS :: Field(f, timestamp)
  }

  function Sent(p: Platform, privateKey: string, timestamp: string): Envelope {
    var e := Unsigned(timestamp);
    e["producer_signature" := Str(SignEnvelope(p, privateKey, e))]
  }

  function SampleEntry(p: Platform, privateKey: string): Entry {
    Entry("x", p.publicOf(privateKey), ["x"], ["x"], [ROUTE_ID], "active", None, None)
  }

  function SampleRegistry(p: Platform, privateKey: string): Registry {
    var entry := SampleEntry(p, privateKey);
    Registry([entry], "x", map["x" := entry])
  }

  /** The sample, sent when verifier and ledger both read `now`. */
  function SampleCall(p: Platform, privateKey: string, timestamp: string, now: int): Call {
    Submit(Sent(p, privateKey, timestamp), Some(SampleRegistry(p, privateKey)), now, now, true, true)
  }

  lemma SampleLoads(p: Platform, privateKey: string)
    ensures Load([SampleEntry(p, privateKey)], "x") == Ok(SampleRegistry(p, privateKey))
  {
    var entries := [SampleEntry(p, privateKey)];
    assert LIFECYCLE_STATES[1] == "active";
    assert entries[..0] == [] && Index(entries[..0]) == map[];
    assert Index(entries) == map[]["x" := entries[0]];
  }

  lemma SentFields(p: Platform, privateKey: string, timestamp: string, key: string)
    requires key in SIGNED_FIELDS
    ensures key in Sent(p, privateKey, timestamp) && key != "producer_signature"
    ensures At(Sent(p, privateKey, timestamp), key) == Field(key, timestamp)
  {
    assert "producer_signature" !in SIGNED_FIELDS;
    hide Field, HasSignedFields;
  }

  lemma SentSignature(p: Platform, privateKey: string, timestamp: string)
    ensures HasSignedFields(Sent(p, privateKey, timestamp)) && "producer_signature" in Sent(p, privateKey, timestamp)
    ensures At(Sent(p, privateKey, timestamp), "producer_signature").Str?
    ensures AcceptsOwnSignatures(p) ==>
              p.verify(p.publicOf(privateKey), At(Sent(p, privateKey, timestamp), "producer_signature").s,
                       EnvelopeDigest(p, Sent(p, privateKey, timestamp)))
  {
    hide Unsigned;
    var e := Unsigned(timestamp);
    var signature := Str(SignEnvelope(p, privateKey, e));
    SignatureIsNotSigned(e, signature);
    assert EnvelopeDigest(p, Sent(p, privateKey, timestamp)) == EnvelopeDigest(p, e);
  }

  lemma SampleFields(p: Platform, privateKey: string, timestamp: string)
    ensures var e := Sent(p, privateKey, timestamp);
            && At(e, "schema_version") == Str(SCHEMA_VERSION) && At(e, "route_id") == Str(ROUTE_ID)
            && At(e, "timestamp") == Str(timestamp) && At(e, "producer_id") == Str("x") && At(e, "nonce") == Str("x")
            && At(e, "submission_type") == Str("x") && At(e, "subject_agent_id") == Str("x")
            && At(e, "producer_registry_identity") == Str("x")
  {
    hide Sent;
    assert SIGNED_FIELDS[0] == "schema_version" && SIGNED_FIELDS[2] == "producer_id";
    assert SIGNED_FIELDS[3] == "subject_agent_id" && SIGNED_FIELDS[4] == "submission_type";
    assert SIGNED_FIELDS[5] == "route_id" && SIGNED_FIELDS[11] == "timestamp" && SIGNED_FIELDS[12] == "nonce";
    assert SIGNED_FIELDS[13] == "producer_registry_identity";
    SentFields(p, privateKey, timestamp, "schema_version");
    SentFields(p, privateKey, timestamp, "producer_id");
    SentFields(p, privateKey, timestamp, "subject_agent_id");
    SentFields(p, privateKey, timestamp, "submission_type");
    SentFields(p, privateKey, timestamp, "route_id");
    SentFields(p, privateKey, timestamp, "timestamp");
    SentFields(p, privateKey, timestamp, "nonce");
    SentFields(p, privateKey, timestamp, "producer_registry_identity");
  }

  lemma KeysWith(m: map<string, Json>, fields: seq<string>, extra: string, v: Json)
    requires forall f :: f in m <==> f in fields
    ensures m[extra := v].Keys == (set f | f in fields) + {extra}
  {
  }

  lemma SampleIsDeclared(p: Platform, privateKey: string, timestamp: string)
    ensures Declared(Sent(p, privateKey, timestamp))
  {
    var unsigned := Unsigned(timestamp);
    var signature := Str(SignEnvelope(p, privateKey, unsigned));
    forall f | f in unsigned ensures unsigned[f].Str? { FieldIsText(f, timestamp); }
    assert forall f :: f in unsigned <==> f in SIGNED_FIELDS;
    hide HasSignedFields, Field, Unsigned, SignEnvelope;
    KeysWith(unsigned, SIGNED_FIELDS, "producer_signature", signature);
  }

  lemma FieldIsText(key: string, timestamp: string)
    ensures Field(key, timestamp).Str?
  {
  }

  lemma SampleIsAuthorized(svc: Service, privateKey: string, now: int)
    ensures Authorizes(SampleEntry(svc.platform, privateKey), Instants(svc.read), ROUTE_ID, "x", "x", now)
  {
    hide SegmentsMatch;
    SameSegments("x", "x");
    assert SegmentsMatch("x", "x") by { MatchingIsBySegments("x", "x"); }
    var e := SampleEntry(svc.platform, privateKey);
    assert e.namespaces[0] == "x" && e.routes[0] == ROUTE_ID && e.submissionTypes[0] == "x";
  }

  /** The sample reaches the ledger under its own key, for every platform that accepts its own signatures. */
  lemma SampleEvent(svc: Service, privateKey: string, timestamp: string, stamp: Stamp, now: int)
    requires AcceptsOwnSignatures(svc.platform) && svc.read(timestamp) == Some(stamp)
    requires ValidStamp(stamp) && ValidStamp(Expiry(stamp, svc.skew))
    requires InRange(now) && now - svc.skew <= stamp.utc <= now + svc.skew
    ensures ValidCall(SampleCall(svc.platform, privateKey, timestamp, now))
    ensures var event := EventOf(svc, SampleCall(svc.platform, privateKey, timestamp, now));
            event.Submission? && event.key == ("x", "x") && event.stamp == stamp && event.verifier == now
            && event.ledger == now && event.up
  {
    var e, r := Sent(svc.platform, privateKey, timestamp), SampleRegistry(svc.platform, privateKey);
    SampleFields(svc.platform, privateKey, timestamp);
    SentSignature(svc.platform, privateKey, timestamp);
    SampleIsDeclared(svc.platform, privateKey, timestamp);
    SampleIsAuthorized(svc, privateKey, now);
    hide Sent, EnvelopeDigest, HasSignedFields, Authorizes, AcceptsOwnSignatures, Declared, Verify, AuditOf;
    var v := Verified(SampleEntry(svc.platform, privateKey), "x", stamp, EnvelopeDigest(svc.platform, e));
    VerifiedIff(svc.platform, svc.read, e, r, now, svc.skew, v);
  }

  /** So an honest fresh submission is written: one line after one request. */
  lemma FreshSampleIsWritten(svc: Service, privateKey: string, timestamp: string, stamp: Stamp, now: int)
    requires AcceptsOwnSignatures(svc.platform) && svc.read(timestamp) == Some(stamp)
    requires ValidStamp(stamp) && ValidStamp(Expiry(stamp, svc.skew))
    requires InRange(now) && now - svc.skew <= stamp.utc <= now + svc.skew
    ensures var call := SampleCall(svc.platform, privateKey, timestamp, now);
            ValidCall(call)
            && Run(svc, State(map[], []), [call]).lines == [LineOf(call.envelope, call.registry.value)]
  {
    SampleEvent(svc, privateKey, timestamp, stamp, now);
    var call := SampleCall(svc.platform, privateKey, timestamp, now);
    assert call.Submit? && call.registry.Some? && call.up && call.lives;
    hide *;
    FirstIsWritten(svc, call);
  }

  lemma FirstIsWritten(svc: Service, call: Call)
    requires ValidCall(call) && call.Submit? && call.registry.Some? && call.up && call.lives
    requires EventOf(svc, call).Submission?
    ensures AllValid([call])
    ensures Run(svc, State(map[], []), [call]).lines == [LineOf(call.envelope, call.registry.value)]
  {
    ReachesLedgerIff(svc, call);
    OneCall(svc, call);
    LineWrittenIff(svc, [call]);
    NothingBefore(svc, call);
    hide *;
    assert [] + [LineOf(call.envelope, call.registry.value)] == [LineOf(call.envelope, call.registry.value)];
  }

  lemma NothingBefore(svc: Service, call: Call)
    requires AllValid([call]) && Replay.AllWellTimed(EventsOf(svc, [call]), svc.skew)
    ensures |[call]| == 1 && [call][0] == call && [call][..0] == [] && Fresh(svc, [call])
    ensures Run(svc, State(map[], []), []).lines == []
  {
    hide EventOf, ValidCall, Step, Replay.WellTimed, Replay.Accepts;
  }

  /** And so it is under the steps of the claim protocol, which shows that interleavings of such calls exist. */
  lemma InterleavedSampleIsWritten(svc: Service, privateKey: string, timestamp: string, stamp: Stamp, now: int)
    returns (c: ClaimProtocol.Setup, steps: seq<InterleavedLedger.Step>, s: InterleavedLedger.World)
    requires AcceptsOwnSignatures(svc.platform) && svc.read(timestamp) == Some(stamp)
    requires ValidStamp(stamp) && ValidStamp(Expiry(stamp, svc.skew))
    requires InRange(now) && now - svc.skew <= stamp.utc <= now + svc.skew
    ensures var call := SampleCall(svc.platform, privateKey, timestamp, now);
            && InterleavedLedger.RunsCalls(c, svc, [call])
            && InterleavedLedger.Reaches(c, [call], InterleavedLedger.Initial(c, map[]), steps, s)
            && s.lines == [LineOf(call.envelope, call.registry.value)]
  {
    var call := SampleCall(svc.platform, privateKey, timestamp, now);
    SampleEvent(svc, privateKey, timestamp, stamp, now);
    SampleLoads(svc.platform, privateKey);
    LoadedIsIndexed(call, [SampleEntry(svc.platform, privateKey)], "x");
    assert call.Submit? && call.registry.Some?;
    hide *;
    c, steps, s := AloneIsInterleaved(svc, call);
  }

  lemma AloneIsInterleaved(svc: Service, call: Call)
    returns (c: ClaimProtocol.Setup, steps: seq<InterleavedLedger.Step>, s: InterleavedLedger.World)
    requires ValidCall(call) && call.Submit? && call.registry.Some? && IndexedById(call)
    requires EventOf(svc, call).Submission? && EventOf(svc, call).up
    ensures InterleavedLedger.RunsCalls(c, svc, [call])
    ensures InterleavedLedger.Reaches(c, [call], InterleavedLedger.Initial(c, map[]), steps, s)
    ensures s.lines == [LineOf(call.envelope, call.registry.value)]
  {
    EventWellTimed(svc, call);
    var event := EventOf(svc, call);
    c := ClaimProtocol.Setup([Replay.TaskOf(event, svc.skew)], [0], [0]);
    OneCall(svc, call);
    OneEvent(c, event, svc.skew);
    hide *;
    steps, s := InterleavedLedger.AloneIsWritten(c, [call]);
    OneRun(c, svc, call);
  }

  lemma OneCall(svc: Service, call: Call)
    requires ValidCall(call)
    ensures AllValid([call]) && |[call]| == 1 && [call][0] == call && EventsOf(svc, [call]) == [EventOf(svc, call)]
  {
    hide EventOf, ValidCall;
  }

  lemma OneEvent(c: ClaimProtocol.Setup, event: Replay.Event, skew: nat)
    requires Replay.WellTimed(event, skew) && event.Submission? && event.up
    requires c == ClaimProtocol.Setup([Replay.TaskOf(event, skew)], [0], [0])
    ensures ClaimProtocol.ValidSetup(c) && |c.tasks| == 1 && c.tasks[0].Claim?
    ensures InterleavedReplay.RunsEvents(c, [event], skew)
  {
    hide IsoFormat, IsoStamp;
    assert c.tasks[0].Claim?;
    hide Replay.TaskOf, Replay.WellTimed;
  }

  lemma OneRun(c: ClaimProtocol.Setup, svc: Service, call: Call)
    requires AllValid([call]) && IndexedById(call) && InterleavedReplay.RunsEvents(c, EventsOf(svc, [call]), svc.skew)
    ensures InterleavedLedger.RunsCalls(c, svc, [call])
  {
    hide IndexedById, InterleavedReplay.RunsEvents, AllValid, EventsOf;
  }

  /**
   The same request, sent again while it is still in the window, is written again when the clock is past the local time
   its expiry shows, although every clock agrees.
  */
  lemma FarZoneIsWrittenTwice(svc: Service, privateKey: string, timestamp: string, stamp: Stamp,
                              first: int, second: int)
    requires AcceptsOwnSignatures(svc.platform) && svc.read(timestamp) == Some(stamp)
    requires ValidStamp(stamp) && ValidStamp(Expiry(stamp, svc.skew))
    requires InRange(first) && first - svc.skew <= stamp.utc <= first + svc.skew
    requires InRange(second) && second - svc.skew <= stamp.utc <= second + svc.skew
    requires second > KeptUntil(stamp, svc.skew)
    ensures var calls := [SampleCall(svc.platform, privateKey, timestamp, first),
                          SampleCall(svc.platform, privateKey, timestamp, second)];
            && AllValid(calls)
            && var line := LineOf(calls[0].envelope, calls[0].registry.value);
               Run(svc, State(map[], []), calls).lines == [line, line]
  {
    SampleEvent(svc, privateKey, timestamp, stamp, first);
    SampleEvent(svc, privateKey, timestamp, stamp, second);
    FreshSampleIsWritten(svc, privateKey, timestamp, stamp, first);
    var a := SampleCall(svc.platform, privateKey, timestamp, first);
    var b := SampleCall(svc.platform, privateKey, timestamp, second);
    assert a.envelope == b.envelope && a.registry == b.registry && b.Submit? && b.registry.Some? && b.up && b.lives;
    hide *;
    SecondIsWritten(svc, a, b, stamp);
  }

  lemma SecondIsWritten(svc: Service, a: Call, b: Call, stamp: Stamp)
    requires ValidCall(a) && ValidCall(b) && a.Submit? && a.registry.Some? && b.Submit? && b.up && b.lives
    requires b.envelope == a.envelope && b.registry == a.registry
    requires EventOf(svc, a).Submission? && EventOf(svc, a).stamp == stamp
    requires EventOf(svc, b).Submission? && EventOf(svc, b).ledger > KeptUntil(stamp, svc.skew)
    requires Run(svc, State(map[], []), [a]).lines == [LineOf(a.envelope, a.registry.value)]
    ensures var line := LineOf(a.envelope, a.registry.value);
            AllValid([a, b]) && Run(svc, State(map[], []), [a, b]).lines == [line, line]
  {
    ReachesLedgerIff(svc, b);
    PairOfCalls(a, b);
    hide *;
    LineWrittenIff(svc, [a, b]);
    SecondIsFresh(svc, a, b);
  }

  lemma PairOfCalls(a: Call, b: Call)
    requires ValidCall(a) && ValidCall(b)
    ensures AllValid([a, b]) && AllValid([a]) && [a, b][..1] == [a] && |[a, b]| == 2 && [a, b][1] == b
  {
    hide ValidCall;
  }

  lemma SecondIsFresh(svc: Service, a: Call, b: Call)
    requires ValidCall(a) && ValidCall(b) && AllValid([a, b])
    requires Replay.AllWellTimed(EventsOf(svc, [a, b]), svc.skew)
    requires EventOf(svc, a).Submission? && EventOf(svc, b).Submission?
    requires EventOf(svc, b).ledger > KeptUntil(EventOf(svc, a).stamp, svc.skew)
    ensures Fresh(svc, [a, b])
  {
    hide EventOf, KeptUntil, Replay.Accepts, Replay.SameKey, Replay.AllWellTimed, ValidCall;
    var events := EventsOf(svc, [a, b]);
    assert events[0] == EventOf(svc, a) && events[1] == EventOf(svc, b);
    assert Replay.Forgotten(events, svc.skew, 0, 1);
  }

  // ----- the concrete case -----

  const MIDNIGHT_WEST := "2026-01-01T00:00:00-12:00"

  const TWELVE_HOURS := 43_200_000_000

  /** 2026-01-01T12:00:00 in UTC, which is midnight twelve hours behind it. */
  const NOON: int := Instant(Civil(2026, 1, 1, 12, 0, 0, 0))

  const WEST := Stamp(NOON, -TWELVE_HOURS)

  lemma NoonIs()
    ensures NOON == 63_902_952_000_000_000
    ensures Instant(Civil(2026, 1, 1, 0, 0, 0, 0)) == NOON - TWELVE_HOURS
    ensures Instant(Civil(2026, 1, 1, 0, 20, 0, 0)) == NOON - TWELVE_HOURS + 1_200_000_000
    ensures Instant(Civil(2026, 1, 1, 12, 0, 1, 0)) == NOON + 1_000_000
  {
    assert DaysBeforeYear(2026) == 739616;
  }

  lemma WestIsValid()
    ensures ValidStamp(WEST) && ValidStamp(Expiry(WEST, 300_000_000)) && InRange(NOON) && InRange(NOON + 1_000_000)
    ensures Local(WEST) == NOON - TWELVE_HOURS
    ensures Local(Expiry(WEST, 300_000_000)) == NOON - TWELVE_HOURS + 1_200_000_000
  {
    NoonIs();
    hide Instant;
  }

  lemma WestOffset()
    ensures OffsetText(-TWELVE_HOURS) == "-12:00"
  {
    hide OffsetText, Pad;
    OffsetLayout(12, 0);
    WestZone();
    assert TWELVE_HOURS == (12 * 60 + 0) * 60_000_000;
  }

  lemma WestZone()
    ensures "-" + (Pad(12, 2) + (":" + Pad(0, 2))) == "-12:00"
  {
    PadsAsWritten();
    hide Pad;
    assert "-" + ("12" + (":" + "00")) == "-12:00";
  }

  /** A time of that morning, as text. */
  lemma MorningText(hour: nat, minute: nat, second: nat, zone: string)
    ensures Iso(Civil(2026, 1, 1, hour, minute, second, 0), zone)
            == "2026-01-01T" + Pad(hour, 2) + ":" + Pad(minute, 2) + ":" + Pad(second, 2) + zone
  {
    PadYear();
    PadsAsWritten();
    hide Pad;
  }

  /** The texts of the case: the stamp as written, its expiry, and the clock one second after noon. */
  lemma WestTexts()
    ensures ValidStamp(WEST) && ValidStamp(Expiry(WEST, 300_000_000)) && InRange(NOON + 1_000_000)
    ensures IsoStamp(WEST) == MIDNIGHT_WEST
    ensures IsoStamp(Expiry(WEST, 300_000_000)) == "2026-01-01T00:20:00-12:00"
    ensures IsoFormat(NOON + 1_000_000) == "2026-01-01T12:00:01+00:00"
  {
    WestIsValid();
    NoonIs();
    hide Pad, CivilAt, Instant, ValidStamp, InRange, Iso, OffsetText;
    CivilIs(Local(WEST), Civil(2026, 1, 1, 0, 0, 0, 0));
    CivilIs(Local(Expiry(WEST, 300_000_000)), Civil(2026, 1, 1, 0, 20, 0, 0));
    CivilIs(NOON + 1_000_000, Civil(2026, 1, 1, 12, 0, 1, 0));
    WestOffset();
    MorningText(0, 0, 0, "-12:00");
    MorningText(0, 20, 0, "-12:00");
    MorningText(12, 0, 1, UTC);
    PadsAsWritten();
  }

  /** With the default window of 300 seconds and clocks that agree, this envelope is accepted and written twice. */
  lemma MidnightWestIsWrittenTwice(svc: Service, privateKey: string)
    requires AcceptsOwnSignatures(svc.platform) && svc.skew == 300_000_000 && svc.read(MIDNIGHT_WEST) == Some(WEST)
    ensures var calls := [SampleCall(svc.platform, privateKey, MIDNIGHT_WEST, NOON),
                          SampleCall(svc.platform, privateKey, MIDNIGHT_WEST, NOON + 1_000_000)];
            && AllValid(calls)
            && var line := LineOf(calls[0].envelope, calls[0].registry.value);
               Run(svc, State(map[], []), calls).lines == [line, line]
  {
    WestIsValid();
    NoonIs();
    assert NOON + 1_000_000 > KeptUntil(WEST, svc.skew);
    hide Instant, SampleCall, LineOf;
    FarZoneIsWrittenTwice(svc, privateKey, MIDNIGHT_WEST, WEST, NOON, NOON + 1_000_000);
  }
}
