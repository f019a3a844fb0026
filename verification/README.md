# Attest service: a verified model

The attest service records evidence about agents. Producers send it signed submissions, each of which may be used once.
Its Path C routes take a commitment, evaluate it against a submitted output, and sign a receipt of the evaluation.
Other routes keep a registry of agents and of the activations that verified them. Everything durable is an append-only
ledger of JSON lines in which the latest record of a key wins, apart from one SQLite table of used nonces.

This project models those parts in Dafny and proves what they are for:

- **Replay protection.** Over every run, concurrent or not, no producer, nonce and timestamp is accepted twice unless,
  after the first acceptance and no later than the second, a delete read a clock too far ahead. How far is too far
  depends on the zone the timestamp is written in: with clocks that agree, replay is excluded exactly for zones no more
  than three acceptance windows behind UTC. The bounds are exact for both nonce stores, and exactly which submissions
  are accepted, over any history, is an if-and-only-if. `NonceLedger`, `Replay`, `MemoryNonceStore`, `ClaimProtocol`,
  `InterleavedReplay`, `InterleavedLedger`, `IsoTime`, `ProducerRegistry`, `Submission`, `SubmissionApi`,
  `AcceptedSubmission`.
- **Unambiguous bytes.** The JSON printer with its escapes, its reader, canonical (sorted) printing, UTF-8, and the
  ledger text that grows one line at a time; which bytes are printed is stated character by character. `Text`, `JsonValue`, `JsonText`, `CanonicalJson`, `Utf8`, `Jsonl`.
- **Path C.** One generic write-once store, instantiated four times, the digest chain of a commitment, the evaluator,
  the signed receipt, an invariant over every run of the three routes, and exactly when each of them writes.
  `WriteOnce`, `Crypto`, `Commitment`, `Evaluator`, `EvaluationStore`, `Receipts`, `PathC`, `HonestPath`,
  `EvidenceGraph`, `RecordingWrapper`.
- **Agents.** All writers of the agent and activation ledgers, interleaved line by line, with stage safety and the
  conservation law of the metrics. `AgentRegistry`.
- **The demo rate limiter**, a sliding window over unbounded histories. `RateLimiter`.

## How to read it

Time is a number of microseconds since year 1 in UTC; a call that reads the clock twice takes two readings. A submitted
timestamp is an instant with the offset of its zone (`IsoTime.Stamp`), both of which its `isoformat` text shows. Requests
to other services, signatures, digests and `datetime.fromisoformat` are function-valued parameters, so every theorem
holds for all of them. `Crypto.Platform` holds the digest and the signature functions. No digest is ever taken to be
injective: a lemma that needs it concludes "equal, or these two byte strings collide". Ed25519 (section 5.1 of RFC 8032)
is an ideal oracle where tamper evidence is stated: the premise `OnlySigned` says a verifying message is one of those
the key signed. Code that updates things in place is a class or a loop here, proved against a specification function;
the lemmas are about that function. The safety theorems have their witnesses beside them: the `BoundIsTight` runs are
accepted twice, `AcceptedSubmission` has a sample envelope accepted and written, alone and under the claim protocol, and
`HonestPath` carries a request to a verified receipt.

A run of the SQLite store is a sequence of transactions (`NonceLedger.Task`), and each layer above is mapped to one:
`Replay.TaskOf` for timed events, `ClaimProtocol.LogTasks` for interleaved steps, `SubmissionApi.EventOf` for calls of
the route. So one theorem about transactions serves all three, and the commit order of an interleaving is again a run.

The theorems about runs speak through functions and constants such as `SIGNED_FIELDS`, `EvaluateCheck` or `BuildCore`.
What those mean is stated on its own, with field names, kinds, statuses and texts written out, in the members whose names
end in `Iff`, `Says`, `Are`, `Answers`, `Outcome` or `Text`.

## Where the code and its documentation differ

The code is followed, and the difference is proved.

- `replay_ledger.py:229-233` promises that a row that could still be replayed is never deleted. The expiry keeps the zone
  of the timestamp (`replay_ledger.py:184`) and is compared as text with a UTC clock, so a row stays until the clock is
  past the local time its expiry shows: the retention moved by the zone's offset (`NonceLedger.KeptUntil`,
  `ExpireIsExact`). `Replay.ZoneIsSafeIff` says for which offsets that is enough, and
  `AcceptedSubmission.MidnightWestIsWrittenTwice` gives an envelope at offset -12:00 that is accepted and written twice
  within one second. In UTC, however it is written (`Z`, `+00:00` or no zone), the offset is zero.
- `README.md:66` calls activation stages monotonic. For whole requests, one after the other, an agent's latest stage never
  falls exactly when no request of the run is, on the ledgers it finds, in one of two families (`AgentRegistry.Lowers`):
  a failed activation of an owned agent beyond `registered`, and a successful one of a `continuous` agent. That is
  `MonotonicIff`, and `StagesCanFall` is a run from the empty ledgers. Requests are not handled one after the other,
  since reading and appending are separate steps without a lock: `StaleReadLowers` is an interleaving of registrations
  and one passing activation, in neither family, after which the stage has fallen. `FreshLineLowersIff` shows that stale
  reads are all that parallel requests add.
- `attest_service.py:1415-1418` promises `manual_review` for every boundary case. An invalid spec still consults the
  committed release policy: `PathC.BoundaryIntentIff` says exactly when `manual_review` is recorded, and
  `HonestPath.InvalidSpecCanRelease` commits and evaluates a record under which the recorded intent is to release.
- A ledger is meant to read back what was appended. Strings are written unescaped but read with `splitlines`, so a
  record with U+0085, U+2028 or U+2029 in a string makes the whole ledger unreadable: `Jsonl.LedgerRoundTrip`. The
  stores of the model report this (`Unreadable`), and the routes then answer with a crash. One such commitment is
  accepted, and after it nothing is ever committed or evaluated again: `HonestPath.SeparatorStopsTheService`. One such
  output is accepted too, and after it nothing is evaluated and no receipt issued: `HonestPath.SeparatorStopsEvaluation`.
- The patterns for digests and agent ids end in `$`, which also matches before one trailing newline. The model keeps
  that.
- A registration under another owner is refused, but the check reads before it writes: `AgentRegistry.RacingFounders` is
  an interleaving after which two owners have a line of one agent. `OwnersAreFounders` shows that no other request lets
  a further owner in.
- Imported agents have no `owner_id`, which the other writers then fail to find: `ImportedAgentsAreFrozen`.

## Model

| member | source | states |
|---|---|---|
| NonceLedger.SqliteNonceStore.CheckAndRecord | replay_ledger.py:163-227 | the claim, of a timestamp in any zone, leaves exactly the table and the answer of one whole transaction, both texts of the timestamp keep its zone, and an answer other than acceptance leaves the table as it was |
| NonceLedger.SqliteNonceStore.CleanUp | replay_ledger.py:229-250 | the table loses exactly the rows whose expiry text is below the clock text, and the answer is how many those were |
| NonceLedger.ClaimAnswers | replay_ledger.py:181-227 | exactly when a claim is accepted, a replay, refused for a store that does not answer, or out of range, and that only acceptance changes the table |
| NonceLedger.ClaimWrites | replay_ledger.py:181-220 | an accepted claim leaves one row for its key, with the audit fields, the timestamp in its own zone, the clock text and the timestamp four skews on, and keeps every other row exactly when it is not past its expiry |
| NonceLedger.ExpireIsExact | replay_ledger.py:184-199 | a row survives a delete exactly when the clock is not past its timestamp plus four skews plus the offset of its zone, which in UTC is its retention |
| NonceLedger.RowUntilOutdated | replay_ledger.py:186-226 | over every run a claimed row is in the table, unchanged, unless a committed transaction between read a clock past its expiry, and then it is gone |
| NonceLedger.ReclaimedIff | replay_ledger.py:186-226 | a used key is claimed again if and only if the claim itself or a committed transaction since then read a clock past the first expiry |
| NonceLedger.TwoClaimsNeedLateClock | replay_ledger.py:186-226 | any two committed claims of a key, with whatever between them, have such a clock reading after the first and up to the second |
| NonceLedger.CommitsIff | replay_ledger.py:186-226 | from an empty table, over any history, a claim commits if and only if every earlier committed claim of its key has been outdated since, at the latest by its own delete |
| Replay.LateTextIsLateClock | replay_ledger.py:182-196 | the DELETE's text comparison between the expiry one call wrote, in any zone, and the clock another reads compares that clock with the shown local time |
| Replay.LateReadingBetween | replay_ledger.py:181-220 | between two acceptances of one producer and nonce some ledger or cleanup clock read past the first timestamp plus four skews plus its zone's offset |
| Replay.AcceptancesFarApart | authenticated_submission.py:226-244 | and hence more than three skews, plus that offset, past the verifier clock of the first acceptance |
| Replay.NeverAcceptedTwice | replay_ledger.py:181-220 | no producer, nonce and timestamp is accepted twice in any run in which no ledger or cleanup clock between the two is more than three skews, plus the offset of the first one's zone, ahead of the later verifier clock |
| Replay.AcceptedAgainIff | replay_ledger.py:181-220 | exactly when a used producer and nonce is accepted again: the ledger works and its own or an intervening delete's clock is past the time the row is kept until |
| Replay.AcceptedIff | replay_ledger.py:181-220 | over any history from an empty ledger a submission is accepted if and only if the ledger answers and every earlier acceptance of its producer and nonce has been deleted since |
| Replay.BoundIsTight | replay_ledger.py:181-220 | for every skew and every zone a run of two calls, one microsecond past the bound, in which the same submission is accepted twice |
| Replay.ZoneIsSafeIff | replay_ledger.py:184-196 | with clocks that agree a submission can be accepted twice if and only if its zone is more than three skews behind UTC |
| MemoryNonceStore.NonceStore.Prune | authenticated_submission.py:136-140 | deleting the collected stale keys one by one leaves exactly the entries that are not stale |
| MemoryNonceStore.NonceStore.CheckAndRecord | authenticated_submission.py:113-134 | the dictionary and the answer are those of one claim that prunes by the submission's own timestamp |
| MemoryNonceStore.AcceptedAgainIff | authenticated_submission.py:113-140 | a used key is accepted again if and only if some claim since then, or the claim itself, carries a timestamp that prunes the first |
| MemoryNonceStore.AcceptedTwiceNeedsClockStep | authenticated_submission.py:113-140 | the same producer, nonce and timestamp are accepted twice only if an intervening verifier clock was more than two skews ahead of the later one |
| MemoryNonceStore.BoundIsTight | authenticated_submission.py:113-140 | for every skew a run of three claims, one microsecond past two skews, in which the same submission is accepted twice |
| ClaimProtocol.EveryInterleavingRefines | replay_ledger.py:186-226 | every interleaving of lock, begin, delete, insert, commit and rollback, with failures and crashes anywhere, leaves the table that whole transactions in commit order leave, with a single writer at any time |
| ClaimProtocol.OnlyCommitWrites | replay_ledger.py:186-226 | no step but a COMMIT changes the committed table |
| ClaimProtocol.CommitPerforms | replay_ledger.py:195-215 | a COMMIT makes of the table then committed what the claimant's whole transaction makes of it |
| ClaimProtocol.CommitsOfOneKey | replay_ledger.py:186-226 | between two committed claims of one key, in commit order, some transaction committed after the first and no later than the second read a clock past the first row's expiry |
| ClaimProtocol.AtMostOneWins | replay_ledger.py:186-226 | of any number of concurrent claimants of one key no two win, unless a transaction committed after the first and no later than the second read a clock past the first one's expiry; nothing before, or after both, matters |
| ClaimProtocol.WinnersRowIsCommitted | replay_ledger.py:186-226 | a winner's row is in the committed table until a transaction committed after it reads a clock past its expiry, and that is exactly when it is gone as long as nobody claims the key again |
| ClaimProtocol.LosersLeaveNoTrace | replay_ledger.py:205-226 | the table is made by the committed claimants alone, and a loser or failed claimant is not among them |
| ClaimProtocol.LockExcludes | replay_ledger.py:187-188 | two claimants that share a store object never both hold its lock |
| InterleavedReplay.CommitOrderIsRun | replay_ledger.py:181-226 | the events of an interleaving, in commit order, are a run of the durable ledger that makes the committed table and in which every submission is accepted |
| InterleavedReplay.LateReadingInLog | replay_ledger.py:181-226 | between two committed claims of a producer and nonce a delete read a clock past the first timestamp plus four skews plus its zone's offset |
| InterleavedReplay.ConcurrentReplaySafety | replay_ledger.py:181-226 | in every interleaving, when two claimants of a producer and nonce are accepted, a delete committed after the first and no later than the second read a clock more than three skews, plus the offset of the first one's zone, past the first verifier's, and for equal timestamps past the second verifier's |
| InterleavedLedger.TwoLinesNeedLateClock | authenticated_submission_api.py:144-158 | in every interleaving of claims, cleanups, crashes and later appends, two lines with one producer, nonce and instant need a delete between the two claims whose clock is more than three windows, plus the offset of the first one's zone, past the second verifier; the offset is zero for `Z`, `+00:00` and no zone |
| InterleavedLedger.EachSubmissionOnce | authenticated_submission_api.py:144-158 | so without such a clock the submissions ledger holds every producer, nonce and instant at most once |
| IsoTime.BeforeIffEarlier | replay_ledger.py:182-184 | the calendar fields compared in order agree with the instants, leap years included |
| IsoTime.FractionOrder | replay_ledger.py:182-184 | a fraction left out sorts before every six-digit one, as `+` and `-` sort before `.`, and with equal fractions no zone sorts before `+00:00` |
| IsoTime.IsoOrder | replay_ledger.py:182-196 | for all UTC instants the `isoformat` texts are ordered as the instants are, and are equal only for the same instant |
| IsoTime.LocalOrder | replay_ledger.py:184-196 | the `isoformat` text of a datetime in any zone is below that of a UTC clock if and only if its local time, read as UTC, is below the clock |
| IsoTime.IsoLayout | replay_ledger.py:182-184 | the text of a datetime is `YYYY-MM-DDTHH:MM:SS`, a point and six digits when the fraction is not zero, and the zone |
| IsoTime.PadIsDecimal | replay_ledger.py:182-184 | each field is its number in decimal digits at its full width |
| IsoTime.OffsetLayout | replay_ledger.py:184 | an offset of whole minutes prints as its sign, two digits of hours, a colon and two digits of minutes |
| ProducerRegistry.LoadedIndex | producer_registry.py:172-182 | a loaded registry finds an entry under an id exactly when the document lists it |
| ProducerRegistry.LoadsIff | producer_registry.py:121-182 | a document loads if and only if every status is one of the five and no producer is listed twice |
| ProducerRegistry.MatchingIsBySegments | producer_registry.py:233-250 | the string tests on a namespace are exactly a reading by colon-separated segments: equal, a prefix, or a proper prefix for a wildcard after `:` |
| ProducerRegistry.InNamespaceIff | producer_registry.py:233-250 | a subject is in scope exactly when some namespace matches it by segments |
| ProducerRegistry.ResolvedIff | producer_registry.py:192-230 | a producer is resolved to an entry if and only if the registry finds it under that id and it is active, within its validity, and scoped to route, type and subject segments |
| ProducerRegistry.RejectionOrder | producer_registry.py:192-230 | which rejection is given, and when an unreadable date is an error: the first of unknown, not active, not begun and ended that applies |
| ProducerRegistry.ResolvedIsAuthorized | producer_registry.py:192-230 | a resolved producer is the only listed entry of that id, active, within its validity, and scoped to route, type and subject |
| Submission.AcceptedWasSigned | authenticated_submission.py:217-224 | an accepted envelope agrees on all signed fields with one its registered key signed, whatever else it carries, or a digest collision is given |
| Submission.AcceptedFieldsWereSigned | authenticated_submission.py:38-54 | the same by name: an accepted envelope and one its registered key signed both hold, with one value, each of the fifteen fields written out, or their signed views collide |
| Submission.ChangedFieldNeedsSignature | authenticated_submission.py:147-156 | an envelope changed in any one of the fifteen is accepted only if the key signed an envelope with the changed value too, or the views collide |
| Submission.ChangedFieldIsRefused | authenticated_submission.py:217-224 | when only one envelope was ever signed, no change of any of its fifteen fields is accepted without a collision |
| Submission.SignedFieldsPresentIff | authenticated_submission.py:152-154 | having the signed fields is having each of the fifteen |
| Submission.SignedVerifies | authenticated_submission.py:147-163 | an envelope signed with the key the registry holds for its producer never fails the signature check |
| Submission.VerifiedIff | authenticated_submission.py:189-224 | an envelope passes verification if and only if it is complete for the pinned registry, in scope, signed by the registered key, and in the window |
| Submission.VerifiedFacts | authenticated_submission.py:189-244 | a verified envelope has every signed field, a registered producer, and a timestamp within one skew of the verifier clock |
| SubmissionApi.Api.SubmitAuthenticatedEvidence | authenticated_submission_api.py:130-165 | the route claims the nonce before it appends, and a line is written exactly when the answer is acceptance |
| SubmissionApi.DeclaredIff | authenticated_submission_api.py:80-96 | the request model admits exactly the fifteen fields and the signature, texts all of them, with null allowed for the source evidence only |
| SubmissionApi.LineSays | authenticated_submission_api.py:153-158 | the appended line has every field as it came, `authenticated_claim` as its provenance, the registry digest, and nothing else |
| SubmissionApi.AuditSays | authenticated_submission.py:235-244 | the nonce row keeps the request id, route, subject and hexadecimal digest of the envelope that claimed it |
| SubmissionApi.AnsweredIff | authenticated_submission_api.py:129-151 | how every request is answered: 401 for another route, 503 without a registry, 500 exactly for an unreadable validity date or an expiry out of range; and nothing is written unless it is accepted or the process dies after the claim |
| SubmissionApi.StepIsTask | authenticated_submission_api.py:130-165 | a call does to the nonce table what its event does, and writes its line exactly when its event committed a claim and the process lives |
| SubmissionApi.LoadedIsIndexed | producer_registry.py:145-182 | a registry that loads is indexed by the ids of its own entries, which is what the ledger theorem asks of it |
| SubmissionApi.LedgerHoldsEachSubmissionOnce | authenticated_submission_api.py:144-158 | over every run of submissions, cleanups and crashes between claim and append the submissions ledger never holds a producer, nonce and instant twice, while no ledger clock between two requests for one submission is more than three windows, plus the offset of the zone it was first written in, ahead of the later verifier; the offset is zero for `Z`, `+00:00` and no zone |
| AcceptedSubmission.ReachesLedgerIff | authenticated_submission_api.py:130-146 | a request reaches the nonce ledger if and only if it is for this route, complete, in scope, signed and in the window, with an expiry Python can hold |
| AcceptedSubmission.LineWrittenIff | authenticated_submission_api.py:130-165 | over any history from empty ledgers a call writes its line if and only if it is so verifiable and fresh, the ledger answers and the process lives |
| AcceptedSubmission.FreshSampleIsWritten | authenticated_submission_api.py:130-165 | a concrete signed envelope, in any zone, is accepted and written |
| AcceptedSubmission.InterleavedSampleIsWritten | replay_ledger.py:186-226 | the same through every step of the claim protocol, so the interleavings the theorems speak of exist |
| AcceptedSubmission.FarZoneIsWrittenTwice | replay_ledger.py:184-196 | the same envelope, sent again in its window once the clock is past the local time its expiry shows, is written twice although every clock agrees |
| AcceptedSubmission.WestTexts | replay_ledger.py:182-196 | the three texts of the concrete case as written: the timestamp, its expiry twenty minutes later, and the clock |
| AcceptedSubmission.MidnightWestIsWrittenTwice | replay_ledger.py:184-196 | with the default window the envelope stamped 2026-01-01T00:00:00-12:00 is written twice, at noon UTC and one second later |
| JsonText.LoadsInvertsDumps | action_commitment_store.py:106-127 | reading a printed document gives the same document, escapes, signs and member order included |
| JsonText.PlainTextIsVerbatim | action_commitment_store.py:89-91 | a text without quotes, backslashes and control characters is printed as it is, between quotes |
| JsonText.ShortEscapes | action_commitment_store.py:89-91 | the spelling of the seven characters with a short escape |
| JsonText.LongEscapes | action_commitment_store.py:89-91 | every other control character is `\u00` and two lower-case digits |
| JsonText.EscapeConcat | action_commitment_store.py:89-91 | and a text is printed character by character |
| JsonText.ArrayText | action_commitment_store.py:89-91 | an array is its items between brackets, joined by bare commas |
| JsonText.ObjectText | action_commitment_store.py:89-91 | an object is its quoted keys, bare colons and values between braces, joined by bare commas |
| JsonText.ScalarTexts | action_commitment_store.py:89-91 | the three constants, and integers in decimal without leading zeros, with a minus below zero only |
| JsonText.EscapesRead | action_commitment_store.py:119-127 | what the reader makes of each short escape, the solidus included |
| CanonicalJson.CanonicalOfDoc | action_commitment_store.py:84-91 | the canonical bytes of a document depend on its value only, so key order never matters |
| CanonicalJson.CanonicalOfObject | action_commitment_store.py:84-91 | the canonical bytes of an object are the UTF-8 of its members, in whatever list of its keys ascends, without spaces |
| CanonicalJson.CanonicalOfArray | action_commitment_store.py:84-91 | those of an array are the UTF-8 of its items in their own order |
| CanonicalJson.CanonicalOfScalar | action_commitment_store.py:84-91 | those of anything else are the UTF-8 of its printed text |
| CanonicalJson.RepeatedKeys | action_commitment_store.py:119-127 | an object read with a repeated key holds it once, with its last value |
| Text.LessIff | action_commitment_store.py:89-91 | keys ascend by code points: a proper prefix first, then the smaller character at the first difference |
| CanonicalJson.CanonicalInjective | deterministic_evaluator.py:102-104 | two values have the same canonical bytes if and only if they are equal, so `_deep_equal` decides equality |
| CanonicalJson.CanonicalDecidesEquality | action_commitment_store.py:84-91 | the same for documents with their own key orders: equal bytes if and only if equal as values |
| Utf8.EncodeInjective | action_commitment_store.py:89-91 | different texts have different UTF-8 bytes |
| Utf8.CharBytes | action_commitment_store.py:89-91 | how many bytes a character takes, the mark of each, and the bits they carry (section 3 of RFC 3629) |
| Utf8.EncodeConcat | action_commitment_store.py:89-91 | a text is encoded character by character |
| Jsonl.JsonlFile.Append | action_commitment_store.py:106-116 | appending keeps the file text that of the records written, in order |
| Jsonl.JsonlFile.Read | action_commitment_store.py:119-127 | the loop reads exactly the lines of the text, and fails when one of them does |
| Jsonl.SplitAtBreak | action_commitment_store.py:123-123 | a line ends at every line break, a carriage return with a line feed is one, and the last line needs none |
| Jsonl.StripIs | action_commitment_store.py:124-124 | stripping takes white space off both ends and leaves none there |
| Jsonl.BlankLineIff | action_commitment_store.py:122-127 | blank lines, and only those, are skipped |
| Jsonl.CleanTextIff | action_commitment_store.py:113-123 | the characters that `splitlines` breaks at and the printer leaves alone are U+0085, U+2028 and U+2029 |
| Jsonl.LedgerRoundTrip | action_commitment_store.py:106-127 | reading a file of any appends returns exactly those records in order if and only if no string in them holds U+0085, U+2028 or U+2029, and fails outright otherwise |
| Jsonl.BrokenLineFails | attest_service.py:276-297 | a record with such a string makes every read of the ledger fail, whatever follows it |
| Jsonl.PrefixDoesNotLoad | action_commitment_store.py:119-127 | a record cut short anywhere never loads as a value |
| Jsonl.SeparatorBreaksLedger | attest_service.py:276-297 | a ledger that starts with the one-member record of U+2028 never reads, whatever was appended after it |
| WriteOnce.FileReadable | action_commitment_store.py:106-127 | a ledger file reads back exactly when the values in it are readable, whatever order their keys were written in |
| WriteOnce.Ledger.Get | action_commitment_store.py:269-280 | the scan finds the latest record under a key of the right form, and fails on an unreadable ledger |
| WriteOnce.Ledger.Store | action_commitment_store.py:283-307 | the ledger and the answer after a store: one record more when stored, otherwise unchanged |
| WriteOnce.StoreAgain | action_commitment_store.py:297-306 | against a stored record an equal one is accepted without writing and any other one conflicts |
| WriteOnce.WritesIff | deterministic_evaluation_store.py:176-202 | a store writes exactly when the record is valid, the ledger readable and the key new |
| WriteOnce.OutcomeIff | action_commitment_store.py:283-307 | how any store call ends: refused for its shape, for an unreadable ledger, for a different record of its key, or found again |
| WriteOnce.StoreKeepsOnePerKey | sar402_recording_store.py:170-195 | a store keeps at most one record per key and only ever appends |
| WriteOnce.LatestOfStored | deterministic_evaluation_store.py:165-173 | in such a ledger the scan finds every stored record under its key |
| WriteOnce.WriteOnceRun | action_commitment_store.py:269-307 | over every run of stores there is one record per key, nothing is lost, and what a key once found it finds for good |
| Crypto.DigestBinds | action_commitment_store.py:94-95 | values with equal digests are equal, or their canonical bytes are a collision |
| Crypto.DigestText | action_commitment_store.py:94-95 | a digest is `sha256:` and the hexadecimal digits of the hash of the canonical bytes |
| Crypto.HexText | action_commitment_store.py:94-95 | two lower-case digits a byte, the high half first |
| JsonValue.Sha256TextIff | action_commitment_store.py:60-99 | a text is taken for a digest if and only if it is `sha256:` and 64 lower-case hexadecimal digits, with at most a newline after them |
| Commitment.StoreLawful | action_commitment_store.py:134-245 | the commitment store keys its records as the write-once theorems ask |
| Commitment.ValidIff | action_commitment_store.py:134-245 | a record is valid, under this ref, if and only if it has the two constants, a request commitment and an action commitment with every governed field and the chain of the three digests from body to ref |
| Commitment.DigestBinding | action_commitment_store.py:134-245 | valid records with one action_ref agree on the action commitment, the request commitment and the request body, or a collision is given |
| Commitment.SpecIsBound | action_commitment_store.py:248-262 | so the conditional-release profile, and the acceptance spec in it, is fixed by the action_ref |
| Commitment.ConflictIsUngoverned | action_commitment_store.py:283-304 | without a collision a conflict always shows a top-level field outside the governed ones in which the records differ |
| Evaluator.Resolve | deterministic_evaluator.py:71-94 | the dot-path loop computes the path function for every output and every path value |
| Evaluator.PathOfKeys | deterministic_evaluator.py:71-94 | on `$.` and joined non-empty, dot-free keys that function is recursive lookup |
| Evaluator.PathMeaning | deterministic_evaluator.py:71-94 | `$` is the whole output, and a path of another shape or with an empty key leads nowhere |
| Evaluator.EqualsMeansEqual | deterministic_evaluator.py:119-170 | an equality check is satisfied exactly when the path leads to the expected value, and unevaluable exactly when it leads nowhere |
| Evaluator.FieldPresentIff | deterministic_evaluator.py:131-142 | `field_present` is satisfied if and only if its text path leads somewhere, unsatisfied if it leads nowhere, and open only without one |
| Evaluator.EqualityIff | deterministic_evaluator.py:144-247 | each of the three equality kinds is satisfied if and only if its path leads to the expected value, and open if and only if it leads nowhere |
| Evaluator.ThresholdIff | deterministic_evaluator.py:162-203 | `numeric_threshold`: when it is open, and otherwise satisfied if and only if the value is a number that stands in the relation its operator names |
| Evaluator.HashIff | deterministic_evaluator.py:205-229 | `hash_equals`: open without a target or a digest to compare with, and otherwise satisfied if and only if that digest is the target's |
| Evaluator.SchemaIsOpen | deterministic_evaluator.py:249-269 | `json_schema` and every unknown kind are always open |
| Evaluator.PresentRecords | deterministic_evaluator.py:131-142 | what `field_present` records: the value it found, or null and the path that leads nowhere |
| Evaluator.EqualityRecords | deterministic_evaluator.py:144-247 | what the equality kinds record: both values, or the path that leads nowhere |
| Evaluator.ThresholdRecords | deterministic_evaluator.py:173-203 | the same for thresholds, with a reason of its own for a value that is no number |
| Evaluator.HashRecords | deterministic_evaluator.py:223-229 | the digest that was computed and the one that was committed |
| Evaluator.HashPinsTarget | deterministic_evaluator.py:119-269 | two outputs that satisfy one hash check hold equal values at its target, or the values collide |
| Evaluator.ThresholdsMoveOneWay | deterministic_evaluator.py:119-269 | raising the observed value never turns a satisfied `>=` or `>` check unsatisfied, lowering it never a satisfied `<=` or `<` one, and the threshold and its neighbours tell the five operators apart |
| Evaluator.SchemaNeverPasses | deterministic_evaluator.py:119-269 | a spec with a `json_schema` check never passes |
| Evaluator.ValidateSpec | deterministic_evaluator.py:272-307 | the validation loop reports the first fault of a spec, or none |
| Evaluator.SpecAcceptedIff | deterministic_evaluator.py:272-307 | a spec is evaluated if and only if it is an object with a list of checks, of no other evaluator type, every check an object of one of the seven kinds with a known failure behaviour and pinned external references |
| Evaluator.EvaluateAcceptanceSpec | deterministic_evaluator.py:310-369 | the loop with its two flags returns the worst verdict of the checks and their details in order |
| Evaluator.WorstOfConcat | deterministic_evaluator.py:310-354 | the verdict of concatenated checks is the worse of the two verdicts, for PASS < INDETERMINATE < FAIL |
| Evaluator.VerdictMeans | deterministic_evaluator.py:310-354 | FAIL is some failing check, and PASS is every check satisfied |
| Evaluator.VerdictByStatus | deterministic_evaluator.py:328-352 | the same by statuses: FAIL is an unsatisfied check whose failure behaviour is not INDETERMINATE, PASS is every check satisfied, and there is no timeout |
| Evaluator.OrderIndependent | deterministic_evaluator.py:310-354 | the verdict is the same for every order of the checks |
| Evaluator.DeriveIntent | deterministic_evaluator.py:372-404 | the dictionary the loop fills answers as the policy read key by key, later keys first |
| Evaluator.IntentIff | deterministic_evaluator.py:372-404 | for each verdict and any policy exactly when the intent is to release, to withhold or manual review, from the verdicts the policy names |
| Evaluator.IntentWithoutPolicy | deterministic_evaluator.py:364-387 | without a policy PASS releases, FAIL withholds and the rest is reviewed by hand |
| Evaluator.TimeoutIntent | deterministic_evaluator.py:389-393 | a timeout takes the policy's own label, or manual review |
| EvaluationStore.BuiltIsValid | deterministic_evaluation_store.py:105-157 | a record the route builds always passes the store's shape check, under its own ref |
| EvaluationStore.ValidIff | deterministic_evaluation_store.py:105-157 | a record is stored, under this ref, if and only if it has the two constants, one of the four results, a list of checks, an intent, no empty reason code and no signature or key |
| EvaluationStore.RecordSays | attest_service.py:1468-1479 | the remaining members of a built record, one entry for each check in order |
| EvaluationStore.DetailSays | deterministic_evaluator.py:112-269 | how a check's status is written, and that what it did not observe, expect or need a reason for is left out |
| EvaluationStore.StoreLawful | deterministic_evaluation_store.py:105-157 | the evaluation store keys its records as the write-once theorems ask |
| Receipts.SignedVerifies | continuity_evaluation_receipts.py:384-464 | a signed receipt verifies under the matching public key and gives back the core that was signed |
| Receipts.VerifiedIff | continuity_evaluation_receipts.py:410-464 | a receipt verifies under a key, to this core, if and only if its signature block names the algorithm, its own evaluator and that key, the core is the rest of it, and the signature verifies over the core's canonical bytes |
| Receipts.CoreBuiltIff | continuity_evaluation_receipts.py:323-369 | which inputs make a core: a digest, one of the four states, an agent identity, a policy, a time, and no empty reason |
| Receipts.ConfigIff | continuity_evaluation_receipts.py:275-313 | which configuration an environment gives and when it gives one: the two defaults for what is unset, a key, and a pin that matches it |
| Receipts.AgentIdIff | continuity_evaluation_receipts.py:81-81 | an identity is `agent:` and labels joined by colons, the first of small letters and digits |
| Receipts.HyphenInFirstLabel | continuity_evaluation_receipts.py:89-94 | no text with a hyphen before its second colon is an identity |
| Receipts.DefaultIsAgentId | continuity_evaluation_receipts.py:89-95 | and the default is one |
| Receipts.VerifiedWasSigned | continuity_evaluation_receipts.py:410-464 | a receipt that verifies carries, outside its signature, exactly a core its key signed, and names its signer |
| Receipts.StoreLawful | continuity_evaluation_receipts.py:482-507 | the receipt store keys its records as the write-once theorems ask |
| PathC.PathCService.PostActionCommitment | attest_service.py:1300-1330 | the three ledgers and the answer after a commitment is posted |
| PathC.PathCService.PostEvaluateDeterministic | attest_service.py:1397-1503 | the same for an evaluation, with every early answer, boundary case and crash |
| PathC.PathCService.PostContinuityReceipt | attest_service.py:1538-1630 | the same for a receipt, with the lookup of an earlier receipt before the configuration is read |
| PathC.HandleKeeps | attest_service.py:1300-1630 | every route keeps the three ledgers tied together and only appends |
| PathC.RunKeeps | attest_service.py:1300-1630 | so does every run of requests, from any state that has the invariant |
| PathC.Reachable | attest_service.py:1397-1630 | in every reachable state: one record per ref and ledger, every evaluation follows from a stored commitment, every receipt attests a stored evaluation and verifies under its embedded key |
| PathC.RecordedVerdict | attest_service.py:1424-1490 | an evaluation's recorded result, checks and reason code are those of evaluating its commitment's own spec on the recorded output |
| PathC.RecordedResultIff | attest_service.py:1435-1462 | in terms of the commitment's own checks, exactly when a stored evaluation says PASS, FAIL or INDETERMINATE, and which reason code it carries |
| PathC.RecordedChecks | attest_service.py:1461-1479 | a stored evaluation carries its commitment's own spec id, and under a valid spec one entry for each check in the spec's order, and none otherwise |
| PathC.RecordedIntentIff | attest_service.py:1464-1476 | exactly when a stored evaluation says `should release`, `should withhold` or `manual_review`, from its result and the members of the committed policy |
| PathC.FailureIsNotReleased | attest_service.py:1464-1476 | a recorded FAIL says `should release` only when the committed policy names FAIL as a verdict to release on |
| PathC.IssuedReceiptSays | attest_service.py:1585-1630 | a written receipt carries the configured identity and policy, the clock, the evaluation's own result and reason, and a signature block of that identity over the rest |
| PathC.BoundaryIntentIff | attest_service.py:1415-1466 | exactly when a boundary case is recorded as `manual_review`: no policy, a policy that says so, or one that names no other outcome |
| PathC.UnreadableRefuses | attest_service.py:1300-1503 | on a commitment ledger that does not read back every commit and evaluate request is refused and writes nothing |
| PathC.UnreadableForGood | attest_service.py:1300-1630 | and over every further run neither the commitment nor the evaluation ledger changes again |
| PathC.UnreadableEvaluationsRefuse | attest_service.py:1397-1630 | on an evaluation ledger that does not read back every evaluate and receipt request is refused and writes nothing |
| PathC.UnreadableEvaluationsForGood | attest_service.py:1300-1630 | and over every further run no evaluation and no receipt is added |
| PathC.EvaluateAgain | attest_service.py:1424-1490 | evaluating a ref again changes no ledger: an equal output returns the stored record, an unequal one conflicts |
| PathC.RetriesAreStable | attest_service.py:1424-1490 | the same at any later time, after any further requests |
| PathC.IssueAgain | attest_service.py:1565-1583 | issuing a receipt again returns the first one whatever the clock and configuration, and changes no ledger |
| PathC.ReissueIsStable | attest_service.py:1565-1583 | the same at any later time, after any further requests |
| HonestPath.HonestRecordIsValid | action_commitment_store.py:134-245 | for every request body and terms the record computed with its digests passes the check, under the digest it ends in |
| HonestPath.CommitWritesIff | attest_service.py:1300-1330 | a commitment is written exactly when it is valid, the ledger readable and its ref new |
| HonestPath.EvaluateWritesIff | attest_service.py:1424-1490 | an evaluation is written exactly when the ref is committed and not evaluated, both ledgers are readable, and the committed spec and policy do not crash the evaluator |
| HonestPath.IssueWritesIff | attest_service.py:1565-1630 | a receipt is written exactly when the ref is evaluated and has none, both ledgers are readable, the configuration loads and the clock text is not blank; self-verification never stands in the way |
| HonestPath.CommitAnswers | attest_service.py:1300-1330 | in every state with the invariant, exactly when a commit is malformed, found again, in conflict or a crash |
| HonestPath.EvaluateRefusals | attest_service.py:1420-1426 | exactly when an evaluate request is answered 422, 404 or 500 |
| HonestPath.IssueRefusals | attest_service.py:1562-1590 | exactly when a receipt request is answered 404 or 503, and 422 for a malformed ref |
| HonestPath.ValidRecordIsServed | attest_service.py:1300-1630 | from any state with the invariant, committing, evaluating and issuing for a valid record of a new ref all write, and end in a receipt that attests that output under that commitment |
| HonestPath.HonestClientIsServed | attest_service.py:1300-1630 | and so for the record any client computes from a request body |
| HonestPath.HonestRecordReadsBackIff | action_commitment_store.py:106-127 | under clean terms a client's record reads back exactly when its request body holds no unescaped line end |
| HonestPath.UncleanBodyStopsTheService | attest_service.py:1300-1503 | wherever its ref is new the record of any other body is accepted, and after it nothing is committed or evaluated over any run |
| HonestPath.SeparatorStopsTheService | attest_service.py:1300-1503 | such a run from the empty ledgers: one record whose body holds U+2028, and no request after it gets through |
| HonestPath.UncleanOutputStopsEvaluation | attest_service.py:1397-1630 | an output with such a line end is accepted for any committed, unevaluated ref, and after it nothing is evaluated and no receipt issued over any run, for any ref |
| HonestPath.SeparatorStopsEvaluation | attest_service.py:1397-1630 | such a run from the empty ledgers: a plain commitment, one output that holds U+2028, and any requests after it |
| HonestPath.InvalidSpecCanRelease | attest_service.py:1415-1466 | wherever it is new a concrete valid record can be committed, under which evaluating any output writes INVALID_ACCEPTANCE_SPEC with the intent `should release`, against the documentation |
| EvidenceGraph.LoadIndex | evidence_graph_extractor.py:57-67 | the loop builds the latest-by-ref index of a ledger |
| EvidenceGraph.IndexedIff | evidence_graph_extractor.py:57-67 | the index holds under a ref exactly the last record that carries it |
| EvidenceGraph.IndexIsScan | evidence_graph_extractor.py:57-67 | the index agrees, for every ref, with the store's own linear scan |
| EvidenceGraph.BuildGraph | evidence_graph_extractor.py:164-241 | the loop computes the graph of the refs, nodes and edges sorted |
| EvidenceGraph.EdgesIff | evidence_graph_extractor.py:192-231 | an edge is returned if and only if it is one of the five relations of a selected ref, of that kind and in that direction: references, evaluates, has_reason_code, attests_evaluation, signed_by |
| EvidenceGraph.NodesIff | evidence_graph_extractor.py:106-231 | a node is returned if and only if it is an artifact of a selected ref with what its latest record says, or a value one of them names |
| EvidenceGraph.StoredReasonsAreStrings | deterministic_evaluation_store.py:105-157 | a ledger the evaluation store wrote has string reason codes only, which the graph theorems ask |
| EvidenceGraph.FaithfulById | evidence_graph_extractor.py:93-160 | two nodes built from one index under the same id are the same node, across all node types |
| EvidenceGraph.NoEdgeDangles | evidence_graph_extractor.py:164-241 | both ends of every returned edge are ids of returned nodes |
| EvidenceGraph.NodeIdsAscend | evidence_graph_extractor.py:164-241 | node ids are unique and in order |
| EvidenceGraph.OrderDoesNotMatter | evidence_graph_extractor.py:164-241 | the output is the same for every permutation of the refs |
| EvidenceGraph.EdgesStrictlyAscend | evidence_graph_extractor.py:164-241 | for a selection without repeats the returned edges are unique and in order, so the sets of nodes and edges fix the output |
| EvidenceGraph.UnionOfGraphs | evidence_graph_extractor.py:164-241 | for any list naming the refs of two selections, overlapping or not, the returned nodes and edges are those of the two graphs |
| RecordingWrapper.OwnBoundaryOk | sar402_recording_wrapper.py:153-188 | the authority block the builder writes always passes the boundary test of the same receipt |
| RecordingWrapper.TestnetIff | sar402_recording_wrapper.py:132-139 | only an environment that reads as one of three words is not a testnet, and exactly one that is no text is an exception |
| RecordingWrapper.DisclaimersAre | sar402_recording_wrapper.py:100-150 | the five properties always disclaimed, and mainnet settlement exactly for a testnet |
| RecordingWrapper.BoundaryIff | sar402_recording_wrapper.py:163-188 | an authority block passes if and only if it claims no authority, names what it attests to and its source, and drops no required disclaimer |
| RecordingWrapper.InnerIdIff | sar402_recording_wrapper.py:191-217 | which id and digest are adopted from the inner receipt, and that two that differ are refused |
| RecordingWrapper.BuildsIff | sar402_recording_wrapper.py:260-272 | when a wrapper is built |
| RecordingWrapper.BuiltSays | sar402_recording_wrapper.py:285-301 | a built wrapper has each of the caller's choices under its own name, and the receipt as it came |
| RecordingWrapper.VerifiesIff | sar402_recording_wrapper.py:345-390 | a wrapper verifies if and only if it has the four constants, a legal context, its key and algorithm in the signature, the inner receipt's own id and digest, a passing authority block, and a signature over all but that signature |
| RecordingWrapper.BuiltVerifies | sar402_recording_wrapper.py:233-390 | every built wrapper verifies under the matching key |
| RecordingWrapper.VerifiedWasBuilt | sar402_recording_wrapper.py:317-390 | a wrapper that verifies agrees with one the signer built on every field outside `recording_signature` |
| RecordingWrapper.BuiltIsStorable | sar402_recording_store.py:108-149 | a built wrapper passes the store's shape check, under its inner receipt's id |
| RecordingWrapper.StorableIff | sar402_recording_store.py:108-149 | which wrappers the store takes, and under which key |
| RecordingWrapper.StoreLawful | sar402_recording_store.py:108-149 | the wrapper store keys its records as the write-once theorems ask |
| AgentRegistry.AgentService.FindAgent | attest_service.py:340-345 | the scan returns the latest line of an agent |
| AgentRegistry.AgentService.FindActivation | attest_service.py:340-345 | the scan returns the latest line of an activation |
| AgentRegistry.LatestAgentIs | attest_service.py:340-345 | the latest line of an agent is the one that no line of it follows, and there is none without a line |
| AgentRegistry.LatestActivationIs | attest_service.py:340-345 | the same for activations |
| AgentRegistry.AgentService.RegisterAgent | attest_service.py:1660-1678 | the ledgers after a registration, which keeps what is known and starts at `registered` |
| AgentRegistry.AgentService.HistoricalImportAgent | attest_service.py:1691-1768 | the ledgers after an import, refused for a malformed or known id |
| AgentRegistry.AgentService.RecordFailedActivation | attest_service.py:841-902 | the ledgers after a failed activation: one activation line, one agent line |
| AgentRegistry.AgentService.ActivateAgent | attest_service.py:1779-2062 | the ledgers after an activation, in every upstream case |
| AgentRegistry.AgentService.RecordContinuityPair | attest_service.py:2065-2187 | the ledgers after a continuity pair, with the earlier activation it inherits from |
| AgentRegistry.RegistrationOutcome | attest_service.py:1660-1678 | a registration that is not refused adds one line: a founding one, or the known one again |
| AgentRegistry.ImportOutcome | attest_service.py:1691-1768 | an import adds an owner-less chained agent and its activation for a well-formed unknown id, or nothing |
| AgentRegistry.ActivationOutcome | attest_service.py:1779-2062 | which agent and activation an activation of an owned agent leaves, by the upstream's answer |
| AgentRegistry.ContinuityOutcome | attest_service.py:2065-2187 | which ones a continuity pair leaves, and when it leaves none |
| AgentRegistry.WritesKeepIdentity | attest_service.py:459-495 | whatever prefixes it read, a request that saw a line of its agent writes lines of that owner and origin only, and one that saw none writes a founding line |
| AgentRegistry.OwnersAreFounders | attest_service.py:1660-2187 | in every interleaving each agent line has the owner and origin of a founding line of that agent on the ledger |
| AgentRegistry.IdentityNeverChanges | attest_service.py:1660-2187 | over every run of whole requests an agent's owner and origin never change once a line of it exists |
| AgentRegistry.RegistrationRefusedIff | attest_service.py:1660-1666 | a registration leaves both ledgers as they are if and only if the agent is known under another owner or none |
| AgentRegistry.RacingFounders | attest_service.py:1660-1678 | an interleaving of two registrations of an unknown agent after which each owner has a line |
| AgentRegistry.WritesSound | attest_service.py:1779-2149 | whatever prefixes of the ledgers a request read, the lines it appends put a passed activation before every native agent line at verified or beyond |
| AgentRegistry.VerifiedAgentsPassed | attest_service.py:1660-2187 | in every interleaving of all writers, line by line and with stale reads, a native agent line at verified or beyond has a line with a PASS verdict in the activation ledger |
| AgentRegistry.ExplorerMetrics | attest_service.py:2347-2384 | the loops return the numbers of latest activation records, of the successful and of the failed ones, and their ratio |
| AgentRegistry.LatestByIdIff | attest_service.py:2347-2384 | the record counted for an id is the last line with that id that has a trusted provenance, or any when anonymous ones are included |
| AgentRegistry.OutcomeIff | attest_service.py:2347-2384 | a counted record is a success at `verified` or beyond unless it is marked failed, and a failure exactly when it is |
| AgentRegistry.AttemptsAreAccountedFor | attest_service.py:2347-2384 | in every reachable state, under either provenance filter, successes and failures add up to attempts and the rate lies in [0, 1] |
| AgentRegistry.WholeRunReaches | attest_service.py:1660-2187 | a run of whole requests is one of the interleavings the safety theorems cover |
| AgentRegistry.MonotonicIff | README.md:66-70 | over a run of whole requests no agent's latest stage is ever lower at a later moment if and only if no request of the run is in one of the two families on the ledgers it finds |
| AgentRegistry.FreshLineLowersIff | README.md:66-70 | a line appended while the agent's latest line is still the one its request read lowers the stage exactly when the request is in one of the families |
| AgentRegistry.StaleReadLowers | attest_service.py:1660-1674 | an interleaving of registrations and one passing activation of a registered agent, in neither family, in which `chained` falls back to `registered` |
| AgentRegistry.StagesCanFall | README.md:66-70 | a run from the empty ledgers, registered, activated, activated again while the upstream is down, in which `chained` falls to `activation_failed` |
| AgentRegistry.ImportedAgentsAreFrozen | attest_service.py:1735-1752 | no request that sees an agent without an owner appends a line |
| RateLimiter.DemoRateLimiter.RateLimited | attest_service.py:73-83 | the stored list of the caller and the answer; other callers keep theirs |
| RateLimiter.StoredIsAccepted | attest_service.py:73-83 | the pruned list and the whole history of accepted calls agree from every cutoff not yet passed |
| RateLimiter.AtMostFivePerWindow | attest_service.py:68-83 | for a clock that never goes back every closed 60-second window holds at most five accepted calls of an IP |
| RateLimiter.RefusedIff | attest_service.py:73-83 | a call is refused exactly when five accepted calls of its IP lie in the 60 seconds up to it |
| RateLimiter.StoredAtMostFive | attest_service.py:73-83 | the stored list never exceeds five, whatever the clock does |

## Left out

- SHA-256, Ed25519, base64 and key parsing are function-valued parameters; what a lemma needs of them is a premise it names.
- Floats in JSON, surrogate code points, the interpreter's limit on the length of printed integers, and whitespace between JSON tokens when reading: the ledgers are written without the last, and the model prints and reads everything else exactly.
- How a timestamp text is read is a parameter; what it reads keeps its zone. The in-memory store compares instants, so zones do not matter to it.
- Concurrency of the write-once stores: check and append are separate calls in the code, one atomic step here. The agent ledgers and the submissions ledger are interleaved line by line.
- SQLite below lock, BEGIN IMMEDIATE, DELETE, INSERT, COMMIT, ROLLBACK, failure and crash: the write-ahead log, the busy timeout and file permissions.
- The agent and activation ledgers always read back here; in the code a string with U+0085, U+2028 or U+2029 makes reading them fail as well, and every later request that reads them crashes.
- The other counts of `explorer_metrics`, and the fields of agent and activation lines that no request reads back: display names, counterparties, metadata and chain ids.
- HTTP routing, environment loading, directories, nginx limits, and answers of other services, which are arbitrary values.
- Error messages: errors are told apart by kind only, and an envelope field that is not a string is rejected as one kind.
- Registries for historical verification, the selection filters and the command line of the graph extractor, and the GET routes and summaries: they only read.
- The chain, receipt, session and analytics ledgers, external provenance fields, `is_sar_pass` (a parameter `passes`), and `str.lower` outside ASCII.
- sar402_receipts.py, pay_url_summary.py, x402_live.py, chain_correlation.py, sar402_pathb_credential.py, demo generators and shell scripts: straight-line assembly, or calls into services whose code is not part of this model.
