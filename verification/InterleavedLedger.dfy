/**
 The submissions ledger under concurrency: every submission claims its nonce by the steps of ClaimProtocol, interleaved
 with all others, and a request that was told it won appends its line at any later moment, unless its process dies
 first.
*/
module InterleavedLedger {
  import opened Text
  import opened JsonValue
  import opened NonceLedger
  import opened ClaimProtocol
  import opened InterleavedReplay
  import opened SubmissionApi
  import Replay

  /** `owners` records which claimant wrote each line; `dead` are the claimants whose process has died. */
  datatype World = World(claims: ClaimProtocol.State, lines: seq<Json>, owners: seq<nat>, dead: set<nat>)

  datatype Step = Protocol(step: ClaimProtocol.Step) | Write(i: nat)

  /** Claimant `i` runs call `i`; every call here reaches an answering ledger, under a loaded registry. */
  predicate RunsCalls(c: Setup, svc: Service, calls: seq<Call>) {
    && AllValid(calls)
    && RunsEvents(c, EventsOf(svc, calls), svc.skew)
    && forall i :: 0 <= i < |calls| ==> IndexedById(calls[i])
  }

  predicate MayWrite(calls: seq<Call>, s: World, i: nat) {
    i < |calls| && calls[i].Submit? && calls[i].registry.Some?
      && Ended(s.claims, i, Won) && i !in s.owners && i !in s.dead
  }

  predicate Enabled(c: Setup, calls: seq<Call>, s: World, step: Step)
    requires ValidSetup(c) && |s.claims.pcs| == |c.tasks|
  {
    match step
    case Protocol(p) => ClaimProtocol.Enabled(c, s.claims, p)
    case Write(i) => MayWrite(calls, s, i)
  }

  function Apply(c: Setup, calls: seq<Call>, s: World, step: Step): World
    requires ValidSetup(c) && |s.claims.pcs| == |c.tasks| && Enabled(c, calls, s, step)
  {
    match step
    case Protocol(p) =>
      s.(claims := ClaimProtocol.Apply(c, s.claims, p),
         dead := s.dead + if p.Crash? then (set i | 0 <= i < |c.tasks| && c.process[i] == p.process) else {})
    case Write(i) =>
      s.(lines := s.lines + [LineOf(calls[i].envelope, calls[i].registry.value)], owners := s.owners + [i])
  }

  ghost predicate Reaches(c: Setup, calls: seq<Call>, s: World, steps: seq<Step>, s': World)
    requires ValidSetup(c)
    decreases |steps|
  {
    && |s.claims.pcs| == |c.tasks|
    && if |steps| == 0 then s' == s
       else Enabled(c, calls, s, steps[0]) && Reaches(c, calls, Apply(c, calls, s, steps[0]), steps[1..], s')
  }

  function Initial(c: Setup, t: Table): World {
    World(ClaimProtocol.Initial(c, t), [], [], {})
  }

  /** Each line is the line of a different winner. */
  predicate LinesOfWinners(calls: seq<Call>, s: World) {
    && |s.owners| == |s.lines|
    && (forall a, b :: 0 <= a < b < |s.owners| ==> s.owners[a] != s.owners[b])
    && forall a :: 0 <= a < |s.owners| ==>
         var i := s.owners[a];
         && Ended(s.claims, i, Won) && i < |calls| && calls[i].Submit? && calls[i].registry.Some?
         && s.lines[a] == LineOf(calls[i].envelope, calls[i].registry.value)
  }

  /** A claimant that has returned stays as it is. */
  lemma FinishedStays(c: Setup, s: ClaimProtocol.State, step: ClaimProtocol.Step, i: nat)
    requires ValidSetup(c) && |s.pcs| == |c.tasks| && ClaimProtocol.Enabled(c, s, step) && Ended(s, i, Won)
    ensures Ended(ClaimProtocol.Apply(c, s, step), i, Won)
  {
    hide Expire;
  }

  lemma StepKeepsLines(c: Setup, calls: seq<Call>, s: World, step: Step)
    requires ValidSetup(c) && |s.claims.pcs| == |c.tasks| && Enabled(c, calls, s, step) && LinesOfWinners(calls, s)
    ensures LinesOfWinners(calls, Apply(c, calls, s, step))
  {
    hide LineOf, ClaimProtocol.Apply, ClaimProtocol.Enabled, Ended;
    if step.Protocol? {
      forall a | 0 <= a < |s.owners| ensures Ended(ClaimProtocol.Apply(c, s.claims, step.step), s.owners[a], Won) {
        FinishedStays(c, s.claims, step.step, s.owners[a]);
      }
    }
  }

  /** Without the writes, the run is one of the protocol. */
  lemma {:induction false} RunOfClaims(c: Setup, calls: seq<Call>, s: World, steps: seq<Step>, s': World)
    returns (claims: seq<ClaimProtocol.Step>)
    requires ValidSetup(c) && Reaches(c, calls, s, steps, s') && LinesOfWinners(calls, s)
    ensures ClaimProtocol.Reaches(c, s.claims, claims, s'.claims) && LinesOfWinners(calls, s')
    decreases |steps|
  {
    claims := [];
    if |steps| > 0 {
      var next := Apply(c, calls, s, steps[0]);
      StepKeepsLines(c, calls, s, steps[0]);
      hide LinesOfWinners;
      claims := RunOfClaims(c, calls, next, steps[1..], s');
      if steps[0].Protocol? {
        var rest := claims;
        claims := [steps[0].step] + rest;
        assert claims[1..] == rest;
      }
    }
  }

  /**
   However claims, cleanups and later appends interleave, fail or die: when the submissions ledger holds a producer,
   nonce and instant twice, a delete committed after the first of the two claims, and no later than the second, read a
   clock more than three windows, and the offset of the first one's zone, past the second one's verifier.
  */
  lemma TwoLinesNeedLateClock(c: Setup, svc: Service, calls: seq<Call>, t: Table, steps: seq<Step>, s: World,
                              a: nat, b: nat)
    returns (m: nat, n: nat, k: nat)
    requires RunsCalls(c, svc, calls) && Reaches(c, calls, Initial(c, t), steps, s)
    requires a < b < |s.lines| && Identity(svc, s.lines[a]) == Identity(svc, s.lines[b])
    ensures |s.owners| == |s.lines| && LogInRange(c, s.claims.log) && m < k <= n < |s.claims.log|
    ensures var log, i, j := s.claims.log, s.owners[a], s.owners[b];
            (log[m] == i && log[n] == j) || (log[m] == j && log[n] == i)
    ensures FarAhead(c, svc, calls, s.claims.log, m, k, n)
  {
    assert ValidSetup(c);
    hide EventOf, LineOf, Replay.TaskOf, Identity, RunsEvents;
    var claims := RunOfClaims(c, calls, Initial(c, t), steps, s);
    hide Reaches;
    var i, j := s.owners[a], s.owners[b];
    OwnerIdentity(c, svc, calls, i);
    OwnerIdentity(c, svc, calls, j);
    m, n, k := ConcurrentReplaySafety(c, EventsOf(svc, calls), svc.skew, t, claims, s.claims, i, j);
  }

  /**
   At places `m` and `n` of the commit order one submission is claimed, and the delete at place `k` reads a clock more
   than three windows, and the offset of the zone at `m`, past the verifier at `n`.
  */
  predicate FarAhead(c: Setup, svc: Service, calls: seq<Call>, log: seq<nat>, m: nat, k: nat, n: nat)
    requires RunsCalls(c, svc, calls) && LogInRange(c, log) && m < |log| && k < |log| && n < |log|
  {
    var events := EventsOf(svc, calls);
    && Replay.SameSubmission(events[log[m]], events[log[n]]) && !events[log[k]].Rejected?
    && Replay.Reading(events[log[k]]) > events[log[n]].verifier + 3 * svc.skew + events[log[m]].stamp.offset
  }

  /** So with no such clock between two claims of one submission, it is written at most once. */
  lemma EachSubmissionOnce(c: Setup, svc: Service, calls: seq<Call>, t: Table, steps: seq<Step>, s: World,
                           a: nat, b: nat)
    requires RunsCalls(c, svc, calls) && Reaches(c, calls, Initial(c, t), steps, s) && LogInRange(c, s.claims.log)
    requires forall m, k, n :: 0 <= m < k <= n < |s.claims.log| ==> !FarAhead(c, svc, calls, s.claims.log, m, k, n)
    requires a < b < |s.lines|
    ensures Identity(svc, s.lines[a]) != Identity(svc, s.lines[b])
  {
    hide RunsCalls, Reaches, Identity, FarAhead;
    if Identity(svc, s.lines[a]) == Identity(svc, s.lines[b]) {
      var m, n, k := TwoLinesNeedLateClock(c, svc, calls, t, steps, s, a, b);
    }
  }

  lemma OwnerIdentity(c: Setup, svc: Service, calls: seq<Call>, i: nat)
    requires RunsCalls(c, svc, calls) && i < |calls| && calls[i].Submit? && calls[i].registry.Some?
    ensures EventOf(svc, calls[i]).Submission?
    ensures var event := EventOf(svc, calls[i]);
            Identity(svc, LineOf(calls[i].envelope, calls[i].registry.value))
            == (Str(event.key.0), Str(event.key.1), Some(event.stamp.utc))
  {
    hide LineOf, Identity;
    assert !c.tasks[i].Aborted?;
    SubmittedIsSubmission(svc, calls[i]);
    LineIdentity(svc, calls[i]);
  }

  lemma SubmittedIsSubmission(svc: Service, call: Call)
    requires ValidCall(call) && call.Submit?
    ensures EventOf(svc, call).Submission? || EventOf(svc, call).Rejected?
  {
  }

  /** A claimant alone on an empty table goes through all the steps, wins, and writes its line. */
  lemma AloneIsWritten(c: Setup, calls: seq<Call>) returns (steps: seq<Step>, s: World)
    requires ValidSetup(c) && |c.tasks| == 1 && c.tasks[0].Claim?
    requires |calls| == 1 && calls[0].Submit? && calls[0].registry.Some?
    ensures Reaches(c, calls, Initial(c, map[]), steps, s)
    ensures s.lines == [LineOf(calls[0].envelope, calls[0].registry.value)]
  {
    hide LineOf;
    var task, lock := c.tasks[0], map[c.store[0] := 0];
    var table := map[task.key := task.row];
    var w0 := ClaimProtocol.State(map[], map[], None, map[], [Waiting], []);
    var w1 := w0.(locks := lock, pcs := [Locked]);
    var w2 := w1.(writer := Some(0), pcs := [Begun]);
    var w3 := w2.(pcs := [Deleted]);
    var w4 := w3.(working := table, pcs := [Inserted]);
    var w5 := w4.(rows := table, writer := None, pcs := [Committed], log := [0]);
    var w6 := w5.(locks := map[], pcs := [Finished(Won)]);
    assert Expire(map[], task.now) == map[];
    assert ClaimProtocol.Initial(c, map[]) == w0;
    assert ClaimProtocol.Apply(c, w0, Acquire(0)) == w1;
    assert ClaimProtocol.Apply(c, w1, Begin(0)) == w2;
    assert ClaimProtocol.Apply(c, w2, Delete(0)) == w3;
    assert ClaimProtocol.Apply(c, w3, Insert(0)) == w4;
    assert ClaimProtocol.Apply(c, w4, Commit(0)) == w5;
    assert ClaimProtocol.Apply(c, w5, Return(0)) == w6;
    var a := World(w6, [], [], {});
    s := Apply(c, calls, a, Write(0));
    steps := StepBefore(c, calls, a, Write(0), [], s);
    steps := ProtocolBefore(c, calls, w5, Return(0), w6, steps, s);
    steps := ProtocolBefore(c, calls, w4, Commit(0), w5, steps, s);
    steps := ProtocolBefore(c, calls, w3, Insert(0), w4, steps, s);
    steps := ProtocolBefore(c, calls, w2, Delete(0), w3, steps, s);
    steps := ProtocolBefore(c, calls, w1, Begin(0), w2, steps, s);
    steps := ProtocolBefore(c, calls, w0, Acquire(0), w1, steps, s);
  }

  lemma StepBefore(c: Setup, calls: seq<Call>, s: World, step: Step, rest: seq<Step>, s': World)
    returns (steps: seq<Step>)
    requires ValidSetup(c) && |s.claims.pcs| == |c.tasks| && Enabled(c, calls, s, step)
    requires Reaches(c, calls, Apply(c, calls, s, step), rest, s')
    ensures Reaches(c, calls, s, steps, s')
  {
    steps := [step] + rest;
    assert steps[1..] == rest;
  }

  lemma ProtocolBefore(c: Setup, calls: seq<Call>, w: ClaimProtocol.State, step: ClaimProtocol.Step,
                       w': ClaimProtocol.State, rest: seq<Step>, s': World)
    returns (steps: seq<Step>)
    requires ValidSetup(c) && |w.pcs| == |c.tasks| && ClaimProtocol.Enabled(c, w, step) && !step.Crash?
    requires ClaimProtocol.Apply(c, w, step) == w' && Reaches(c, calls, World(w', [], [], {}), rest, s')
    ensures Reaches(c, calls, World(w, [], [], {}), steps, s')
  {
    hide ClaimProtocol.Apply, ClaimProtocol.Enabled, Reaches;
    var nobody: set<nat> := {};
    assert nobody + nobody == nobody;
    assert Apply(c, calls, World(w, [], [], nobody), Protocol(step)) == World(w', [], [], nobody);
    steps := StepBefore(c, calls, World(w, [], [], nobody), Protocol(step), rest, s');
  }
}
