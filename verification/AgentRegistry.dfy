/**
 The agent and activation ledgers of the attest service. Each request reads the ledgers, then appends its lines one at
 a time; requests run in parallel and may die between two lines. Stage safety and the conservation of the explorer
 metrics hold after every single append of every interleaving.
*/
module AgentRegistry {
  import opened Text
  import opened JsonValue

  datatype Stage = Registered | ActivationFailed | Activated | Verified | Chained | Continuous

  /** `STAGE_ORDER` */
  function Order(s: Stage): nat {
    match s
    case Registered => 0
    case ActivationFailed => 0
    case Activated => 1
    case Verified => 2
    case Chained => 3
    case Continuous => 4
  }

  predicate AtLeastVerified(s: Stage) {
    Order(s) >= Order(Verified)
  }

  datatype Origin = Native | HistoricalImport

  /** A registry line. Imported agents carry neither `owner_id` nor `counterparty`. */
  datatype Agent = Agent(
    id: string, origin: Origin, owner: Option<string>, stage: Stage, latestActivation: Option<string>, latestSar: Json)

  /** The `status` member of an activation line; a continuity pair on an unknown activation has none. */
  datatype Status = StatusFailed | StatusComplete | StatusChained | NoStatus

  datatype Activation = Activation(
    id: string, agentId: string, stage: Stage, status: Status, sarReceipt: Json, verdict: Json, trusted: bool)

  datatype Write = AgentLine(agent: Agent) | ActivationLine(activation: Activation)

  // ----- reading -----

  function LatestAgent(lines: seq<Agent>, id: string): Option<Agent> {
    if |lines| == 0 then None
    else if lines[|lines| - 1].id == id then Some(lines[|lines| - 1])
    else LatestAgent(lines[..|lines| - 1], id)
  }

  function LatestActivation(lines: seq<Activation>, id: string): Option<Activation> {
    if |lines| == 0 then None
    else if lines[|lines| - 1].id == id then Some(lines[|lines| - 1])
    else LatestActivation(lines[..|lines| - 1], id)
  }

  lemma {:induction false} LatestAgentIsLine(lines: seq<Agent>, id: string)
    ensures LatestAgent(lines, id).Some? ==>
              LatestAgent(lines, id).value in lines && LatestAgent(lines, id).value.id == id
  {
    if |lines| > 0 {
      LatestAgentIsLine(lines[..|lines| - 1], id);
    }
  }

  lemma {:induction false} LatestActivationIsLine(lines: seq<Activation>, id: string)
    ensures LatestActivation(lines, id).Some? ==>
              LatestActivation(lines, id).value in lines && LatestActivation(lines, id).value.id == id
  {
    if |lines| > 0 {
      LatestActivationIsLine(lines[..|lines| - 1], id);
    }
  }

  /** Latest means last: the line of an id that no line of that id follows. */
  lemma {:induction false} LatestAgentIs(lines: seq<Agent>, a: Agent, more: seq<Agent>)
    requires forall i :: 0 <= i < |more| ==> more[i].id != a.id
    ensures LatestAgent(lines + [a] + more, a.id) == Some(a)
    ensures LatestAgent(more, a.id) == None
    decreases |more|
  {
    if |more| == 0 {
      assert lines + [a] + more == lines + [a];
    } else {
      LatestAgentIs(lines, a, more[..|more| - 1]);
      var all := lines + [a] + more;
      assert all[..|all| - 1] == lines + [a] + more[..|more| - 1];
    }
  }

  lemma {:induction false} LatestActivationIs(lines: seq<Activation>, a: Activation, more: seq<Activation>)
    requires forall i :: 0 <= i < |more| ==> more[i].id != a.id
    ensures LatestActivation(lines + [a] + more, a.id) == Some(a)
    ensures LatestActivation(more, a.id) == None
    decreases |more|
  {
    if |more| == 0 {
      assert lines + [a] + more == lines + [a];
    } else {
      LatestActivationIs(lines, a, more[..|more| - 1]);
      var all := lines + [a] + more;
      assert all[..|all| - 1] == lines + [a] + more[..|more| - 1];
    }
  }

  // ----- requests -----

  /** What the continuity evaluator and the settlement witness answered to an activation. */
  datatype Upstream =
    | Down(sarReceipt: Json)   // an error on the way; the witness's receipt id if it got that far
    | Answered(continuityReceipt: Json, sarReceipt: Json, verdict: Json)

  datatype Request =
    | Register(id: string, owner: string)
    | Import(id: string, wellFormed: bool, activationId: string)
    | Activate(id: string, activationId: string, upstream: Upstream, trusted: bool)
    | Continue(id: string, continuityReceipt: Json, previous: Option<string>, trusted: bool)

  /** `registry_record`: a new line that inherits what it is not given. */
  function RegistryLine(existing: Option<Agent>, id: string, owner: string, stage: Stage, activation: Option<string>,
                        sar: Json): Agent
  {
    Agent(id,
          if existing.Some? then existing.value.origin else Native,
          Some(owner), stage,
          if activation.Some? then activation else if existing.Some? then existing.value.latestActivation else None,
          if !sar.Null? then sar else if existing.Some? then existing.value.latestSar else Null)
  }

  function RegisterWrites(agents: seq<Agent>, id: string, owner: string): seq<Write> {
    var existing := LatestAgent(agents, id);
    if existing.Some? && existing.value.owner != Some(owner) then []
    else
      [AgentLine(RegistryLine(existing, id, owner,
        if existing.Some? then existing.value.stage else Registered, None, Null))]
  }

  function ImportWrites(agents: seq<Agent>, id: string, wellFormed: bool, activationId: string): seq<Write> {
    if !wellFormed || LatestAgent(agents, id).Some? then []
    else
      [AgentLine(Agent(id, HistoricalImport, None, Chained, Some(activationId), Null)),
       ActivationLine(Activation(activationId, id, Chained, StatusChained, Null, Null, false))]
  }

  function FailedWrites(agent: Agent, owner: string, activationId: string, sar: Json, verdict: Json, trusted: bool)
    : seq<Write>
  {
    [ActivationLine(Activation(activationId, agent.id, ActivationFailed, StatusFailed, sar, verdict, trusted)),
     AgentLine(RegistryLine(Some(agent), agent.id, owner, ActivationFailed, Some(activationId), sar))]
  }

  /** `passes` is `is_sar_pass`. Receipt ids that are not strings crash the request before its first line. */
  function ActivateWrites(passes: Json -> bool, agents: seq<Agent>, id: string, activationId: string,
                          upstream: Upstream, trusted: bool): seq<Write>
  {
    match LatestAgent(agents, id)
    case None => []
    case Some(agent) =>
      if agent.owner.None? then [] // KeyError on agent["owner_id"]
      else
        match upstream
        case Down(sar) => FailedWrites(agent, agent.owner.value, activationId, sar, Null, trusted)
        case Answered(continuity, sar, verdict) =>
          if !passes(verdict) then FailedWrites(agent, agent.owner.value, activationId, sar, verdict, trusted)
          else if !continuity.Str? || !sar.Str? then []
          else
            [ActivationLine(Activation(activationId, id, Chained, StatusComplete, sar, verdict, trusted)),
             AgentLine(RegistryLine(Some(agent), id, agent.owner.value, Chained, Some(activationId), sar))]
  }

  function PairedActivation(agent: Agent, previous: Option<string>): Option<string> {
    if previous.Some? && previous.value != "" then previous else agent.latestActivation
  }

  /** The activation line a continuity pair adds: stage and agent anew, status and verdict inherited. */
  function PairLine(existing: Option<Activation>, activationId: string, agentId: string, sar: Json,
      trusted: bool): Activation {
    Activation(activationId, agentId, Continuous,
               if existing.Some? then existing.value.status else NoStatus, sar,
               if existing.Some? then existing.value.verdict else Null, trusted)
  }

  function ContinueWrites(agents: seq<Agent>, activations: seq<Activation>, id: string, continuity: Json,
                          previous: Option<string>, trusted: bool): seq<Write>
  {
    match LatestAgent(agents, id)
    case None => []
    case Some(agent) =>
      if !AtLeastVerified(agent.stage) || !continuity.Truthy() then []
      else
        var activationId := PairedActivation(agent, previous);
        var existing := if activationId.Some? then LatestActivation(activations, activationId.value) else None;
        var sar := if existing.Some? && existing.value.sarReceipt.Truthy() then existing.value.sarReceipt
            else agent.latestSar;
        if !continuity.Str? || !sar.NonEmptyStr() || agent.owner.None? then []
        else
          [AgentLine(RegistryLine(Some(agent), id, agent.owner.value, Continuous, activationId, sar))]
          + if activationId.Some? then
            [ActivationLine(PairLine(existing, activationId.value, id, sar, trusted))] else []
  }

  /** The lines a request appends, in order, given the ledgers it read. */
  function Writes(passes: Json -> bool, agents: seq<Agent>, activations: seq<Activation>, r: Request): seq<Write> {
    match r
    case Register(id, owner) => RegisterWrites(agents, id, owner)
    case Import(id, wellFormed, activationId) => ImportWrites(agents, id, wellFormed, activationId)
    case Activate(id, activationId, upstream, trusted) =>
      ActivateWrites(passes, agents, id, activationId, upstream, trusted)
    case Continue(id, continuity, previous, trusted) =>
      ContinueWrites(agents, activations, id, continuity, previous, trusted)
  }

  // ----- the service, one request at a time -----

  datatype Ledgers = Ledgers(agents: seq<Agent>, activations: seq<Activation>)

  function Append(l: Ledgers, w: Write): Ledgers {
    match w
    case AgentLine(a) => l.(agents := l.agents + [a])
    case ActivationLine(a) => l.(activations := l.activations + [a])
  }

  function AppendAll(l: Ledgers, ws: seq<Write>): Ledgers
    decreases |ws|
  {
    if |ws| == 0 then l else AppendAll(Append(l, ws[0]), ws[1..])
  }

  lemma AppendTwo(l: Ledgers, v: Write, w: Write)
    ensures AppendAll(l, [v, w]) == Append(Append(l, v), w)
  {
    assert [v, w][1..] == [w] && [w][1..] == [];
    assert AppendAll(Append(l, v), [w]) == AppendAll(Append(Append(l, v), w), []);
  }

  class AgentService {
    var agents: seq<Agent>
    var activations: seq<Activation>

    constructor ()
      ensures Abstract() == Ledgers([], [])
    {
      agents, activations := [], [];
    }

    function Abstract(): Ledgers
      reads this
    {
      Ledgers(agents, activations)
    }

    /** `latest_by` on the agent ledger */
    method FindAgent(id: string) returns (latest: Option<Agent>)
      ensures latest == LatestAgent(agents, id)
    {
      latest := None;
      var i := 0;
      while i < |agents|
        invariant 0 <= i <= |agents|
        invariant latest == LatestAgent(agents[..i], id)
      {
        assert agents[..i + 1][..i] == agents[..i];
        if agents[i].id == id {
          latest := Some(agents[i]);
        }
        i := i + 1;
      }
      assert agents[..i] == agents;
    }

    /** `latest_by` on the activation ledger */
    method FindActivation(id: string) returns (latest: Option<Activation>)
      ensures latest == LatestActivation(activations, id)
    {
      latest := None;
      var i := 0;
      while i < |activations|
        invariant 0 <= i <= |activations|
        invariant latest == LatestActivation(activations[..i], id)
      {
        assert activations[..i + 1][..i] == activations[..i];
        if activations[i].id == id {
          latest := Some(activations[i]);
        }
        i := i + 1;
      }
      assert activations[..i] == activations;
    }

    /** `register_agent` */
    method RegisterAgent(id: string, owner: string)
      modifies this
      ensures Abstract() == AppendAll(old(Abstract()), RegisterWrites(old(agents), id, owner))
    {
      var existing := FindAgent(id);
      if existing.Some? && existing.value.owner != Some(owner) {
        return;
      }
      var stage := if existing.Some? then existing.value.stage else Registered;
      agents := agents + [RegistryLine(existing, id, owner, stage, None, Null)];
    }

    /** `historical_import_agent` */
    method HistoricalImportAgent(id: string, wellFormed: bool, activationId: string)
      modifies this
      ensures Abstract() == AppendAll(old(Abstract()), ImportWrites(old(agents), id, wellFormed, activationId))
    {
      if !wellFormed {
        return;
      }
      var existing := FindAgent(id);
      if existing.Some? {
        return;
      }
      var agent := Agent(id, HistoricalImport, None, Chained, Some(activationId), Null);
      var activation := Activation(activationId, id, Chained, StatusChained, Null, Null, false);
      AppendTwo(Abstract(), AgentLine(agent), ActivationLine(activation));
      agents := agents + [agent];
      activations := activations + [activation];
    }

    /** `record_failed_activation` */
    method RecordFailedActivation(agent: Agent, owner: string, activationId: string,
        sar: Json, verdict: Json, trusted: bool)
      modifies this
      ensures Abstract() == AppendAll(old(Abstract()), FailedWrites(agent, owner, activationId, sar, verdict, trusted))
    {
      var activation := Activation(activationId, agent.id, ActivationFailed, StatusFailed, sar, verdict, trusted);
      var failed := RegistryLine(Some(agent), agent.id, owner, ActivationFailed, Some(activationId), sar);
      AppendTwo(Abstract(), ActivationLine(activation), AgentLine(failed));
      activations := activations + [activation];
      agents := agents + [failed];
    }

    /** `activate_agent` */
    method ActivateAgent(passes: Json -> bool, id: string, activationId: string, upstream: Upstream, trusted: bool)
      modifies this
      ensures Abstract()
              == AppendAll(old(Abstract()), ActivateWrites(passes, old(agents), id, activationId, upstream, trusted))
    {
      var found := FindAgent(id);
      if found.None? || found.value.owner.None? {
        return;
      }
      var agent := found.value;
      var owner := agent.owner.value;
      match upstream
      case Down(sar) =>
        RecordFailedActivation(agent, owner, activationId, sar, Null, trusted);
      case Answered(continuity, sar, verdict) =>
        if !passes(verdict) {
          RecordFailedActivation(agent, owner, activationId, sar, verdict, trusted);
          return;
        }
        if !continuity.Str? || !sar.Str? {
          return;
        }
        var activation := Activation(activationId, id, Chained, StatusComplete, sar, verdict, trusted);
        var chained := RegistryLine(Some(agent), id, owner, Chained, Some(activationId), sar);
        AppendTwo(Abstract(), ActivationLine(activation), AgentLine(chained));
        activations := activations + [activation];
        agents := agents + [chained];
    }

    /** `record_continuity_pair` */
    method RecordContinuityPair(id: string, continuity: Json, previous: Option<string>, trusted: bool)
      modifies this
      ensures Abstract()
              == AppendAll(old(Abstract()),
                           ContinueWrites(old(agents), old(activations), id, continuity, previous, trusted))
    {
      var found := FindAgent(id);
      if found.None? || !AtLeastVerified(found.value.stage) || !continuity.Truthy() {
        return;
      }
      var agent := found.value;
      var activationId := PairedActivation(agent, previous);
      var existing: Option<Activation> := None;
      if activationId.Some? {
        existing := FindActivation(activationId.value);
      }
      var sar := if existing.Some? && existing.value.sarReceipt.Truthy() then existing.value.sarReceipt
          else agent.latestSar;
      if !continuity.Str? || !sar.NonEmptyStr() || agent.owner.None? {
        return;
      }
      var paired := RegistryLine(Some(agent), id, agent.owner.value, Continuous, activationId, sar);
      var before := Abstract();
      agents := agents + [paired];
      if activationId.Some? {
        var activation := PairLine(existing, activationId.value, id, sar, trusted);
        AppendTwo(before, AgentLine(paired), ActivationLine(activation));
        activations := activations + [activation];
      }
    }
  }

  // ----- all requests at once -----

  /** `pending` holds, for every request under way, the lines it still has to append. */
  datatype State = State(ledgers: Ledgers, pending: seq<seq<Write>>)

  /** A request may have read the two ledgers at different moments, each then a prefix of what it is now. */
  datatype Step =
    | Start(r: Request, agentsSeen: nat, activationsSeen: nat)
    | Emit(i: nat)
    | Die(i: nat)

  predicate Enabled(s: State, step: Step) {
    match step
    case Start(_, n, m) => n <= |s.ledgers.agents| && m <= |s.ledgers.activations|
    case Emit(i) => i < |s.pending| && |s.pending[i]| > 0
    case Die(i) => i < |s.pending|
  }

  function Apply(passes: Json -> bool, s: State, step: Step): State
    requires Enabled(s, step)
  {
    match step
    case Start(r, n, m) =>
      s.(pending := s.pending + [Writes(passes, s.ledgers.agents[..n], s.ledgers.activations[..m], r)])
    case Emit(i) => State(Append(s.ledgers, s.pending[i][0]), s.pending[i := s.pending[i][1..]])
    case Die(i) => s.(pending := s.pending[i := []])
  }

  ghost predicate Reaches(passes: Json -> bool, s: State, steps: seq<Step>, s': State)
    decreases |steps|
  {
    if |steps| == 0 then s' == s
    else Enabled(s, steps[0]) && Reaches(passes, Apply(passes, s, steps[0]), steps[1..], s')
  }

  const START := State(Ledgers([], []), [])

  // ----- stage safety -----

  /** A line that records a passing verdict of this agent. */
  predicate PassLine(passes: Json -> bool, a: Activation, agentId: string) {
    a.agentId == agentId && passes(a.verdict)
  }

  predicate HasPassed(passes: Json -> bool, lines: seq<Activation>, agentId: string) {
    exists a :: a in lines && PassLine(passes, a, agentId)
  }

  /** A native agent line at `verified` or beyond is backed by a passing activation line. */
  predicate Backed(passes: Json -> bool, lines: seq<Activation>, a: Agent) {
    a.origin.Native? && AtLeastVerified(a.stage) ==> HasPassed(passes, lines, a.id)
  }

  predicate StageSafe(passes: Json -> bool, l: Ledgers) {
    forall a :: a in l.agents ==> Backed(passes, l.activations, a)
  }

  /** Every agent line still to be appended will be backed by then. */
  predicate Sound(passes: Json -> bool, lines: seq<Activation>, ws: seq<Write>)
    decreases |ws|
  {
    |ws| == 0 ||
    match ws[0]
    case AgentLine(a) => Backed(passes, lines, a) && Sound(passes, lines, ws[1..])
    case ActivationLine(a) => Sound(passes, lines + [a], ws[1..])
  }

  predicate SafeInvariant(passes: Json -> bool, s: State) {
    && StageSafe(passes, s.ledgers)
    && forall i :: 0 <= i < |s.pending| ==> Sound(passes, s.ledgers.activations, s.pending[i])
  }

  predicate Includes(more: seq<Activation>, lines: seq<Activation>) {
    forall a :: a in lines ==> a in more
  }

  lemma BackedWithMore(passes: Json -> bool, lines: seq<Activation>, more: seq<Activation>, a: Agent)
    requires Includes(more, lines) && Backed(passes, lines, a)
    ensures Backed(passes, more, a)
  {
    if HasPassed(passes, lines, a.id) {
      var x :| x in lines && PassLine(passes, x, a.id);
      assert x in more;
    }
  }

  lemma {:induction false} SoundWithMore(passes: Json -> bool, lines: seq<Activation>, more: seq<Activation>,
      ws: seq<Write>)
    requires Includes(more, lines) && Sound(passes, lines, ws)
    ensures Sound(passes, more, ws)
    decreases |ws|
  {
    hide Backed;
    if |ws| > 0 {
      match ws[0]
      case AgentLine(a) =>
        BackedWithMore(passes, lines, more, a);
        SoundWithMore(passes, lines, more, ws[1..]);
      case ActivationLine(a) =>
        SoundWithMore(passes, lines + [a], more + [a], ws[1..]);
    }
  }

  lemma SoundPair(passes: Json -> bool, lines: seq<Activation>, a: Activation, b: Agent)
    ensures Backed(passes, lines + [a], b) ==> Sound(passes, lines, [ActivationLine(a), AgentLine(b)])
    ensures Backed(passes, lines, b) ==> Sound(passes, lines, [AgentLine(b), ActivationLine(a)])
    ensures Backed(passes, lines, b) ==> Sound(passes, lines, [AgentLine(b)])
  {
    hide Backed;
    var ws, vs := [ActivationLine(a), AgentLine(b)], [AgentLine(b), ActivationLine(a)];
    assert ws[1..] == [AgentLine(b)] && [AgentLine(b)][1..] == [];
    assert vs[1..] == [ActivationLine(a)] && [ActivationLine(a)][1..] == [];
    assert Sound(passes, lines + [a], []) && Sound(passes, lines, []);
    assert Sound(passes, lines, [ActivationLine(a)]);
    assert Backed(passes, lines + [a], b) ==> Sound(passes, lines + [a], [AgentLine(b)]);
  }

  /** Reading any prefix of the agent ledger, a request appends only lines that will be backed. */
  lemma WritesSound(passes: Json -> bool, l: Ledgers, n: nat, m: nat, r: Request)
    requires StageSafe(passes, l) && n <= |l.agents| && m <= |l.activations|
    ensures Sound(passes, l.activations, Writes(passes, l.agents[..n], l.activations[..m], r))
  {
    var seen := l.agents[..n];
    LatestAgentIsLine(seen, r.id);
    var ws := Writes(passes, seen, l.activations[..m], r);
    var known := LatestAgent(seen, r.id);
    assert known.Some? ==> known.value in l.agents && Backed(passes, l.activations, known.value);
    if |ws| == 1 {
      var filler := Activation("", "", Registered, NoStatus, Null, Null, false);
      SoundPair(passes, l.activations, filler, ws[0].agent);
    } else if |ws| == 2 && ws[0].AgentLine? {
      SoundPair(passes, l.activations, ws[1].activation, ws[0].agent);
    } else if |ws| == 2 {
      if AtLeastVerified(ws[1].agent.stage) {
        assert PassLine(passes, ws[0].activation, ws[1].agent.id);
        assert ws[0].activation in l.activations + [ws[0].activation];
      }
      SoundPair(passes, l.activations, ws[0].activation, ws[1].agent);
    }
  }

  lemma EmitKeepsSafe(passes: Json -> bool, s: State, i: nat)
    requires SafeInvariant(passes, s) && Enabled(s, Emit(i))
    ensures SafeInvariant(passes, Apply(passes, s, Emit(i)))
  {
    hide Backed;
    var s' := Apply(passes, s, Emit(i));
    assert Sound(passes, s.ledgers.activations, s.pending[i]);
    assert Includes(s'.ledgers.activations, s.ledgers.activations);
    forall a | a in s'.ledgers.agents ensures Backed(passes, s'.ledgers.activations, a) {
      if a in s.ledgers.agents { BackedWithMore(passes, s.ledgers.activations, s'.ledgers.activations, a); }
    }
    forall j | 0 <= j < |s'.pending| ensures Sound(passes, s'.ledgers.activations, s'.pending[j]) {
      if j != i { SoundWithMore(passes, s.ledgers.activations, s'.ledgers.activations, s.pending[j]); }
    }
  }

  lemma StepKeepsSafe(passes: Json -> bool, s: State, step: Step)
    requires SafeInvariant(passes, s) && Enabled(s, step)
    ensures SafeInvariant(passes, Apply(passes, s, step))
  {
    hide StageSafe, Writes;
    match step
    case Start(r, n, m) => WritesSound(passes, s.ledgers, n, m, r);
    case Emit(i) => EmitKeepsSafe(passes, s, i);
    case Die(i) =>
  }

  lemma {:induction false} SafeThroughout(passes: Json -> bool, s: State, steps: seq<Step>, s': State)
    requires SafeInvariant(passes, s) && Reaches(passes, s, steps, s')
    ensures SafeInvariant(passes, s')
    decreases |steps|
  {
    hide SafeInvariant, Apply, Enabled;
    if |steps| > 0 {
      StepKeepsSafe(passes, s, steps[0]);
      SafeThroughout(passes, Apply(passes, s, steps[0]), steps[1..], s');
    }
  }

  /**
   Stage safety: in every reachable state, whatever requests are half done or dead, a native agent at `verified`,
   `chained` or `continuous` has a passing verdict on the activation ledger.
  */
  lemma VerifiedAgentsPassed(passes: Json -> bool, steps: seq<Step>, s: State, a: Agent)
    requires Reaches(passes, START, steps, s)
    requires a in s.ledgers.agents && a.origin.Native? && AtLeastVerified(a.stage)
    ensures HasPassed(passes, s.ledgers.activations, a.id)
  {
    SafeThroughout(passes, START, steps, s);
    assert Backed(passes, s.ledgers.activations, a);
  }

  // ----- explorer metrics -----

  /** A line that is not marked failed has reached `verified`. */
  predicate WellCounted(a: Activation) {
    a.status.StatusFailed? || AtLeastVerified(a.stage)
  }

  predicate CountInvariant(s: State) {
    && (forall a :: a in s.ledgers.activations ==> WellCounted(a))
    && forall i, k :: 0 <= i < |s.pending| && 0 <= k < |s.pending[i]| && s.pending[i][k].ActivationLine?
                      ==> WellCounted(s.pending[i][k].activation)
  }

  lemma WritesWellCounted(passes: Json -> bool, agents: seq<Agent>, activations: seq<Activation>, r: Request, k: nat)
    requires forall a :: a in activations ==> WellCounted(a)
    requires k < |Writes(passes, agents, activations, r)| && Writes(passes, agents, activations, r)[k].ActivationLine?
    ensures WellCounted(Writes(passes, agents, activations, r)[k].activation)
  {
    var agent := LatestAgent(agents, r.id);
    if r.Continue? && agent.Some? && PairedActivation(agent.value, r.previous).Some? {
      LatestActivationIsLine(activations, PairedActivation(agent.value, r.previous).value);
    }
  }

  lemma StepKeepsCount(passes: Json -> bool, s: State, step: Step)
    requires CountInvariant(s) && Enabled(s, step)
    ensures CountInvariant(Apply(passes, s, step))
  {
    hide Writes, WellCounted;
    match step
    case Start(r, n, m) =>
      var ws := Writes(passes, s.ledgers.agents[..n], s.ledgers.activations[..m], r);
      forall k | 0 <= k < |ws| && ws[k].ActivationLine? ensures WellCounted(ws[k].activation) {
        WritesWellCounted(passes, s.ledgers.agents[..n], s.ledgers.activations[..m], r, k);
      }
    case Emit(i) =>
      var tail := s.pending[i][1..];
      assert forall k :: 0 <= k < |tail| ==> tail[k] == s.pending[i][k + 1];
    case Die(i) =>
  }

  lemma {:induction false} CountThroughout(passes: Json -> bool, s: State, steps: seq<Step>, s': State)
    requires CountInvariant(s) && Reaches(passes, s, steps, s')
    ensures CountInvariant(s')
    decreases |steps|
  {
    hide CountInvariant, Apply, Enabled;
    if |steps| > 0 {
      StepKeepsCount(passes, s, steps[0]);
      CountThroughout(passes, Apply(passes, s, steps[0]), steps[1..], s');
    }
  }

  /** The latest counted line of each activation; untrusted lines are passed over unless asked for. */
  function LatestById(lines: seq<Activation>, includeAnonymous: bool): map<string, Activation> {
    if |lines| == 0 then map[]
    else
      var last, before := lines[|lines| - 1], LatestById(lines[..|lines| - 1], includeAnonymous);
      if last.id == "" || (!includeAnonymous && !last.trusted) then before else before[last.id := last]
  }

  predicate CountsAsSuccess(a: Activation) {
    AtLeastVerified(a.stage) && !a.status.StatusFailed?
  }

  function Successes(m: map<string, Activation>): set<string> {
    set id | id in m && CountsAsSuccess(m[id])
  }

  function Failures(m: map<string, Activation>): set<string> {
    set id | id in m && m[id].status.StatusFailed?
  }

  datatype Metrics = Metrics(attempts: nat, successes: nat, failures: nat, rate: real)

  /** The activation part of `explorer_metrics` */
  method ExplorerMetrics(lines: seq<Activation>, includeAnonymous: bool) returns (r: Metrics)
    ensures var m := LatestById(lines, includeAnonymous);
            && r.attempts == |m| && r.successes == |Successes(m)| && r.failures == |Failures(m)|
            && r.rate == (if |m| == 0 then 0.0 else |Successes(m)| as real / |m| as real)
  {
    var latest: map<string, Activation> := map[];
    var i := 0;
    while i < |lines|
      invariant 0 <= i <= |lines|
      invariant latest == LatestById(lines[..i], includeAnonymous)
    {
      assert lines[..i + 1][..i] == lines[..i];
      if lines[i].id != "" && (includeAnonymous || lines[i].trusted) {
        latest := latest[lines[i].id := lines[i]];
      }
      i := i + 1;
    }
    assert lines[..i] == lines;
    var successes, failures := CountOutcomes(latest);
    r := Metrics(|latest|, successes, failures,
                 if |latest| == 0 then 0.0 else successes as real / |latest| as real);
  }

  /** Taking `id` off the to-do set counts it when it is one of `members`. */
  lemma CountOne(members: set<string>, todo: set<string>, id: string)
    requires id in todo
    ensures |members - (todo - {id})| == |members - todo| + if id in members then 1 else 0
  {
    if id in members {
      assert members - (todo - {id}) == (members - todo) + {id};
    } else {
      assert members - (todo - {id}) == members - todo;
    }
  }

  /** The two sums over the collected records. */
  method CountOutcomes(latest: map<string, Activation>) returns (successes: nat, failures: nat)
    ensures successes == |Successes(latest)| && failures == |Failures(latest)|
  {
    hide CountsAsSuccess;
    var todo := latest.Keys;
    successes, failures := 0, 0;
    assert Successes(latest) - todo == {} && Failures(latest) - todo == {};
    while todo != {}
      invariant todo <= latest.Keys
      invariant successes == |Successes(latest) - todo|
      invariant failures == |Failures(latest) - todo|
      decreases todo
    {
      var id :| id in todo;
      CountOne(Successes(latest), todo, id);
      CountOne(Failures(latest), todo, id);
      if CountsAsSuccess(latest[id]) {
        successes := successes + 1;
      }
      if latest[id].status.StatusFailed? {
        failures := failures + 1;
      }
      todo := todo - {id};
    }
    assert Successes(latest) - todo == Successes(latest) && Failures(latest) - todo == Failures(latest);
  }

  lemma {:induction false} LatestByIdAreLines(lines: seq<Activation>, includeAnonymous: bool, id: string)
    requires id in LatestById(lines, includeAnonymous)
    ensures LatestById(lines, includeAnonymous)[id] in lines
  {
    if |lines| > 0 {
      var n := |lines| - 1;
      assert lines == lines[..n] + [lines[n]];
      if id in LatestById(lines[..n], includeAnonymous) { LatestByIdAreLines(lines[..n], includeAnonymous, id); }
    }
  }

  /**
   Conservation: in every reachable state and under either provenance filter, successes and failures make up the
   attempts, and the success rate lies between 0 and 1, although continuity pairs overwrite stages and inherit statuses.
  */
  lemma AttemptsAreAccountedFor(passes: Json -> bool, steps: seq<Step>, s: State, includeAnonymous: bool)
    requires Reaches(passes, START, steps, s)
    ensures var m := LatestById(s.ledgers.activations, includeAnonymous);
            && |Successes(m)| + |Failures(m)| == |m|
            && (|m| > 0 ==> 0.0 <= |Successes(m)| as real / |m| as real <= 1.0)
  {
    CountThroughout(passes, START, steps, s);
    var m := LatestById(s.ledgers.activations, includeAnonymous);
    forall id | id in m ensures WellCounted(m[id]) {
      LatestByIdAreLines(s.ledgers.activations, includeAnonymous, id);
    }
    hide LatestById, AtLeastVerified;
    assert Successes(m) !! Failures(m);
    assert Successes(m) + Failures(m) == m.Keys;
    assert |Successes(m) + Failures(m)| == |Successes(m)| + |Failures(m)|;
    if |m| > 0 { RatioInUnit(|Successes(m)|, |m|); }
  }

  lemma RatioInUnit(a: nat, b: nat)
    requires a <= b && b > 0
    ensures 0.0 <= a as real / b as real <= 1.0
  {
    var x, y := a as real, b as real;
    assert x <= y && (x / y) * y == x;
  }

  // ----- what imports and failures do to a lifecycle -----

  /** An imported agent, having no owner, is frozen: no request that sees its line appends a line for it. */
  lemma ImportedAgentsAreFrozen(passes: Json -> bool, agents: seq<Agent>, activations: seq<Activation>, r: Request)
    requires LatestAgent(agents, r.id).Some? && LatestAgent(agents, r.id).value.owner.None?
    ensures Writes(passes, agents, activations, r) == []
  {
  }

  // ----- whole requests, one after the other -----

  function Handle(passes: Json -> bool, l: Ledgers, r: Request): Ledgers {
    AppendAll(l, Writes(passes, l.agents, l.activations, r))
  }

  /** The ledgers after the requests of a run, each handled before the next one arrives. */
  function HandleAll(passes: Json -> bool, l: Ledgers, rs: seq<Request>): Ledgers {
    if |rs| == 0 then l else Handle(passes, HandleAll(passes, l, rs[..|rs| - 1]), rs[|rs| - 1])
  }

  lemma {:induction false} ReachesThrough(passes: Json -> bool, s: State, first: seq<Step>, m: State, second: seq<Step>,
                                          s': State)
    requires Reaches(passes, s, first, m) && Reaches(passes, m, second, s')
    ensures Reaches(passes, s, first + second, s')
    decreases |first|
  {
    hide Apply, Enabled;
    if |first| == 0 {
      assert first + second == second;
    } else {
      assert (first + second)[1..] == first[1..] + second;
      ReachesThrough(passes, Apply(passes, s, first[0]), first[1..], m, second, s');
    }
  }

  /** A request that started can append all its lines without a pause. */
  lemma {:induction false} EmitAll(passes: Json -> bool, s: State, i: nat) returns (steps: seq<Step>, s': State)
    requires i < |s.pending|
    ensures Reaches(passes, s, steps, s') && s'.ledgers == AppendAll(s.ledgers, s.pending[i])
    decreases |s.pending[i]|
  {
    steps, s' := [], s;
    if |s.pending[i]| > 0 {
      var rest;
      rest, s' := EmitAll(passes, Apply(passes, s, Emit(i)), i);
      steps := [Emit(i)] + rest;
      assert steps[1..] == rest;
    }
  }

  /** So a run of whole requests is one of the interleavings. */
  lemma {:induction false} WholeRunReaches(passes: Json -> bool, rs: seq<Request>) returns (steps: seq<Step>, s: State)
    ensures Reaches(passes, START, steps, s) && s.ledgers == HandleAll(passes, START.ledgers, rs)
    decreases |rs|
  {
    steps, s := [], START;
    if |rs| > 0 {
      var n := |rs| - 1;
      var before, m := WholeRunReaches(passes, rs[..n]);
      var start := Start(rs[n], |m.ledgers.agents|, |m.ledgers.activations|);
      var started := Apply(passes, m, start);
      hide Writes;
      assert m.ledgers.agents[..|m.ledgers.agents|] == m.ledgers.agents;
      assert m.ledgers.activations[..|m.ledgers.activations|] == m.ledgers.activations;
      var emits;
      emits, s := EmitAll(passes, started, |m.pending|);
      var last := [start] + emits;
      assert last[1..] == emits;
      assert Reaches(passes, m, last, s);
      ReachesThrough(passes, START, before, m, last, s);
      steps := before + last;
    }
  }

  /** The order of an agent's latest stage; an agent not yet known stands below all. */
  function StageOrder(l: Ledgers, id: string): nat {
    match LatestAgent(l.agents, id)
    case None => 0
    case Some(a) => Order(a.stage)
  }

  /** An activation that is recorded as failed. */
  predicate RecordsFailure(passes: Json -> bool, upstream: Upstream) {
    upstream.Down? || !passes(upstream.verdict)
  }

  /**
   The two families that lower a stage: an activation recorded as failed of an owned agent beyond `registered`, and a
   successful activation of a `continuous` one.
  */
  predicate Lowers(passes: Json -> bool, l: Ledgers, r: Request) {
    r.Activate? && LatestAgent(l.agents, r.id).Some? && LatestAgent(l.agents, r.id).value.owner.Some?
    && var stage := LatestAgent(l.agents, r.id).value.stage;
       if RecordsFailure(passes, r.upstream) then Order(stage) > 0
       else stage.Continuous? && r.upstream.continuityReceipt.Str? && r.upstream.sarReceipt.Str?
  }

  /** The agent line among a request's lines, if there is one. */
  function AgentWritten(ws: seq<Write>): Option<Agent> {
    if |ws| > 0 && ws[0].AgentLine? then Some(ws[0].agent)
    else if |ws| > 1 && ws[1].AgentLine? then Some(ws[1].agent)
    else None
  }

  lemma WritesOneAgent(passes: Json -> bool, l: Ledgers, r: Request)
    ensures var ws := Writes(passes, l.agents, l.activations, r);
            && |ws| <= 2 && !(|ws| == 2 && ws[0].AgentLine? && ws[1].AgentLine?)
            && (AgentWritten(ws).Some? ==> AgentWritten(ws).value.id == r.id)
  {
    LatestAgentIsLine(l.agents, r.id);
  }

  lemma AppendedAgents(l: Ledgers, ws: seq<Write>)
    requires |ws| <= 2 && !(|ws| == 2 && ws[0].AgentLine? && ws[1].AgentLine?)
    ensures AppendAll(l, ws).agents == l.agents + if AgentWritten(ws).Some? then [AgentWritten(ws).value] else []
  {
    if |ws| == 1 {
      assert AppendAll(Append(l, ws[0]), ws[1..]) == Append(l, ws[0]);
    } else if |ws| == 2 {
      assert ws == [ws[0], ws[1]];
      AppendTwo(l, ws[0], ws[1]);
    }
  }

  /** A request changes the latest stage of its own agent only, to that of the line it writes. */
  lemma StageAfter(passes: Json -> bool, l: Ledgers, r: Request, id: string)
    ensures var written := AgentWritten(Writes(passes, l.agents, l.activations, r));
            StageOrder(Handle(passes, l, r), id)
            == if id == r.id && written.Some? then Order(written.value.stage) else StageOrder(l, id)
  {
    WritesOneAgent(passes, l, r);
    hide Writes, AgentWritten, AppendAll;
    var ws := Writes(passes, l.agents, l.activations, r);
    AppendedAgents(l, ws);
    if AgentWritten(ws).Some? {
      var after := l.agents + [AgentWritten(ws).value];
      assert after[..|after| - 1] == l.agents;
    } else {
      assert l.agents + [] == l.agents;
    }
  }

  lemma OneRequestLowersIff(passes: Json -> bool, l: Ledgers, r: Request)
    ensures Lowers(passes, l, r) <==> StageOrder(Handle(passes, l, r), r.id) < StageOrder(l, r.id)
  {
    hide Handle;
    StageAfter(passes, l, r, r.id);
  }

  /** At no two moments of the run is an agent's latest stage lower at the later one. */
  ghost predicate NeverFalls(passes: Json -> bool, l: Ledgers, rs: seq<Request>) {
    forall i, j, id :: 0 <= i <= j <= |rs| ==>
      StageOrder(HandleAll(passes, l, rs[..i]), id) <= StageOrder(HandleAll(passes, l, rs[..j]), id)
  }

  /**
   Stages are documented as monotonic. Over a run of whole requests they are exactly when no request of the run is, on
   the ledgers it finds, in one of the two families.
  */
  lemma MonotonicIff(passes: Json -> bool, l: Ledgers, rs: seq<Request>)
    ensures NeverFalls(passes, l, rs) <==>
            forall k :: 0 <= k < |rs| ==> !Lowers(passes, HandleAll(passes, l, rs[..k]), rs[k])
  {
    hide Lowers, StageOrder, Handle, HandleAll;
    if NeverFalls(passes, l, rs) {
      forall k | 0 <= k < |rs| ensures !Lowers(passes, HandleAll(passes, l, rs[..k]), rs[k]) {
        OneRequestLowersIff(passes, HandleAll(passes, l, rs[..k]), rs[k]);
        HandleNext(passes, l, rs, k);
        assert StageOrder(HandleAll(passes, l, rs[..k]), rs[k].id)
               <= StageOrder(HandleAll(passes, l, rs[..k + 1]), rs[k].id);
      }
    }
    if forall k :: 0 <= k < |rs| ==> !Lowers(passes, HandleAll(passes, l, rs[..k]), rs[k]) {
      forall i, j, id | 0 <= i <= j <= |rs|
        ensures StageOrder(HandleAll(passes, l, rs[..i]), id) <= StageOrder(HandleAll(passes, l, rs[..j]), id)
      {
        RisesBetween(passes, l, rs, i, j, id);
      }
    }
  }

  lemma HandleNext(passes: Json -> bool, l: Ledgers, rs: seq<Request>, k: nat)
    requires k < |rs|
    ensures HandleAll(passes, l, rs[..k + 1]) == Handle(passes, HandleAll(passes, l, rs[..k]), rs[k])
  {
    assert rs[..k + 1][..k] == rs[..k];
  }

  lemma {:induction false} RisesBetween(passes: Json -> bool, l: Ledgers, rs: seq<Request>, i: nat, j: nat, id: string)
    requires i <= j <= |rs|
    requires forall k :: 0 <= k < |rs| ==> !Lowers(passes, HandleAll(passes, l, rs[..k]), rs[k])
    ensures StageOrder(HandleAll(passes, l, rs[..i]), id) <= StageOrder(HandleAll(passes, l, rs[..j]), id)
    decreases j
  {
    hide Lowers, StageOrder, Handle, HandleAll;
    if i < j {
      RisesBetween(passes, l, rs, i, j - 1, id);
      HandleNext(passes, l, rs, j - 1);
      OneRequestLowersIff(passes, HandleAll(passes, l, rs[..j - 1]), rs[j - 1]);
      StageAfter(passes, HandleAll(passes, l, rs[..j - 1]), rs[j - 1], id);
    }
  }

  /**
   What parallel requests add is stale reads alone: a line appended while the agent's latest line is still the one its
   request read lowers the stage exactly when that request is in one of the two families.
  */
  lemma FreshLineLowersIff(passes: Json -> bool, l: Ledgers, n: nat, m: nat, r: Request, written: Agent)
    requires n <= |l.agents| && m <= |l.activations|
    requires AgentWritten(Writes(passes, l.agents[..n], l.activations[..m], r)) == Some(written)
    requires LatestAgent(l.agents, r.id) == LatestAgent(l.agents[..n], r.id)
    ensures StageOrder(l.(agents := l.agents + [written]), r.id) < StageOrder(l, r.id)
            <==> Lowers(passes, Ledgers(l.agents[..n], l.activations[..m]), r)
  {
    var seen, after := Ledgers(l.agents[..n], l.activations[..m]), l.agents + [written];
    OneRequestLowersIff(passes, seen, r);
    StageAfter(passes, seen, r, r.id);
    WritesOneAgent(passes, seen, r);
    hide Writes, Lowers, Handle, AgentWritten;
    assert after[..|after| - 1] == l.agents;
  }

  // ----- two witnesses -----

  const AGENT := "agent:a"
  const REGISTER := Register(AGENT, "owner")
  const REGISTERED := Agent(AGENT, Native, Some("owner"), Registered, None, Null)
  const CHAINED := Agent(AGENT, Native, Some("owner"), Chained, Some("activation:1"), Str("s"))
  const FALLEN := Agent(AGENT, Native, Some("owner"), ActivationFailed, Some("activation:2"), Str("s"))
  const RETRY := Activate(AGENT, "activation:2", Down(Null), false)

  function PassingActivation(verdict: Json): Request {
    Activate(AGENT, "activation:1", Answered(Str("c"), Str("s"), verdict), false)
  }

  function PassedLine(verdict: Json): Activation {
    Activation("activation:1", AGENT, Chained, StatusComplete, Str("s"), verdict, false)
  }

  lemma WitnessWrites(passes: Json -> bool, verdict: Json, lines: seq<Activation>)
    requires passes(verdict)
    ensures Writes(passes, [], [], REGISTER) == [AgentLine(REGISTERED)]
    ensures Writes(passes, [REGISTERED], [], REGISTER) == [AgentLine(REGISTERED)]
    ensures Writes(passes, [REGISTERED], [], PassingActivation(verdict))
            == [ActivationLine(PassedLine(verdict)), AgentLine(CHAINED)]
    ensures !Lowers(passes, Ledgers([REGISTERED], []), PassingActivation(verdict))
    ensures Lowers(passes, Ledgers([REGISTERED, CHAINED], lines), RETRY)
    ensures AgentWritten(Writes(passes, [REGISTERED, CHAINED], lines, RETRY)) == Some(FALLEN)
  {
    assert LatestAgent([REGISTERED], AGENT) == Some(REGISTERED);
    assert LatestAgent([REGISTERED, CHAINED], AGENT) == Some(CHAINED);
  }

  /** Registered, activated with a passing verdict, activated again while the upstream is down: `chained` falls back. */
  lemma StagesCanFall(passes: Json -> bool, verdict: Json) returns (rs: seq<Request>)
    requires passes(verdict)
    ensures rs == [REGISTER, PassingActivation(verdict), RETRY]
    ensures Lowers(passes, HandleAll(passes, START.ledgers, rs[..2]), rs[2])
    ensures HandleAll(passes, START.ledgers, rs[..2]).agents == [REGISTERED, CHAINED]
    ensures HandleAll(passes, START.ledgers, rs).agents == [REGISTERED, CHAINED, FALLEN]
  {
    rs := [REGISTER, PassingActivation(verdict), RETRY];
    var l0, l1, l2 := START.ledgers, HandleAll(passes, START.ledgers, rs[..1]),
        HandleAll(passes, START.ledgers, rs[..2]);
    assert HandleAll(passes, l0, rs[..0]) == l0 && rs[..3] == rs;
    HandleNext(passes, l0, rs, 0);
    HandleNext(passes, l0, rs, 1);
    HandleNext(passes, l0, rs, 2);
    WitnessWrites(passes, verdict, l2.activations);
    WritesOneAgent(passes, l2, RETRY);
    hide Writes, Lowers, HandleAll, PassingActivation, AppendAll;
    AppendedAgents(l0, Writes(passes, [], [], REGISTER));
    AppendedActivations(l0, REGISTERED);
    assert l1 == Ledgers([REGISTERED], []);
    AppendedAgents(l1, Writes(passes, [REGISTERED], [], PassingActivation(verdict)));
    assert l2.agents == [REGISTERED, CHAINED] && l2 == Ledgers([REGISTERED, CHAINED], l2.activations);
    AppendedAgents(l2, Writes(passes, l2.agents, l2.activations, RETRY));
  }

  lemma AppendedActivations(l: Ledgers, a: Agent)
    ensures AppendAll(l, [AgentLine(a)]) == l.(agents := l.agents + [a])
  {
    assert [AgentLine(a)][1..] == [];
  }

  /** Every request of the run is a registration, or the activation `r`. */
  predicate RegistersOr(steps: seq<Step>, r: Request) {
    forall k :: 0 <= k < |steps| && steps[k].Start? ==> steps[k].r == REGISTER || steps[k].r == r
  }

  /**
   Reads and appends of parallel requests are not one step, and then stages fall without either family: with one agent,
   registrations and one passing activation of it as `registered`, a registration that read `registered` is still under
   way when `chained` is appended, and its own line then puts the agent back.
  */
  lemma StaleReadLowers(passes: Json -> bool, verdict: Json) returns (steps: seq<Step>, s: State)
    requires passes(verdict)
    ensures Reaches(passes, START, steps, s) && RegistersOr(steps, PassingActivation(verdict))
    ensures !Lowers(passes, Ledgers([REGISTERED], []), PassingActivation(verdict))
    ensures s.ledgers.agents == [REGISTERED, CHAINED] && Enabled(s, Emit(1))
    ensures Apply(passes, s, Emit(1)).ledgers.agents == [REGISTERED, CHAINED, REGISTERED]
  {
    WitnessWrites(passes, verdict, []);
    hide Writes, PassingActivation, PassedLine;
    var activate, activation := PassingActivation(verdict), PassedLine(verdict);
    var s1 := State(Ledgers([], []), [[AgentLine(REGISTERED)]]);
    var s2 := State(Ledgers([REGISTERED], []), [[]]);
    var s3 := State(Ledgers([REGISTERED], []), [[], [AgentLine(REGISTERED)]]);
    var s4 := s3.(pending := s3.pending + [[ActivationLine(activation), AgentLine(CHAINED)]]);
    var s5 := State(Ledgers([REGISTERED], [activation]), [[], [AgentLine(REGISTERED)], [AgentLine(CHAINED)]]);
    s := State(Ledgers([REGISTERED, CHAINED], [activation]), [[], [AgentLine(REGISTERED)], []]);
    assert Apply(passes, START, Start(REGISTER, 0, 0)) == s1;
    assert s1.pending[0][1..] == [] && Apply(passes, s1, Emit(0)) == s2;
    assert s2.ledgers.agents[..1] == [REGISTERED] && Apply(passes, s2, Start(REGISTER, 1, 0)) == s3;
    assert s3.ledgers.agents[..1] == [REGISTERED] && Apply(passes, s3, Start(activate, 1, 0)) == s4;
    assert s4.pending[2][1..] == [AgentLine(CHAINED)] && Apply(passes, s4, Emit(2)) == s5;
    assert s5.pending[2][1..] == [] && Apply(passes, s5, Emit(2)) == s;
    assert Apply(passes, s, Emit(1)).ledgers.agents == [REGISTERED, CHAINED, REGISTERED];
    assert Enabled(START, Start(REGISTER, 0, 0)) && Enabled(s1, Emit(0)) && Enabled(s2, Start(REGISTER, 1, 0));
    assert Enabled(s3, Start(activate, 1, 0)) && Enabled(s4, Emit(2)) && Enabled(s5, Emit(2)) && Enabled(s, Emit(1));
    assert Reaches(passes, s, [], s) && RegistersOr([], activate);
    hide *;
    steps := [];
    steps := BeforeRun(passes, s5, Emit(2), steps, s, activate);
    steps := BeforeRun(passes, s4, Emit(2), steps, s, activate);
    steps := BeforeRun(passes, s3, Start(activate, 1, 0), steps, s, activate);
    steps := BeforeRun(passes, s2, Start(REGISTER, 1, 0), steps, s, activate);
    steps := BeforeRun(passes, s1, Emit(0), steps, s, activate);
    steps := BeforeRun(passes, START, Start(REGISTER, 0, 0), steps, s, activate);
  }

  lemma BeforeRun(passes: Json -> bool, s: State, step: Step, rest: seq<Step>, s': State, r: Request)
    returns (steps: seq<Step>)
    requires Enabled(s, step) && Reaches(passes, Apply(passes, s, step), rest, s')
    requires RegistersOr(rest, r) && (step.Start? ==> step.r == REGISTER || step.r == r)
    ensures Reaches(passes, s, steps, s') && RegistersOr(steps, r)
  {
    steps := [step] + rest;
    assert steps[1..] == rest;
  }

  // ----- whose an agent is -----

  /** The same owner and the same kind of origin. */
  predicate SameIdentity(a: Agent, b: Agent) {
    a.owner == b.owner && a.origin == b.origin
  }

  /** Whatever prefixes it read, a request that saw a line of its agent writes lines of that owner and origin only. */
  lemma WritesKeepIdentity(passes: Json -> bool, agents: seq<Agent>, activations: seq<Activation>, r: Request, k: nat)
    requires k < |Writes(passes, agents, activations, r)| && Writes(passes, agents, activations, r)[k].AgentLine?
    ensures var written := Writes(passes, agents, activations, r)[k].agent;
            && written.id == r.id
            && match LatestAgent(agents, r.id)
               case Some(known) => known.owner.Some? && SameIdentity(written, known)
               case None => Founding(written)
  {
    LatestAgentIsLine(agents, r.id);
  }

  /** The first line of an agent: registered by some owner, or imported without one. */
  predicate Founding(a: Agent) {
    && a.latestSar == Null
    && ((a.origin == Native && a.owner.Some? && a.stage == Registered && a.latestActivation == None)
        || (a.origin == HistoricalImport && a.owner == None && a.stage == Chained && a.latestActivation.Some?))
  }

  /** Some founding line on the ledger gives this line's agent the owner and origin it has. */
  predicate Rooted(lines: seq<Agent>, a: Agent) {
    exists f :: f in lines && Founding(f) && f.id == a.id && SameIdentity(a, f)
  }

  predicate OwnedInvariant(s: State) {
    && (forall a :: a in s.ledgers.agents ==> Rooted(s.ledgers.agents, a))
    && forall i, k :: 0 <= i < |s.pending| && 0 <= k < |s.pending[i]| ==> Settled(s.ledgers.agents, s.pending[i][k])
  }

  /** A line to come is a founding one, or belongs to an agent whose founding line is there. */
  predicate Settled(lines: seq<Agent>, w: Write) {
    w.AgentLine? ==> Founding(w.agent) || Rooted(lines, w.agent)
  }

  lemma SettledWithMore(lines: seq<Agent>, more: seq<Agent>, w: Write)
    requires Settled(lines, w) && forall x :: x in lines ==> x in more
    ensures Settled(more, w)
  {
    hide Founding, Rooted;
    if w.AgentLine? && Rooted(lines, w.agent) { RootedWithMore(lines, more, w.agent); }
  }

  lemma SettledIsRooted(lines: seq<Agent>, w: Write)
    requires Settled(lines, w) && w.AgentLine?
    ensures Rooted(lines + [w.agent], w.agent)
  {
    hide Founding;
    if Founding(w.agent) {
      assert SameIdentity(w.agent, w.agent) && w.agent in lines + [w.agent];
    } else {
      RootedWithMore(lines, lines + [w.agent], w.agent);
    }
  }

  lemma RootedWithMore(lines: seq<Agent>, more: seq<Agent>, a: Agent)
    requires Rooted(lines, a) && forall x :: x in lines ==> x in more
    ensures Rooted(more, a)
  {
    hide Founding;
    var f :| f in lines && Founding(f) && f.id == a.id && SameIdentity(a, f);
    assert f in more;
  }

  lemma StartKeepsOwned(passes: Json -> bool, s: State, r: Request, n: nat, m: nat, k: nat)
    requires OwnedInvariant(s) && n <= |s.ledgers.agents| && m <= |s.ledgers.activations|
    requires k < |Writes(passes, s.ledgers.agents[..n], s.ledgers.activations[..m], r)|
    requires Writes(passes, s.ledgers.agents[..n], s.ledgers.activations[..m], r)[k].AgentLine?
    ensures Settled(s.ledgers.agents, Writes(passes, s.ledgers.agents[..n], s.ledgers.activations[..m], r)[k])
  {
    var seen := s.ledgers.agents[..n];
    WritesKeepIdentity(passes, seen, s.ledgers.activations[..m], r, k);
    LatestAgentIsLine(seen, r.id);
    hide Writes, Founding, LatestAgent;
    if LatestAgent(seen, r.id).Some? {
      var known := LatestAgent(seen, r.id).value;
      assert known in s.ledgers.agents;
      var f :| f in s.ledgers.agents && Founding(f) && f.id == known.id && SameIdentity(known, f);
    }
  }

  lemma EmitKeepsOwned(passes: Json -> bool, s: State, i: nat)
    requires OwnedInvariant(s) && Enabled(s, Emit(i))
    ensures OwnedInvariant(Apply(passes, s, Emit(i)))
  {
    hide Founding, Rooted, Settled;
    var s' := Apply(passes, s, Emit(i));
    var w := s.pending[i][0];
    var lines, more := s.ledgers.agents, s'.ledgers.agents;
    assert forall x :: x in lines ==> x in more;
    forall a | a in more ensures Rooted(more, a) {
      if a in lines {
        RootedWithMore(lines, more, a);
      } else {
        SettledIsRooted(lines, w);
      }
    }
    forall j, k | 0 <= j < |s'.pending| && 0 <= k < |s'.pending[j]| ensures Settled(more, s'.pending[j][k]) {
      var before := if j == i then k + 1 else k;
      assert s'.pending[j][k] == s.pending[j][before];
      SettledWithMore(lines, more, s.pending[j][before]);
    }
  }

  lemma StepKeepsOwned(passes: Json -> bool, s: State, step: Step)
    requires OwnedInvariant(s) && Enabled(s, step)
    ensures OwnedInvariant(Apply(passes, s, step))
  {
    match step
    case Start(r, n, m) =>
      var ws := Writes(passes, s.ledgers.agents[..n], s.ledgers.activations[..m], r);
      forall k | 0 <= k < |ws| ensures Settled(s.ledgers.agents, ws[k]) {
        if ws[k].AgentLine? { StartKeepsOwned(passes, s, r, n, m, k); }
      }
      hide Writes, Settled, Rooted;
    case Emit(i) => EmitKeepsOwned(passes, s, i);
    case Die(i) =>
      hide Settled, Rooted;
  }

  lemma {:induction false} OwnedThroughout(passes: Json -> bool, s: State, steps: seq<Step>, s': State)
    requires OwnedInvariant(s) && Reaches(passes, s, steps, s')
    ensures OwnedInvariant(s')
    decreases |steps|
  {
    hide OwnedInvariant, Apply, Enabled;
    if |steps| > 0 {
      StepKeepsOwned(passes, s, steps[0]);
      OwnedThroughout(passes, Apply(passes, s, steps[0]), steps[1..], s');
    }
  }

  /**
   Over every interleaving: whoever owns a line of an agent once registered the agent while it was unknown, and the
   line's origin is that of such a first line. So nobody takes over a line, or a stage, of another owner.
  */
  lemma OwnersAreFounders(passes: Json -> bool, steps: seq<Step>, s: State, a: Agent) returns (f: Agent)
    requires Reaches(passes, START, steps, s) && a in s.ledgers.agents
    ensures f in s.ledgers.agents && Founding(f) && f.id == a.id && f.owner == a.owner && f.origin == a.origin
  {
    OwnedThroughout(passes, START, steps, s);
    f :| f in s.ledgers.agents && Founding(f) && f.id == a.id && SameIdentity(a, f);
  }

  lemma IdentityAfter(passes: Json -> bool, l: Ledgers, r: Request, id: string)
    requires LatestAgent(l.agents, id).Some?
    ensures LatestAgent(Handle(passes, l, r).agents, id).Some?
    ensures SameIdentity(LatestAgent(Handle(passes, l, r).agents, id).value, LatestAgent(l.agents, id).value)
  {
    var ws := Writes(passes, l.agents, l.activations, r);
    WritesOneAgent(passes, l, r);
    AppendedAgents(l, ws);
    if AgentWritten(ws).Some? {
      var k := if ws[0].AgentLine? then 0 else 1;
      WritesKeepIdentity(passes, l.agents, l.activations, r, k);
      var after := l.agents + [AgentWritten(ws).value];
      assert after[..|after| - 1] == l.agents;
    } else {
      assert l.agents + [] == l.agents;
    }
    hide Writes, AppendAll;
  }

  /** For whole requests an agent's owner and origin never change once a line of it exists. */
  lemma {:induction false} IdentityNeverChanges(passes: Json -> bool, l: Ledgers, rs: seq<Request>, id: string)
    requires LatestAgent(l.agents, id).Some?
    ensures LatestAgent(HandleAll(passes, l, rs).agents, id).Some?
    ensures SameIdentity(LatestAgent(HandleAll(passes, l, rs).agents, id).value, LatestAgent(l.agents, id).value)
    decreases |rs|
  {
    hide Handle, LatestAgent;
    if |rs| > 0 {
      IdentityNeverChanges(passes, l, rs[..|rs| - 1], id);
      IdentityAfter(passes, HandleAll(passes, l, rs[..|rs| - 1]), rs[|rs| - 1], id);
    }
  }

  /** A registration changes nothing exactly when the agent is known under another owner, or under none. */
  lemma RegistrationRefusedIff(passes: Json -> bool, l: Ledgers, id: string, owner: string)
    ensures Handle(passes, l, Register(id, owner)) == l <==>
            LatestAgent(l.agents, id).Some? && LatestAgent(l.agents, id).value.owner != Some(owner)
  {
    var ws := Writes(passes, l.agents, l.activations, Register(id, owner));
    WritesOneAgent(passes, l, Register(id, owner));
    AppendedAgents(l, ws);
    hide AppendAll;
    if |ws| == 0 { NothingAppended(l); }
  }

  lemma NothingAppended(l: Ledgers)
    ensures AppendAll(l, []) == l
  {
  }

  const ALICE := REGISTERED.(owner := Some("alice"))
  const BOB := REGISTERED.(owner := Some("bob"))

  /** Both requests read the empty ledger. */
  lemma RacingReads(passes: Json -> bool)
    ensures var a, b := Start(Register(AGENT, "alice"), 0, 0), Start(Register(AGENT, "bob"), 0, 0);
            var s1 := State(Ledgers([], []), [[AgentLine(ALICE)]]);
            && Enabled(START, a) && Enabled(s1, b)
            && Apply(passes, START, a) == s1
            && Apply(passes, s1, b) == State(Ledgers([], []), [[AgentLine(ALICE)], [AgentLine(BOB)]])
  {
  }

  /** Then both append. */
  lemma RacingWrites(passes: Json -> bool)
    ensures var s2 := State(Ledgers([], []), [[AgentLine(ALICE)], [AgentLine(BOB)]]);
            var s3 := State(Ledgers([ALICE], []), [[], [AgentLine(BOB)]]);
            && Enabled(s2, Emit(0)) && Enabled(s3, Emit(1))
            && Apply(passes, s2, Emit(0)) == s3
            && Apply(passes, s3, Emit(1)) == State(Ledgers([ALICE, BOB], []), [[], []])
  {
    var s2 := State(Ledgers([], []), [[AgentLine(ALICE)], [AgentLine(BOB)]]);
    assert s2.pending[0][1..] == [];
    var s3 := State(Ledgers([ALICE], []), [[], [AgentLine(BOB)]]);
    assert s3.pending[1][1..] == [];
  }

  /**
   Two owners who both register while the agent is unknown do both get a line: reading and appending are two steps.
  */
  lemma RacingFounders(passes: Json -> bool) returns (steps: seq<Step>, s: State)
    ensures Reaches(passes, START, steps, s)
    ensures |s.ledgers.agents| == 2 && s.ledgers.agents[0].id == s.ledgers.agents[1].id == AGENT
    ensures s.ledgers.agents[0].owner == Some("alice") && s.ledgers.agents[1].owner == Some("bob")
  {
    RacingReads(passes);
    RacingWrites(passes);
    hide Apply, Writes;
    var a, b := Register(AGENT, "alice"), Register(AGENT, "bob");
    var s1 := State(Ledgers([], []), [[AgentLine(ALICE)]]);
    var s2 := State(Ledgers([], []), [[AgentLine(ALICE)], [AgentLine(BOB)]]);
    var s3 := State(Ledgers([ALICE], []), [[], [AgentLine(BOB)]]);
    s := State(Ledgers([ALICE, BOB], []), [[], []]);
    steps := [Start(a, 0, 0), Start(b, 0, 0), Emit(0), Emit(1)];
    assert steps[1..] == [Start(b, 0, 0), Emit(0), Emit(1)] && steps[1..][1..] == [Emit(0), Emit(1)];
    assert steps[1..][1..][1..] == [Emit(1)] && steps[1..][1..][1..][1..] == [];
    assert Reaches(passes, s, [], s) && Reaches(passes, s3, [Emit(1)], s);
    assert Reaches(passes, s2, steps[1..][1..], s);
  }

  // ----- what each request leaves -----

  /** Stages at `verified` or beyond, by name. */
  lemma VerifiedStages(s: Stage)
    ensures AtLeastVerified(s) <==> s == Verified || s == Chained || s == Continuous
    ensures Order(s) == 0 <==> s == Registered || s == ActivationFailed
    ensures Order(Activated) < Order(Verified) < Order(Chained) < Order(Continuous)
  {
  }

  /** A registration that is not refused adds one line: a founding one, or the known one again. */
  lemma RegistrationOutcome(passes: Json -> bool, l: Ledgers, id: string, owner: string)
    requires LatestAgent(l.agents, id).Some? ==> LatestAgent(l.agents, id).value.owner == Some(owner)
    ensures Handle(passes, l, Register(id, owner))
            == l.(agents := l.agents + [match LatestAgent(l.agents, id)
                                        case None => Agent(id, Native, Some(owner), Registered, None, Null)
                                        case Some(known) => known])
  {
    LatestAgentIsLine(l.agents, id);
    var written := RegistryLine(LatestAgent(l.agents, id), id, owner,
                                if LatestAgent(l.agents, id).Some? then LatestAgent(l.agents, id).value.stage
                                else Registered, None, Null);
    assert Writes(passes, l.agents, l.activations, Register(id, owner)) == [AgentLine(written)];
    AppendedActivations(l, written);
  }

  /** An import adds an owner-less chained agent and its activation, for a well-formed unknown id, or nothing. */
  lemma ImportOutcome(passes: Json -> bool, l: Ledgers, id: string, wellFormed: bool, activationId: string)
    ensures Handle(passes, l, Import(id, wellFormed, activationId))
            == if wellFormed && LatestAgent(l.agents, id).None?
               then Ledgers(l.agents + [Agent(id, HistoricalImport, None, Chained, Some(activationId), Null)],
                            l.activations + [Activation(activationId, id, Chained, StatusChained, Null, Null, false)])
               else l
  {
    if wellFormed && LatestAgent(l.agents, id).None? {
      AppendTwo(l, AgentLine(Agent(id, HistoricalImport, None, Chained, Some(activationId), Null)),
                ActivationLine(Activation(activationId, id, Chained, StatusChained, Null, Null, false)));
    }
  }

  /**
   An activation of an owned agent leaves it `activation_failed` with a failed activation when the upstream fails or the
   verdict does not pass, `chained` with a complete one when it passes with both receipts, and otherwise nothing.
  */
  lemma ActivationOutcome(passes: Json -> bool, l: Ledgers, id: string, activationId: string, upstream: Upstream,
                          trusted: bool)
    requires LatestAgent(l.agents, id).Some? && LatestAgent(l.agents, id).value.owner.Some?
    ensures var known, sar := LatestAgent(l.agents, id).value, upstream.sarReceipt;
            var kept := known.(latestActivation := Some(activationId),
                               latestSar := if sar == Null then known.latestSar else sar);
            var verdict := if upstream.Down? then Null else upstream.verdict;
            Handle(passes, l, Activate(id, activationId, upstream, trusted))
            == if upstream.Down? || !passes(upstream.verdict)
               then Ledgers(l.agents + [kept.(stage := ActivationFailed)],
                            l.activations + [Activation(activationId, id, ActivationFailed, StatusFailed, sar, verdict,
                                                        trusted)])
               else if upstream.continuityReceipt.Str? && sar.Str?
               then Ledgers(l.agents + [kept.(stage := Chained)],
                            l.activations
                            + [Activation(activationId, id, Chained, StatusComplete, sar, verdict, trusted)])
               else l
  {
    LatestAgentIsLine(l.agents, id);
    var ws := Writes(passes, l.agents, l.activations, Activate(id, activationId, upstream, trusted));
    if |ws| == 2 { AppendTwo(l, ws[0], ws[1]); }
  }

  /** The activation a continuity pair belongs to: the one named, or else the agent's latest. */
  function Paired(l: Ledgers, known: Agent, previous: Option<string>): Option<Activation> {
    var id := if previous.Some? && previous.value != "" then previous else known.latestActivation;
    if id.Some? then LatestActivation(l.activations, id.value) else None
  }

  /**
   A continuity pair makes an owned agent at `verified` or beyond `continuous`, and so its activation, whose status and
   verdict stay; without a continuity receipt, a settlement receipt or the stage it leaves nothing.
  */
  lemma ContinuityOutcome(passes: Json -> bool, l: Ledgers, id: string, continuity: Json, previous: Option<string>,
                          trusted: bool)
    requires LatestAgent(l.agents, id).Some?
    ensures var known := LatestAgent(l.agents, id).value;
            var named := if previous.Some? && previous.value != "" then previous else known.latestActivation;
            var paired := Paired(l, known, previous);
            var sar := if paired.Some? && paired.value.sarReceipt.Truthy() then paired.value.sarReceipt
                       else known.latestSar;
            var after := Handle(passes, l, Continue(id, continuity, previous, trusted));
            if (known.stage == Verified || known.stage == Chained || known.stage == Continuous)
               && continuity.NonEmptyStr() && sar.NonEmptyStr() && known.owner.Some?
            then after.agents == l.agents + [known.(stage := Continuous, latestActivation := named, latestSar := sar)]
                 && after.activations == l.activations +
                      (if named.None? then []
                       else [Activation(named.value, id, Continuous,
                                        if paired.Some? then paired.value.status else NoStatus, sar,
                                        if paired.Some? then paired.value.verdict else Null, trusted)])
            else after == l
  {
    LatestAgentIsLine(l.agents, id);
    var ws := Writes(passes, l.agents, l.activations, Continue(id, continuity, previous, trusted));
    if |ws| == 2 { AppendTwo(l, ws[0], ws[1]); }
    if |ws| == 1 { AppendedActivations(l, ws[0].agent); }
  }

  /** Requests for an unknown agent leave nothing. */
  lemma UnknownAgentOutcome(passes: Json -> bool, l: Ledgers, r: Request)
    requires LatestAgent(l.agents, r.id).None? && (r.Activate? || r.Continue?)
    ensures Handle(passes, l, r) == l
  {
  }

  // ----- which records the metrics count -----

  /** A line counts when it has an id and, unless anonymous ones are asked for, a trusted provenance. */
  predicate Counted(a: Activation, includeAnonymous: bool) {
    a.id != "" && (includeAnonymous || a.trusted)
  }

  /** The record counted for an id is the last counted line with that id. */
  lemma {:induction false} LatestByIdIff(lines: seq<Activation>, includeAnonymous: bool, id: string, a: Activation)
    ensures id in LatestById(lines, includeAnonymous) && LatestById(lines, includeAnonymous)[id] == a <==>
            exists i :: 0 <= i < |lines| && lines[i] == a && a.id == id && Counted(a, includeAnonymous)
                        && forall j :: i < j < |lines| && lines[j].id == id ==> !Counted(lines[j], includeAnonymous)
  {
    if |lines| > 0 {
      var n := |lines| - 1;
      var before, last := lines[..n], lines[n];
      LatestByIdIff(before, includeAnonymous, id, a);
      if last.id == id && Counted(last, includeAnonymous) {
        if a == last { assert lines[n] == a; }
      } else {
        if i :| 0 <= i < n && before[i] == a && a.id == id && Counted(a, includeAnonymous)
                && forall j :: i < j < n && before[j].id == id ==> !Counted(before[j], includeAnonymous) {
          assert lines[i] == a;
          assert forall j :: i < j < |lines| && lines[j].id == id ==> !Counted(lines[j], includeAnonymous);
        }
        if i :| 0 <= i < |lines| && lines[i] == a && a.id == id && Counted(a, includeAnonymous)
                && forall j :: i < j < |lines| && lines[j].id == id ==> !Counted(lines[j], includeAnonymous) {
          assert i < n && before[i] == a;
          assert forall j :: i < j < n && before[j].id == id ==> lines[j].id == id;
        }
      }
    }
  }

  /** Success is a stage at `verified` or beyond that is not marked failed; failure is the mark. */
  lemma OutcomeIff(m: map<string, Activation>, id: string)
    requires id in m
    ensures id in Successes(m) <==>
            (m[id].stage == Verified || m[id].stage == Chained || m[id].stage == Continuous)
            && m[id].status != StatusFailed
    ensures id in Failures(m) <==> m[id].status == StatusFailed
  {
  }
}
