/**
 The read-only evidence graph over the three Path C ledgers: the latest-record index, the nodes and edges each
 action_ref contributes, and the sorted output.
*/
module EvidenceGraph {
  import opened Text
  import opened JsonValue
  import opened Crypto
  import opened WriteOnce
  import EvaluationStore

  // ----- the index -----

  /** `_latest_by_action_ref` */
  function LatestByRef(records: seq<Json>): map<string, Json> {
    if |records| == 0 then map[]
    else
      var last := records[|records| - 1];
      var before := LatestByRef(records[..|records| - 1]);
      if last.Get("action_ref").NonEmptyStr() then before[last.Get("action_ref").s := last] else before
  }

  method LoadIndex(records: seq<Json>) returns (out: map<string, Json>)
    ensures out == LatestByRef(records)
  {
    out := map[];
    var i := 0;
    while i < |records|
      invariant 0 <= i <= |records|
      invariant out == LatestByRef(records[..i])
    {
      assert records[..i + 1][..i] == records[..i];
      var ref := records[i].Get("action_ref");
      if ref.NonEmptyStr() {
        out := out[ref.s := records[i]];
      }
      i := i + 1;
    }
    assert records[..i] == records;
  }

  /** The index agrees with each store's own scan. */
  lemma {:induction false} IndexIsScan(policy: Policy, records: seq<Json>, ref: string)
    requires policy.keyField == "action_ref" && ref != ""
    ensures Latest(policy, records, ref)
            == if ref in LatestByRef(records) then Some(LatestByRef(records)[ref]) else None
  {
    if |records| > 0 {
      IndexIsScan(policy, records[..|records| - 1], ref);
    }
  }

  /** The `i`-th record is the last one that carries this non-empty ref. */
  predicate LastUnder(records: seq<Json>, ref: string, i: int) {
    && ref != "" && 0 <= i < |records| && records[i].Get("action_ref") == Str(ref)
    && forall k :: i < k < |records| ==> records[k].Get("action_ref") != Str(ref)
  }

  /** What the index holds under a ref: the last record that carries it. */
  lemma {:induction false} IndexedIff(records: seq<Json>, ref: string, r: Json)
    ensures ref in LatestByRef(records) && LatestByRef(records)[ref] == r <==>
            exists i :: LastUnder(records, ref, i) && records[i] == r
  {
    if |records| > 0 {
      var n := |records| - 1;
      IndexedIff(records[..n], ref, r);
      if records[n].Get("action_ref") == Str(ref) {
        assert ref != "" ==> LastUnder(records, ref, n);
        assert forall i :: LastUnder(records, ref, i) ==> i == n;
      } else {
        forall i ensures LastUnder(records, ref, i) <==> LastUnder(records[..n], ref, i) {
          LastUnderPrefix(records, ref, i);
        }
        assert forall i :: 0 <= i < n ==> records[..n][i] == records[i];
      }
    }
  }

  lemma LastUnderPrefix(records: seq<Json>, ref: string, i: int)
    requires |records| > 0 && records[|records| - 1].Get("action_ref") != Str(ref)
    ensures LastUnder(records, ref, i) <==> LastUnder(records[..|records| - 1], ref, i)
  {
    hide Json.Get;
    assert forall k :: 0 <= k < |records| - 1 ==> records[..|records| - 1][k] == records[k];
  }

  datatype Index = Index(commitments: map<string, Json>, evaluations: map<string, Json>, receipts: map<string, Json>)

  // ----- nodes and edges -----

  datatype Kind = CommitmentNode | EvaluationNode | ReceiptNode | RefValue | EvaluatorValue | ReasonValue

  function KindText(k: Kind): string {
    match k
    case CommitmentNode => "action_commitment"
    case EvaluationNode => "deterministic_evaluation_record"
    case ReceiptNode => "continuity_evaluation_receipt"
    case RefValue => "action_ref"
    case EvaluatorValue => "evaluator_identity"
    case ReasonValue => "reason_code"
  }

  /** An artifact node carries what its record says; a value node carries its value. */
  datatype Node =
    | Artifact(id: string, kind: Kind, ref: string, schemaId: Json, state: Json, reason: Json, evaluatorId: Json,
               evaluatedAt: Json, signed: bool)
    | Value(id: string, kind: Kind, value: Json)

  datatype Edge = Edge(kind: string, from: string, to: string)

  function NodeId(k: Kind, value: string): string {
    KindText(k) + ":" + value
  }

  function CommitmentArtifact(ref: string, r: Json): Node {
    Artifact(NodeId(CommitmentNode, ref), CommitmentNode, ref, r.Get("action_commitment").Get("schema_id"),
             Null, Null, Null, Null, false)
  }

  function EvaluationArtifact(ref: string, r: Json): Node {
    Artifact(NodeId(EvaluationNode, ref), EvaluationNode, ref, r.Get("schema_id"), r.Get("result"),
             r.Get("reason_code"), Null, Null, false)
  }

  function ReceiptArtifact(ref: string, r: Json): Node {
    Artifact(NodeId(ReceiptNode, ref), ReceiptNode, ref, r.Get("schema_id"), r.Get("evaluation_state"),
             r.Get("reason_code"), r.Get("evaluator_id"), r.Get("evaluated_at"), r.Get("signature").Obj?)
  }

  function ValueNode(p: Platform, k: Kind, v: Json): Node {
    Value(NodeId(k, Shown(p, v)), k, v)
  }

  function CommitmentPart(p: Platform, ix: Index, ref: string): (seq<Node>, seq<Edge>) {
    if ref !in ix.commitments then ([], [])
    else
      ([CommitmentArtifact(ref, ix.commitments[ref]), ValueNode(p, RefValue, Str(ref))],
       [Edge("references", NodeId(CommitmentNode, ref), NodeId(RefValue, ref))])
  }

  function EvaluationPart(p: Platform, ix: Index, ref: string): (seq<Node>, seq<Edge>) {
    if ref !in ix.evaluations then ([], [])
    else
      var r := ix.evaluations[ref];
      var reason := r.Get("reason_code");
      ([EvaluationArtifact(ref, r)] + (if reason.Null? then [] else [ValueNode(p, ReasonValue, reason)]),
       (if ref in ix.commitments
         then [Edge("evaluates", NodeId(EvaluationNode, ref), NodeId(CommitmentNode, ref))] else [])
       + (if reason.Null? then []
          else [Edge("has_reason_code", NodeId(EvaluationNode, ref), NodeId(ReasonValue, Shown(p, reason)))]))
  }

  function ReceiptPart(p: Platform, ix: Index, ref: string): (seq<Node>, seq<Edge>) {
    if ref !in ix.receipts then ([], [])
    else
      var r := ix.receipts[ref];
      var key := r.Get("signature").Get("key_id");
      ([ReceiptArtifact(ref, r)] + (if key.NonEmptyStr() then [ValueNode(p, EvaluatorValue, key)] else []),
       (if ref in ix.evaluations
        then [Edge("attests_evaluation", NodeId(ReceiptNode, ref), NodeId(EvaluationNode, ref))] else [])
       + (if key.NonEmptyStr()
         then [Edge("signed_by", NodeId(ReceiptNode, ref), NodeId(EvaluatorValue, key.s))] else []))
  }

  function NodesOf(p: Platform, ix: Index, ref: string): seq<Node> {
    CommitmentPart(p, ix, ref).0 + EvaluationPart(p, ix, ref).0 + ReceiptPart(p, ix, ref).0
  }

  function EdgesOf(p: Platform, ix: Index, ref: string): seq<Edge> {
    CommitmentPart(p, ix, ref).1 + EvaluationPart(p, ix, ref).1 + ReceiptPart(p, ix, ref).1
  }

  type Nodes = map<string, Node>

  /** `nodes.setdefault(node["node_id"], node)`, one after the other. */
  function AddNodes(nodes: Nodes, more: seq<Node>): Nodes
    decreases |more|
  {
    if |more| == 0 then nodes
    else AddNodes(if more[0].id in nodes then nodes else nodes[more[0].id := more[0]], more[1..])
  }

  function AllNodes(p: Platform, ix: Index, refs: seq<string>): Nodes {
    if |refs| == 0 then map[]
    else AddNodes(AllNodes(p, ix, refs[..|refs| - 1]), NodesOf(p, ix, refs[|refs| - 1]))
  }

  function AllEdges(p: Platform, ix: Index, refs: seq<string>): seq<Edge> {
    if |refs| == 0 then []
    else AllEdges(p, ix, refs[..|refs| - 1]) + EdgesOf(p, ix, refs[|refs| - 1])
  }

  // ----- sorted output -----

  predicate EdgeLess(a: Edge, b: Edge) {
    Less(a.kind, b.kind) || (a.kind == b.kind && (Less(a.from, b.from) || (a.from == b.from && Less(a.to, b.to))))
  }

  function InsertEdge(e: Edge, sorted: seq<Edge>): seq<Edge> {
    if |sorted| == 0 || EdgeLess(e, sorted[0]) then [e] + sorted
    else [sorted[0]] + InsertEdge(e, sorted[1..])
  }

  function SortEdges(edges: seq<Edge>): seq<Edge> {
    if |edges| == 0 then [] else InsertEdge(edges[|edges| - 1], SortEdges(edges[..|edges| - 1]))
  }

  datatype Graph = Graph(nodes: seq<Node>, edges: seq<Edge>)

  function SortNodes(nodes: Nodes): seq<Node> {
    var ids := SortedKeys(nodes.Keys);
    seq(|ids|, i requires 0 <= i < |ids| => assert ids[i] in ids; nodes[ids[i]])
  }

  function GraphOf(p: Platform, ix: Index, refs: seq<string>): Graph {
    Graph(SortNodes(AllNodes(p, ix, refs)), SortEdges(AllEdges(p, ix, refs)))
  }

  /** `build_graph` */
  method BuildGraph(p: Platform, ix: Index, refs: seq<string>) returns (graph: Graph)
    ensures graph == GraphOf(p, ix, refs)
  {
    hide NodesOf, EdgesOf;
    var nodes: Nodes := map[];
    var edges: seq<Edge> := [];
    var i := 0;
    while i < |refs|
      invariant 0 <= i <= |refs|
      invariant nodes == AllNodes(p, ix, refs[..i]) && edges == AllEdges(p, ix, refs[..i])
    {
      assert refs[..i + 1][..i] == refs[..i];
      nodes := AddNodes(nodes, NodesOf(p, ix, refs[i]));
      edges := edges + EdgesOf(p, ix, refs[i]);
      i := i + 1;
    }
    assert refs[..i] == refs;
    graph := Graph(SortNodes(nodes), SortEdges(edges));
  }

  // ----- ids name nodes -----

  lemma IdInjective(a: string, x: string, b: string, y: string)
    requires ':' !in a && ':' !in b && a + ":" + x == b + ":" + y
    ensures a == b && x == y
  {
    SplitAtSeparator(a, x, ':');
    SplitAtSeparator(b, y, ':');
    SplitWithoutSeparator(a, ':');
    SplitWithoutSeparator(b, ':');
    var s, t := [a] + Split(x, ':'), [b] + Split(y, ':');
    assert s == t && s[0] == a && t[0] == b && s[1..] == Split(x, ':') && t[1..] == Split(y, ':');
    JoinOfSplit(x, ':');
    JoinOfSplit(y, ':');
  }

  lemma NodeIdInjective(j: Kind, x: string, k: Kind, y: string)
    requires NodeId(j, x) == NodeId(k, y)
    ensures j == k && x == y
  {
    KindHasNoColon(j);
    KindHasNoColon(k);
    hide KindText;
    IdInjective(KindText(j), x, KindText(k), y);
    KindTextInjective(j, k);
  }

  lemma KindHasNoColon(k: Kind)
    ensures ':' !in KindText(k)
  {
  }

  lemma KindTextInjective(j: Kind, k: Kind)
    requires KindText(j) == KindText(k)
    ensures j == k
  {
    assert |KindText(CommitmentNode)| == 17 && |KindText(EvaluationNode)| == 31 && |KindText(ReceiptNode)| == 29
        && |KindText(RefValue)| == 10 && |KindText(EvaluatorValue)| == 18 && |KindText(ReasonValue)| == 11;
  }

  /** The node is the one its id stands for in this index. */
  predicate Faithful(ix: Index, n: Node) {
    match n
    case Artifact(id, kind, ref, _, _, _, _, _, _) =>
      && id == NodeId(kind, ref)
      && ((kind.CommitmentNode? && ref in ix.commitments && n == CommitmentArtifact(ref, ix.commitments[ref]))
          || (kind.EvaluationNode? && ref in ix.evaluations && n == EvaluationArtifact(ref, ix.evaluations[ref]))
          || (kind.ReceiptNode? && ref in ix.receipts && n == ReceiptArtifact(ref, ix.receipts[ref])))
    case Value(id, kind, v) =>
      v.Str? && id == NodeId(kind, v.s) && (kind.RefValue? || kind.EvaluatorValue? || kind.ReasonValue?)
  }

  lemma FaithfulById(ix: Index, m: Node, n: Node)
    requires Faithful(ix, m) && Faithful(ix, n) && m.id == n.id
    ensures m == n
  {
    hide NodeId;
    NodeIdInjective(m.kind, if m.Artifact? then m.ref else m.value.s, n.kind, if n.Artifact? then n.ref else n.value.s);
  }

  /** The evaluation store admits no reason code that is not a string. */
  predicate StringReasons(ix: Index) {
    forall ref :: ref in ix.evaluations ==>
      ix.evaluations[ref].Get("reason_code").Null? || ix.evaluations[ref].Get("reason_code").Str?
  }

  lemma {:induction false} IndexedAreRecords(records: seq<Json>, ref: string)
    requires ref in LatestByRef(records)
    ensures LatestByRef(records)[ref] in records
  {
    if |records| > 0 {
      var n := |records| - 1;
      assert records == records[..n] + [records[n]];
      if ref in LatestByRef(records[..n]) { IndexedAreRecords(records[..n], ref); }
    }
  }

  /** So the graph of a ledger the evaluation store wrote has string reason codes only. */
  lemma StoredReasonsAreStrings(commitments: seq<Json>, evaluations: seq<Json>, receipts: seq<Json>)
    requires OnePerKey(EvaluationStore.STORE, evaluations)
    ensures StringReasons(Index(LatestByRef(commitments), LatestByRef(evaluations), LatestByRef(receipts)))
  {
    var ix := LatestByRef(evaluations);
    forall ref | ref in ix ensures ix[ref].Get("reason_code").Null? || ix[ref].Get("reason_code").Str? {
      IndexedAreRecords(evaluations, ref);
      var i :| 0 <= i < |evaluations| && evaluations[i] == ix[ref];
      assert EvaluationStore.Validate(evaluations[i]).Some?;
    }
  }

  predicate EachFaithful(ix: Index, nodes: seq<Node>) {
    forall i :: 0 <= i < |nodes| ==> Faithful(ix, nodes[i])
  }

  lemma PartsFaithful(p: Platform, ix: Index, ref: string)
    requires StringReasons(ix)
    ensures EachFaithful(ix, CommitmentPart(p, ix, ref).0)
    ensures EachFaithful(ix, EvaluationPart(p, ix, ref).0)
    ensures EachFaithful(ix, ReceiptPart(p, ix, ref).0)
  {
    hide NodeId;
  }

  lemma NodesFaithful(p: Platform, ix: Index, ref: string)
    requires StringReasons(ix)
    ensures EachFaithful(ix, NodesOf(p, ix, ref))
  {
    PartsFaithful(p, ix, ref);
    hide CommitmentPart, EvaluationPart, ReceiptPart, Faithful;
  }

  predicate AllFaithful(ix: Index, nodes: Nodes) {
    forall id :: id in nodes ==> Faithful(ix, nodes[id]) && nodes[id].id == id
  }

  function IdsOf(more: seq<Node>): set<string> {
    set i | 0 <= i < |more| :: more[i].id
  }

  lemma {:induction false} AddKeepsFaithful(ix: Index, nodes: Nodes, more: seq<Node>)
    requires AllFaithful(ix, nodes) && forall i :: 0 <= i < |more| ==> Faithful(ix, more[i])
    ensures AllFaithful(ix, AddNodes(nodes, more))
    ensures AddNodes(nodes, more).Keys == nodes.Keys + IdsOf(more)
    decreases |more|
  {
    hide Faithful;
    if |more| > 0 {
      var next := if more[0].id in nodes then nodes else nodes[more[0].id := more[0]];
      AddKeepsFaithful(ix, next, more[1..]);
      assert IdsOf(more) == {more[0].id} + IdsOf(more[1..]) by {
        forall id | id in IdsOf(more) ensures id == more[0].id || id in IdsOf(more[1..]) {
          var i :| 0 <= i < |more| && more[i].id == id;
          if i > 0 { assert more[1..][i - 1].id == id; }
        }
        forall id | id in IdsOf(more[1..]) ensures id in IdsOf(more) {
          var i :| 0 <= i < |more[1..]| && more[1..][i].id == id;
          assert more[i + 1].id == id;
        }
      }
    }
  }

  /** Every id that some ref of the list contributes. */
  function IdsFor(p: Platform, ix: Index, refs: seq<string>): set<string> {
    set i, id | 0 <= i < |refs| && id in IdsOf(NodesOf(p, ix, refs[i])) :: id
  }

  lemma {:induction false} AllNodesAre(p: Platform, ix: Index, refs: seq<string>)
    requires StringReasons(ix)
    ensures AllFaithful(ix, AllNodes(p, ix, refs))
    ensures AllNodes(p, ix, refs).Keys == IdsFor(p, ix, refs)
  {
    if |refs| > 0 {
      var n := |refs| - 1;
      AllNodesAre(p, ix, refs[..n]);
      NodesFaithful(p, ix, refs[n]);
      hide NodesOf, Faithful;
      AddKeepsFaithful(ix, AllNodes(p, ix, refs[..n]), NodesOf(p, ix, refs[n]));
      IdsForNext(p, ix, refs, n);
    }
  }

  lemma IdsForNext(p: Platform, ix: Index, refs: seq<string>, n: nat)
    requires n == |refs| - 1
    ensures IdsFor(p, ix, refs) == IdsFor(p, ix, refs[..n]) + IdsOf(NodesOf(p, ix, refs[n]))
  {
    hide NodesOf, IdsOf;
    forall id | id in IdsFor(p, ix, refs)
      ensures id in IdsFor(p, ix, refs[..n]) || id in IdsOf(NodesOf(p, ix, refs[n]))
    {
      var i :| 0 <= i < |refs| && id in IdsOf(NodesOf(p, ix, refs[i]));
      if i < n { assert refs[..n][i] == refs[i]; }
    }
    forall id | id in IdsFor(p, ix, refs[..n]) ensures id in IdsFor(p, ix, refs) {
      var i :| 0 <= i < n && id in IdsOf(NodesOf(p, ix, refs[..n][i]));
      assert refs[..n][i] == refs[i];
    }
  }

  /** Faithful node maps with the same ids are the same map. */
  lemma SameIdsSameNodes(ix: Index, a: Nodes, b: Nodes)
    requires AllFaithful(ix, a) && AllFaithful(ix, b) && a.Keys == b.Keys
    ensures a == b
  {
    forall id | id in a ensures a[id] == b[id] {
      FaithfulById(ix, a[id], b[id]);
    }
  }

  // ----- results -----

  predicate Inside(edges: seq<Edge>, ids: set<string>) {
    forall i :: 0 <= i < |edges| ==> edges[i].from in ids && edges[i].to in ids
  }

  lemma IdsOfConcat(a: seq<Node>, b: seq<Node>)
    ensures IdsOf(a + b) == IdsOf(a) + IdsOf(b)
  {
    forall id | id in IdsOf(a) ensures id in IdsOf(a + b) {
      var i :| 0 <= i < |a| && a[i].id == id;
      assert (a + b)[i].id == id;
    }
    forall id | id in IdsOf(b) ensures id in IdsOf(a + b) {
      var i :| 0 <= i < |b| && b[i].id == id;
      assert (a + b)[|a| + i].id == id;
    }
  }

  lemma CommitmentPartInside(p: Platform, ix: Index, ref: string)
    ensures Inside(CommitmentPart(p, ix, ref).1, IdsOf(CommitmentPart(p, ix, ref).0))
    ensures ref in ix.commitments ==> NodeId(CommitmentNode, ref) in IdsOf(CommitmentPart(p, ix, ref).0)
  {
    hide NodeId;
    var c := CommitmentPart(p, ix, ref).0;
    if ref in ix.commitments { assert c[0].id in IdsOf(c) && c[1].id in IdsOf(c); }
  }

  lemma EvaluationPartInside(p: Platform, ix: Index, ref: string, ids: set<string>)
    requires ref in ix.commitments ==> NodeId(CommitmentNode, ref) in ids
    ensures Inside(EvaluationPart(p, ix, ref).1, ids + IdsOf(EvaluationPart(p, ix, ref).0))
    ensures ref in ix.evaluations ==> NodeId(EvaluationNode, ref) in IdsOf(EvaluationPart(p, ix, ref).0)
  {
    hide NodeId;
    var e := EvaluationPart(p, ix, ref).0;
    if ref in ix.evaluations {
      assert e[0].id in IdsOf(e);
      if |e| > 1 { assert e[1].id in IdsOf(e); }
    }
  }

  lemma ReceiptPartInside(p: Platform, ix: Index, ref: string, ids: set<string>)
    requires ref in ix.evaluations ==> NodeId(EvaluationNode, ref) in ids
    ensures Inside(ReceiptPart(p, ix, ref).1, ids + IdsOf(ReceiptPart(p, ix, ref).0))
  {
    hide NodeId;
    var r := ReceiptPart(p, ix, ref).0;
    if ref in ix.receipts {
      assert r[0].id in IdsOf(r);
      if |r| > 1 { assert r[1].id in IdsOf(r); }
    }
  }

  /** Both ends of every edge of a ref are among its nodes. */
  lemma EdgesOfStayInside(p: Platform, ix: Index, ref: string)
    ensures forall e :: e in EdgesOf(p, ix, ref) ==>
              e.from in IdsOf(NodesOf(p, ix, ref)) && e.to in IdsOf(NodesOf(p, ix, ref))
  {
    hide CommitmentPart, EvaluationPart, ReceiptPart, IdsOf, NodeId;
    var c, e, r := CommitmentPart(p, ix, ref).0, EvaluationPart(p, ix, ref).0, ReceiptPart(p, ix, ref).0;
    CommitmentPartInside(p, ix, ref);
    EvaluationPartInside(p, ix, ref, IdsOf(c));
    ReceiptPartInside(p, ix, ref, IdsOf(c) + IdsOf(e));
    IdsOfConcat(c, e);
    IdsOfConcat(c + e, r);
  }

  lemma {:induction false} AllEdgesHaveRefs(p: Platform, ix: Index, refs: seq<string>, e: Edge)
    ensures e in AllEdges(p, ix, refs) <==> exists i :: 0 <= i < |refs| && e in EdgesOf(p, ix, refs[i])
  {
    hide EdgesOf;
    if |refs| > 0 {
      var n := |refs| - 1;
      AllEdgesHaveRefs(p, ix, refs[..n], e);
      assert forall i :: 0 <= i < n ==> refs[..n][i] == refs[i];
      if e in AllEdges(p, ix, refs) && e !in EdgesOf(p, ix, refs[n]) {
        var i :| 0 <= i < n && e in EdgesOf(p, ix, refs[..n][i]);
        assert e in EdgesOf(p, ix, refs[i]);
      }
      if i :| 0 <= i < |refs| && e in EdgesOf(p, ix, refs[i]) && i < n {
        assert e in EdgesOf(p, ix, refs[..n][i]);
      }
    }
  }

  lemma EndsAreNodes(p: Platform, ix: Index, refs: seq<string>, e: Edge)
    requires StringReasons(ix) && e in AllEdges(p, ix, refs)
    ensures e.from in AllNodes(p, ix, refs) && e.to in AllNodes(p, ix, refs)
  {
    AllNodesAre(p, ix, refs);
    AllEdgesHaveRefs(p, ix, refs, e);
    hide NodesOf, EdgesOf, IdsOf, AllNodes, AllEdges;
    var i :| 0 <= i < |refs| && e in EdgesOf(p, ix, refs[i]);
    EdgesOfStayInside(p, ix, refs[i]);
  }

  /** Node ids in the output are unique and in order. */
  lemma NodeIdsAscend(p: Platform, ix: Index, refs: seq<string>, i: nat, j: nat)
    requires StringReasons(ix) && i < j < |GraphOf(p, ix, refs).nodes|
    ensures Less(GraphOf(p, ix, refs).nodes[i].id, GraphOf(p, ix, refs).nodes[j].id)
  {
    AllNodesAre(p, ix, refs);
    var nodes := AllNodes(p, ix, refs);
    var ids := SortedKeys(nodes.Keys);
    assert ids[i] in ids && ids[j] in ids;
  }

  // ----- order of the refs -----

  lemma CancelOne<T>(m: multiset<T>, n: multiset<T>, x: T)
    requires m + multiset{x} == n + multiset{x}
    ensures m == n
  {
    assert m == (m + multiset{x}) - multiset{x} && n == (n + multiset{x}) - multiset{x};
  }

  lemma {:induction false} EdgeMultiset(p: Platform, ix: Index, a: seq<string>, b: seq<string>)
    requires multiset(a) == multiset(b)
    ensures multiset(AllEdges(p, ix, a)) == multiset(AllEdges(p, ix, b))
    decreases |a|
  {
    hide EdgesOf;
    assert |a| == |multiset(a)| == |multiset(b)| == |b|;
    if |a| > 0 {
      var i := SameWithoutOne(a, b);
      EdgeMultiset(p, ix, a[..|a| - 1], b[..i] + b[i + 1..]);
      EdgesWithout(p, ix, b, i);
    }
  }

  /** Of two lists with the same elements, the last of one is somewhere in the other, and what remains is the same. */
  lemma SameWithoutOne<T>(a: seq<T>, b: seq<T>) returns (i: nat)
    requires multiset(a) == multiset(b) && |a| > 0
    ensures i < |b| && b[i] == a[|a| - 1] && multiset(a[..|a| - 1]) == multiset(b[..i] + b[i + 1..])
  {
    var n := |a| - 1;
    var x := a[n];
    assert x in multiset(b);
    i :| 0 <= i < |b| && b[i] == x;
    MultisetWithout(a, n);
    MultisetWithout(b, i);
    assert a[..n] + a[n + 1..] == a[..n];
    CancelOne(multiset(a[..n]), multiset(b[..i] + b[i + 1..]), x);
  }

  lemma MultisetWithout<T>(s: seq<T>, i: nat)
    requires i < |s|
    ensures multiset(s) == multiset(s[..i] + s[i + 1..]) + multiset{s[i]}
  {
    assert s == s[..i] + [s[i]] + s[i + 1..];
  }

  lemma EdgesConcat(p: Platform, ix: Index, a: seq<string>, b: seq<string>)
    ensures AllEdges(p, ix, a + b) == AllEdges(p, ix, a) + AllEdges(p, ix, b)
    decreases |b|
  {
    hide EdgesOf;
    if |b| == 0 {
      assert a + b == a;
    } else {
      var n := |b| - 1;
      assert (a + b)[..|a + b| - 1] == a + b[..n] && (a + b)[|a + b| - 1] == b[n];
      EdgesConcat(p, ix, a, b[..n]);
    }
  }

  lemma EdgesWithout(p: Platform, ix: Index, b: seq<string>, i: nat)
    requires i < |b|
    ensures multiset(AllEdges(p, ix, b))
            == multiset(AllEdges(p, ix, b[..i] + b[i + 1..])) + multiset(EdgesOf(p, ix, b[i]))
  {
    hide EdgesOf;
    assert b == b[..i] + [b[i]] + b[i + 1..];
    EdgesConcat(p, ix, b[..i] + [b[i]], b[i + 1..]);
    EdgesConcat(p, ix, b[..i], [b[i]]);
    EdgesConcat(p, ix, b[..i], b[i + 1..]);
    assert [b[i]][..0] == [] && AllEdges(p, ix, [b[i]]) == [] + EdgesOf(p, ix, b[i]);
  }

  predicate EdgesAscend(edges: seq<Edge>) {
    forall i, j :: 0 <= i < j < |edges| ==> !EdgeLess(edges[j], edges[i])
  }

  lemma EdgeOrder(a: Edge, b: Edge, c: Edge)
    ensures a == b || EdgeLess(a, b) || EdgeLess(b, a)
    ensures !(EdgeLess(a, b) && EdgeLess(b, a))
    ensures EdgeLess(a, b) && EdgeLess(b, c) ==> EdgeLess(a, c)
  {
    hide Less;
    LessTotal(a.kind, b.kind);
    LessTotal(a.from, b.from);
    LessTotal(a.to, b.to);
    if EdgeLess(a, b) && EdgeLess(b, c) {
      if Less(a.kind, b.kind) && Less(b.kind, c.kind) { LessTransitive(a.kind, b.kind, c.kind); }
      if Less(a.from, b.from) && Less(b.from, c.from) { LessTransitive(a.from, b.from, c.from); }
      if Less(a.to, b.to) && Less(b.to, c.to) { LessTransitive(a.to, b.to, c.to); }
    }
  }

  lemma {:induction false} InsertEdgeSorts(e: Edge, edges: seq<Edge>)
    requires EdgesAscend(edges)
    ensures EdgesAscend(InsertEdge(e, edges))
    ensures multiset(InsertEdge(e, edges)) == multiset(edges) + multiset{e}
  {
    hide EdgeLess;
    if |edges| > 0 {
      assert edges == [edges[0]] + edges[1..];
      EdgeOrder(e, edges[0], edges[0]);
      if EdgeLess(e, edges[0]) {
        forall x | x in edges ensures !EdgeLess(x, e) {
          EdgeOrder(x, e, edges[0]);
          EdgeOrder(e, edges[0], edges[0]);
        }
        PrependAscends(e, edges);
      } else {
        InsertEdgeSorts(e, edges[1..]);
        var t := InsertEdge(e, edges[1..]);
        forall x | x in t ensures !EdgeLess(x, edges[0]) {
          assert x in multiset(t);
          assert x == e || x in edges[1..];
        }
        PrependAscends(edges[0], t);
      }
    }
  }

  lemma PrependAscends(e: Edge, edges: seq<Edge>)
    requires EdgesAscend(edges) && forall x :: x in edges ==> !EdgeLess(x, e)
    ensures EdgesAscend([e] + edges)
  {
    hide EdgeLess;
  }

  lemma {:induction false} SortEdgesSorts(edges: seq<Edge>)
    ensures EdgesAscend(SortEdges(edges)) && multiset(SortEdges(edges)) == multiset(edges)
  {
    if |edges| > 0 {
      var n := |edges| - 1;
      SortEdgesSorts(edges[..n]);
      InsertEdgeSorts(edges[n], SortEdges(edges[..n]));
      assert edges == edges[..n] + [edges[n]];
    }
  }

  lemma SameLeastEdge(a: seq<Edge>, b: seq<Edge>)
    requires EdgesAscend(a) && EdgesAscend(b) && multiset(a) == multiset(b) && |a| > 0 && |b| > 0
    ensures a[0] == b[0]
  {
    hide EdgeLess;
    assert a[0] in multiset(b) && b[0] in multiset(a);
    var i :| 0 <= i < |b| && b[i] == a[0];
    var j :| 0 <= j < |a| && a[j] == b[0];
    EdgeOrder(a[0], b[0], b[0]);
  }

  /** There is one ascending list of given edges. */
  lemma {:induction false} AscendingUnique(a: seq<Edge>, b: seq<Edge>)
    requires EdgesAscend(a) && EdgesAscend(b) && multiset(a) == multiset(b)
    ensures a == b
    decreases |a|
  {
    hide EdgeLess;
    assert |a| == |multiset(a)| == |multiset(b)| == |b|;
    if |a| > 0 {
      SameLeastEdge(a, b);
      assert a == [a[0]] + a[1..] && b == [b[0]] + b[1..];
      assert multiset(a) == multiset(a[1..]) + multiset{a[0]} && multiset(b) == multiset(b[1..]) + multiset{b[0]};
      CancelOne(multiset(a[1..]), multiset(b[1..]), a[0]);
      AscendingUnique(a[1..], b[1..]);
    }
  }

  lemma IdsForPermutation(p: Platform, ix: Index, a: seq<string>, b: seq<string>)
    requires forall ref :: ref in a ==> ref in b
    ensures IdsFor(p, ix, a) <= IdsFor(p, ix, b)
  {
    hide NodesOf, IdsOf;
    forall id | id in IdsFor(p, ix, a) ensures id in IdsFor(p, ix, b) {
      var i :| 0 <= i < |a| && id in IdsOf(NodesOf(p, ix, a[i]));
      assert a[i] in b;
      var j :| 0 <= j < |b| && b[j] == a[i];
    }
  }

  /** The output is the same for every order of the refs. */
  lemma OrderDoesNotMatter(p: Platform, ix: Index, a: seq<string>, b: seq<string>)
    requires StringReasons(ix) && multiset(a) == multiset(b)
    ensures GraphOf(p, ix, a) == GraphOf(p, ix, b)
  {
    forall ref ensures ref in a <==> ref in b {
      assert ref in a <==> ref in multiset(a);
      assert ref in b <==> ref in multiset(b);
    }
    AllNodesAre(p, ix, a);
    AllNodesAre(p, ix, b);
    IdsForPermutation(p, ix, a, b);
    IdsForPermutation(p, ix, b, a);
    EdgeMultiset(p, ix, a, b);
    hide AllNodes, AllEdges, EdgesAscend, SortEdges, SortNodes, IdsFor, AllFaithful;
    SameIdsSameNodes(ix, AllNodes(p, ix, a), AllNodes(p, ix, b));
    SortEdgesSorts(AllEdges(p, ix, a));
    SortEdgesSorts(AllEdges(p, ix, b));
    AscendingUnique(SortEdges(AllEdges(p, ix, a)), SortEdges(AllEdges(p, ix, b)));
  }

  // ----- the returned graph -----

  /** The returned nodes are the collected ones. */
  lemma NodesReturned(p: Platform, ix: Index, refs: seq<string>, n: Node)
    requires StringReasons(ix)
    ensures n in GraphOf(p, ix, refs).nodes <==> n.id in AllNodes(p, ix, refs) && AllNodes(p, ix, refs)[n.id] == n
  {
    AllNodesAre(p, ix, refs);
    hide AllNodes, AllEdges, SortEdges, SortNodes;
    NodesSorted(AllNodes(p, ix, refs), n);
  }

  lemma NodesSorted(nodes: Nodes, n: Node)
    requires forall id :: id in nodes ==> nodes[id].id == id
    ensures n in SortNodes(nodes) <==> n.id in nodes && nodes[n.id] == n
  {
    hide SortedKeys;
    var ids, out := SortedKeys(nodes.Keys), SortNodes(nodes);
    assert |out| == |ids| && forall i :: 0 <= i < |ids| ==> ids[i] in nodes && out[i] == nodes[ids[i]];
    if n.id in nodes && nodes[n.id] == n {
      assert n.id in ids;
      var i :| 0 <= i < |ids| && ids[i] == n.id;
      assert out[i] == n;
    }
  }

  /** The returned edges are the collected ones. */
  lemma EdgesReturned(p: Platform, ix: Index, refs: seq<string>, e: Edge)
    ensures e in GraphOf(p, ix, refs).edges <==> e in AllEdges(p, ix, refs)
  {
    hide AllEdges, SortEdges, SortNodes;
    var edges := AllEdges(p, ix, refs);
    SortEdgesSorts(edges);
    assert e in SortEdges(edges) <==> e in multiset(SortEdges(edges));
    assert e in edges <==> e in multiset(edges);
  }

  /** No edge dangles: both ends of every returned edge are ids of returned nodes. */
  lemma NoEdgeDangles(p: Platform, ix: Index, refs: seq<string>, i: nat) returns (from: Node, to: Node)
    requires StringReasons(ix) && i < |GraphOf(p, ix, refs).edges|
    ensures var g := GraphOf(p, ix, refs);
            from in g.nodes && to in g.nodes && from.id == g.edges[i].from && to.id == g.edges[i].to
  {
    var e := GraphOf(p, ix, refs).edges[i];
    EdgesReturned(p, ix, refs, e);
    EndsAreNodes(p, ix, refs, e);
    AllNodesAre(p, ix, refs);
    hide AllNodes, AllEdges, SortEdges, SortNodes, Faithful;
    from, to := AllNodes(p, ix, refs)[e.from], AllNodes(p, ix, refs)[e.to];
    NodesReturned(p, ix, refs, from);
    NodesReturned(p, ix, refs, to);
  }

  /**
   The graph of a union of selections is the union of their graphs: whatever list `u` names the refs of `a` and of `b`,
   overlapping or not, its returned nodes and edges are those of the two graphs.
  */
  lemma UnionOfGraphs(p: Platform, ix: Index, a: seq<string>, b: seq<string>, u: seq<string>)
    requires StringReasons(ix) && forall ref :: ref in u <==> ref in a || ref in b
    ensures var g, h, union := GraphOf(p, ix, a), GraphOf(p, ix, b), GraphOf(p, ix, u);
            && (forall n :: n in union.nodes <==> n in g.nodes || n in h.nodes)
            && (forall e :: e in union.edges <==> e in g.edges || e in h.edges)
  {
    hide GraphOf, StringReasons;
    forall n ensures n in GraphOf(p, ix, u).nodes <==> n in GraphOf(p, ix, a).nodes || n in GraphOf(p, ix, b).nodes {
      UnionOfNodes(p, ix, a, b, u, n);
    }
    forall e ensures e in GraphOf(p, ix, u).edges <==> e in GraphOf(p, ix, a).edges || e in GraphOf(p, ix, b).edges {
      UnionOfEdges(p, ix, a, b, u, e);
    }
  }

  lemma UnionOfNodes(p: Platform, ix: Index, a: seq<string>, b: seq<string>, u: seq<string>, n: Node)
    requires StringReasons(ix) && forall ref :: ref in u <==> ref in a || ref in b
    ensures n in GraphOf(p, ix, u).nodes <==> n in GraphOf(p, ix, a).nodes || n in GraphOf(p, ix, b).nodes
  {
    NodesReturned(p, ix, a, n);
    NodesReturned(p, ix, b, n);
    NodesReturned(p, ix, u, n);
    AllNodesAre(p, ix, a);
    AllNodesAre(p, ix, b);
    AllNodesAre(p, ix, u);
    UnionIds(p, ix, a, b, u);
    hide *;
    UnionOfFaithful(ix, AllNodes(p, ix, a), AllNodes(p, ix, b), AllNodes(p, ix, u), n);
  }

  lemma UnionOfFaithful(ix: Index, x: Nodes, y: Nodes, z: Nodes, n: Node)
    requires AllFaithful(ix, x) && AllFaithful(ix, y) && AllFaithful(ix, z) && z.Keys == x.Keys + y.Keys
    ensures n.id in z && z[n.id] == n <==> (n.id in x && x[n.id] == n) || (n.id in y && y[n.id] == n)
  {
    hide Faithful;
    if n.id in x { FaithfulById(ix, x[n.id], z[n.id]); }
    if n.id in y { FaithfulById(ix, y[n.id], z[n.id]); }
  }

  lemma UnionOfEdges(p: Platform, ix: Index, a: seq<string>, b: seq<string>, u: seq<string>, e: Edge)
    requires forall ref :: ref in u <==> ref in a || ref in b
    ensures e in GraphOf(p, ix, u).edges <==> e in GraphOf(p, ix, a).edges || e in GraphOf(p, ix, b).edges
  {
    EdgesReturned(p, ix, a, e);
    EdgesReturned(p, ix, b, e);
    EdgesReturned(p, ix, u, e);
    AllEdgesHaveRefs(p, ix, a, e);
    AllEdgesHaveRefs(p, ix, b, e);
    AllEdgesHaveRefs(p, ix, u, e);
    hide EdgesOf, AllEdges, GraphOf;
    if i :| 0 <= i < |a| && e in EdgesOf(p, ix, a[i]) {
      assert a[i] in u;
      var k :| 0 <= k < |u| && u[k] == a[i];
    }
    if i :| 0 <= i < |b| && e in EdgesOf(p, ix, b[i]) {
      assert b[i] in u;
      var k :| 0 <= k < |u| && u[k] == b[i];
    }
    if k :| 0 <= k < |u| && e in EdgesOf(p, ix, u[k]) {
      if u[k] in a {
        var i :| 0 <= i < |a| && a[i] == u[k];
      } else {
        var i :| 0 <= i < |b| && b[i] == u[k];
      }
    }
  }

  lemma UnionIds(p: Platform, ix: Index, a: seq<string>, b: seq<string>, u: seq<string>)
    requires forall ref :: ref in u <==> ref in a || ref in b
    ensures IdsFor(p, ix, u) == IdsFor(p, ix, a) + IdsFor(p, ix, b)
  {
    hide NodesOf, IdsOf;
    IdsForPermutation(p, ix, a, u);
    IdsForPermutation(p, ix, b, u);
    forall id | id in IdsFor(p, ix, u) ensures id in IdsFor(p, ix, a) || id in IdsFor(p, ix, b) {
      var k :| 0 <= k < |u| && id in IdsOf(NodesOf(p, ix, u[k]));
      if u[k] in a {
        var i :| 0 <= i < |a| && a[i] == u[k];
      } else {
        var i :| 0 <= i < |b| && b[i] == u[k];
      }
    }
  }

  // ----- a selection without repeats has no repeated edge -----

  predicate NoRepeat<T(==)>(s: seq<T>) {
    forall i, j :: 0 <= i < j < |s| ==> s[i] != s[j]
  }

  lemma NoRepeatConcat<T>(a: seq<T>, b: seq<T>)
    requires NoRepeat(a) && NoRepeat(b) && forall x :: x in a ==> x !in b
    ensures NoRepeat(a + b)
  {
    forall i, j | 0 <= i < j < |a + b| ensures (a + b)[i] != (a + b)[j] {
      if i < |a| <= j { assert a[i] in a && b[j - |a|] in b; }
    }
  }

  lemma {:induction false} NoRepeatCount<T>(s: seq<T>)
    ensures NoRepeat(s) <==> forall x :: multiset(s)[x] <= 1
  {
    if |s| > 0 {
      var n := |s| - 1;
      NoRepeatCount(s[..n]);
      assert s == s[..n] + [s[n]];
      assert s[n] in s[..n] <==> s[n] in multiset(s[..n]);
      if NoRepeat(s) {
        assert s[n] !in s[..n];
      } else if NoRepeat(s[..n]) {
        var i, j :| 0 <= i < j < |s| && s[i] == s[j];
        assert j == n && s[..n][i] == s[n];
        assert multiset(s)[s[n]] > 1;
      } else {
        var x :| multiset(s[..n])[x] > 1;
        assert multiset(s)[x] > 1;
      }
    }
  }

  predicate StartsAt(edges: seq<Edge>, from: string) {
    forall e :: e in edges ==> e.from == from
  }

  lemma PartsStart(p: Platform, ix: Index, ref: string)
    ensures StartsAt(CommitmentPart(p, ix, ref).1, NodeId(CommitmentNode, ref))
            && NoRepeat(CommitmentPart(p, ix, ref).1)
    ensures StartsAt(EvaluationPart(p, ix, ref).1, NodeId(EvaluationNode, ref))
            && NoRepeat(EvaluationPart(p, ix, ref).1)
    ensures StartsAt(ReceiptPart(p, ix, ref).1, NodeId(ReceiptNode, ref)) && NoRepeat(ReceiptPart(p, ix, ref).1)
  {
    hide NodeId, Shown;
  }

  /** An edge starts at an artifact node of the ref that contributes it. */
  lemma EdgesOfNoRepeat(p: Platform, ix: Index, ref: string)
    ensures NoRepeat(EdgesOf(p, ix, ref))
    ensures forall e :: e in EdgesOf(p, ix, ref) ==> exists k :: e.from == NodeId(k, ref)
  {
    PartsStart(p, ix, ref);
    hide CommitmentPart, EvaluationPart, ReceiptPart, NodeId, NoRepeat;
    if NodeId(CommitmentNode, ref) == NodeId(EvaluationNode, ref) {
      NodeIdInjective(CommitmentNode, ref, EvaluationNode, ref);
    }
    if NodeId(CommitmentNode, ref) == NodeId(ReceiptNode, ref) {
      NodeIdInjective(CommitmentNode, ref, ReceiptNode, ref);
    }
    if NodeId(EvaluationNode, ref) == NodeId(ReceiptNode, ref) {
      NodeIdInjective(EvaluationNode, ref, ReceiptNode, ref);
    }
    var c, e, r := CommitmentPart(p, ix, ref).1, EvaluationPart(p, ix, ref).1, ReceiptPart(p, ix, ref).1;
    NoRepeatConcat(c, e);
    NoRepeatConcat(c + e, r);
  }

  lemma {:induction false} AllEdgesNoRepeat(p: Platform, ix: Index, refs: seq<string>)
    requires NoRepeat(refs)
    ensures NoRepeat(AllEdges(p, ix, refs))
  {
    hide EdgesOf, NodeId;
    if |refs| > 0 {
      var n := |refs| - 1;
      AllEdgesNoRepeat(p, ix, refs[..n]);
      EdgesOfNoRepeat(p, ix, refs[n]);
      forall e | e in AllEdges(p, ix, refs[..n]) ensures e !in EdgesOf(p, ix, refs[n]) {
        AllEdgesHaveRefs(p, ix, refs[..n], e);
        var i :| 0 <= i < n && e in EdgesOf(p, ix, refs[..n][i]);
        EdgesOfNoRepeat(p, ix, refs[i]);
        if e in EdgesOf(p, ix, refs[n]) {
          var j, k :| e.from == NodeId(j, refs[i]) && e.from == NodeId(k, refs[n]);
          NodeIdInjective(j, refs[i], k, refs[n]);
        }
      }
      hide NoRepeat;
      NoRepeatConcat(AllEdges(p, ix, refs[..n]), EdgesOf(p, ix, refs[n]));
    }
  }

  /** For a duplicate-free selection the returned edges are unique and in order, so the two sets fix the output. */
  lemma EdgesStrictlyAscend(p: Platform, ix: Index, refs: seq<string>, i: nat, j: nat)
    requires NoRepeat(refs) && i < j < |GraphOf(p, ix, refs).edges|
    ensures EdgeLess(GraphOf(p, ix, refs).edges[i], GraphOf(p, ix, refs).edges[j])
  {
    AllEdgesNoRepeat(p, ix, refs);
    var edges := AllEdges(p, ix, refs);
    var out := SortEdges(edges);
    SortEdgesSorts(edges);
    NoRepeatCount(edges);
    NoRepeatCount(out);
    hide AllEdges, SortEdges, SortNodes, EdgeLess;
    EdgeOrder(out[i], out[j], out[j]);
  }

  // ----- what the returned graph says -----

  lemma IdTexts(value: string)
    ensures NodeId(CommitmentNode, value) == "action_commitment:" + value
    ensures NodeId(EvaluationNode, value) == "deterministic_evaluation_record:" + value
    ensures NodeId(ReceiptNode, value) == "continuity_evaluation_receipt:" + value
    ensures NodeId(RefValue, value) == "action_ref:" + value
    ensures NodeId(EvaluatorValue, value) == "evaluator_identity:" + value
    ensures NodeId(ReasonValue, value) == "reason_code:" + value
  {
    assert "action_commitment" + ":" == "action_commitment:";
    assert "deterministic_evaluation_record" + ":" == "deterministic_evaluation_record:";
    assert "continuity_evaluation_receipt" + ":" == "continuity_evaluation_receipt:";
    assert "action_ref" + ":" == "action_ref:";
    assert "evaluator_identity" + ":" == "evaluator_identity:";
    assert "reason_code" + ":" == "reason_code:";
  }

  /** The relation an edge stands for, read off the latest records of one ref. */
  predicate Relates(p: Platform, ix: Index, ref: string, e: Edge) {
    var evaluation := if ref in ix.evaluations then ix.evaluations[ref] else Null;
    var receipt := if ref in ix.receipts then ix.receipts[ref] else Null;
    var reason, key := evaluation.Get("reason_code"), receipt.Get("signature").Get("key_id");
    || (ref in ix.commitments && e == Edge("references", "action_commitment:" + ref, "action_ref:" + ref))
    || (ref in ix.evaluations && ref in ix.commitments
        && e == Edge("evaluates", "deterministic_evaluation_record:" + ref, "action_commitment:" + ref))
    || (!reason.Null?
        && e == Edge("has_reason_code", "deterministic_evaluation_record:" + ref, "reason_code:" + Shown(p, reason)))
    || (ref in ix.receipts && ref in ix.evaluations
        && e == Edge("attests_evaluation", "continuity_evaluation_receipt:" + ref,
                     "deterministic_evaluation_record:" + ref))
    || (key.NonEmptyStr()
        && e == Edge("signed_by", "continuity_evaluation_receipt:" + ref, "evaluator_identity:" + key.s))
  }

  lemma EdgesOfRelate(p: Platform, ix: Index, ref: string, e: Edge)
    ensures e in EdgesOf(p, ix, ref) <==> Relates(p, ix, ref, e)
  {
    hide NodeId, Shown;
    IdTexts(ref);
    if ref in ix.evaluations {
      var reason := ix.evaluations[ref].Get("reason_code");
      IdTexts(Shown(p, reason));
    }
    if ref in ix.receipts {
      var key := ix.receipts[ref].Get("signature").Get("key_id");
      if key.NonEmptyStr() { IdTexts(key.s); }
    }
  }

  /** The returned edges are exactly the relations of the selected refs, each with its kind and in its direction. */
  lemma EdgesIff(p: Platform, ix: Index, refs: seq<string>, e: Edge)
    ensures e in GraphOf(p, ix, refs).edges <==> exists i :: 0 <= i < |refs| && Relates(p, ix, refs[i], e)
  {
    EdgesReturned(p, ix, refs, e);
    AllEdgesHaveRefs(p, ix, refs, e);
    hide *;
    forall i | 0 <= i < |refs| ensures e in EdgesOf(p, ix, refs[i]) <==> Relates(p, ix, refs[i], e) {
      EdgesOfRelate(p, ix, refs[i], e);
    }
  }

  /** What a node stands for: an artifact with what its record says, or a value one of them names. */
  predicate Presents(ix: Index, ref: string, n: Node) {
    var commitment := if ref in ix.commitments then ix.commitments[ref] else Null;
    var evaluation := if ref in ix.evaluations then ix.evaluations[ref] else Null;
    var receipt := if ref in ix.receipts then ix.receipts[ref] else Null;
    var reason, signature := evaluation.Get("reason_code"), receipt.Get("signature");
    var key := signature.Get("key_id");
    || (ref in ix.commitments
        && n == Artifact("action_commitment:" + ref, CommitmentNode, ref,
                         commitment.Get("action_commitment").Get("schema_id"), Null, Null, Null, Null, false))
    || (ref in ix.commitments && n == Value("action_ref:" + ref, RefValue, Str(ref)))
    || (ref in ix.evaluations
        && n == Artifact("deterministic_evaluation_record:" + ref, EvaluationNode, ref, evaluation.Get("schema_id"),
                         evaluation.Get("result"), reason, Null, Null, false))
    || (reason.Str? && n == Value("reason_code:" + reason.s, ReasonValue, reason))
    || (ref in ix.receipts
        && n == Artifact("continuity_evaluation_receipt:" + ref, ReceiptNode, ref, receipt.Get("schema_id"),
                         receipt.Get("evaluation_state"), receipt.Get("reason_code"), receipt.Get("evaluator_id"),
                         receipt.Get("evaluated_at"), signature.Obj?))
    || (key.NonEmptyStr() && n == Value("evaluator_identity:" + key.s, EvaluatorValue, key))
  }

  lemma NodesOfPresent(p: Platform, ix: Index, ref: string, n: Node)
    requires StringReasons(ix)
    ensures n in NodesOf(p, ix, ref) <==> Presents(ix, ref, n)
  {
    CommitmentNodes(p, ix, ref, n);
    EvaluationNodes(p, ix, ref, n);
    ReceiptNodes(p, ix, ref, n);
    hide CommitmentPart, EvaluationPart, ReceiptPart, Json.Get, StringReasons;
  }

  lemma CommitmentNodes(p: Platform, ix: Index, ref: string, n: Node)
    ensures n in CommitmentPart(p, ix, ref).0 <==>
            ref in ix.commitments
            && (n == Artifact("action_commitment:" + ref, CommitmentNode, ref,
                              ix.commitments[ref].Get("action_commitment").Get("schema_id"), Null, Null, Null, Null,
                              false)
                || n == Value("action_ref:" + ref, RefValue, Str(ref)))
  {
    IdTexts(ref);
    hide NodeId, Json.Get;
  }

  lemma EvaluationNodes(p: Platform, ix: Index, ref: string, n: Node)
    requires StringReasons(ix)
    ensures var r := if ref in ix.evaluations then ix.evaluations[ref] else Null;
            var reason := r.Get("reason_code");
            n in EvaluationPart(p, ix, ref).0 <==>
            || (ref in ix.evaluations
                && n == Artifact("deterministic_evaluation_record:" + ref, EvaluationNode, ref, r.Get("schema_id"),
                                 r.Get("result"), reason, Null, Null, false))
            || (reason.Str? && n == Value("reason_code:" + reason.s, ReasonValue, reason))
  {
    hide NodeId;
    IdTexts(ref);
    if ref in ix.evaluations {
      var reason := ix.evaluations[ref].Get("reason_code");
      if reason.Str? { IdTexts(reason.s); }
    }
  }

  lemma ReceiptNodes(p: Platform, ix: Index, ref: string, n: Node)
    ensures var r := if ref in ix.receipts then ix.receipts[ref] else Null;
            var signature := r.Get("signature");
            var key := signature.Get("key_id");
            n in ReceiptPart(p, ix, ref).0 <==>
            || (ref in ix.receipts
                && n == Artifact("continuity_evaluation_receipt:" + ref, ReceiptNode, ref, r.Get("schema_id"),
                                 r.Get("evaluation_state"), r.Get("reason_code"), r.Get("evaluator_id"),
                                 r.Get("evaluated_at"), signature.Obj?))
            || (key.NonEmptyStr() && n == Value("evaluator_identity:" + key.s, EvaluatorValue, key))
  {
    hide NodeId;
    IdTexts(ref);
    if ref in ix.receipts {
      var key := ix.receipts[ref].Get("signature").Get("key_id");
      if key.NonEmptyStr() { IdTexts(key.s); }
    }
  }

  /** The returned nodes are exactly the artifacts and values of the selected refs. */
  lemma NodesIff(p: Platform, ix: Index, refs: seq<string>, n: Node)
    requires StringReasons(ix)
    ensures n in GraphOf(p, ix, refs).nodes <==> exists i :: 0 <= i < |refs| && Presents(ix, refs[i], n)
  {
    hide NodesOf, AllNodes, GraphOf, Presents, Faithful, StringReasons;
    NodesReturned(p, ix, refs, n);
    AllNodesAre(p, ix, refs);
    forall i | 0 <= i < |refs|
      ensures n in NodesOf(p, ix, refs[i]) <==> Presents(ix, refs[i], n)
      ensures EachFaithful(ix, NodesOf(p, ix, refs[i]))
    {
      NodesOfPresent(p, ix, refs[i], n);
      NodesFaithful(p, ix, refs[i]);
    }
    if n.id in AllNodes(p, ix, refs) && AllNodes(p, ix, refs)[n.id] == n {
      var i :| 0 <= i < |refs| && n.id in IdsOf(NodesOf(p, ix, refs[i]));
      NodeOfId(ix, NodesOf(p, ix, refs[i]), n);
    }
    if i :| 0 <= i < |refs| && n in NodesOf(p, ix, refs[i]) {
      var j :| 0 <= j < |NodesOf(p, ix, refs[i])| && NodesOf(p, ix, refs[i])[j] == n;
      assert n.id in IdsOf(NodesOf(p, ix, refs[i]));
      FaithfulById(ix, n, AllNodes(p, ix, refs)[n.id]);
    }
  }

  lemma NodeOfId(ix: Index, nodes: seq<Node>, n: Node)
    requires EachFaithful(ix, nodes) && Faithful(ix, n) && n.id in IdsOf(nodes)
    ensures n in nodes
  {
    hide Faithful;
    var j :| 0 <= j < |nodes| && nodes[j].id == n.id;
    FaithfulById(ix, n, nodes[j]);
  }
}
