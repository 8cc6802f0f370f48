/**
 * The execution planner of Graph/src/runtime_graph.rs. `RuntimeGraph::run`
 * decides which nodes of a dataflow graph must execute: a backward worklist
 * from the output nodes collects the upstream nodes, a first forward pass
 * propagates incompleteness, a second forward pass applies the execution
 * rule, and the result becomes `prev_run` for the next call.
 *
 * The graph accessors the planner calls (`inputs_by_node_id`,
 * `edge_by_input_id`, `output_by_id`, `node_by_id`) are not part of this
 * model; the graph is given abstractly as `InputGraph`.
 */
module Runtime {
  import opened Wrappers
  import opened Seqs
  import Graph

  type NodeId = nat

  datatype EdgeBehavior = Always | Once

  /** A bound input's edge: the upstream node producing the value, and how it is consumed. */
  datatype Edge = Edge(upstream: NodeId, behavior: EdgeBehavior)
  datatype InputSlot = InputSlot(isRequired: bool, edge: Option<Edge>)
  datatype GraphNode = GraphNode(id: NodeId, behavior: Graph.NodeBehavior, isOutput: bool, inputs: seq<InputSlot>)
  datatype InputGraph = InputGraph(nodes: seq<GraphNode>)

  /** `IntermediateNode`: the planner's record for one node. */
  datatype IntermediateNode = IntermediateNode(
    nodeId: NodeId,
    behavior: Graph.NodeBehavior,
    isComplete: bool,
    edgeBehavior: EdgeBehavior,
    shouldExecute: bool,
    hasOutputs: bool)

  // ---------------------------------------------------------------- the input graph

  function Ids(g: InputGraph): set<NodeId>
  {
    set n | n in g.nodes :: n.id
  }

  /**
   * What the unseen graph accessors guarantee: node ids are unique, and
   * every edge starts at an existing node (`output_by_id(..).unwrap()` and
   * `node_by_id(..).unwrap()` do not panic).
   */
  predicate ValidInput(g: InputGraph)
  {
    && (forall i, j :: 0 <= i < j < |g.nodes| ==> g.nodes[i].id != g.nodes[j].id)
    && (forall i, k :: 0 <= i < |g.nodes| && 0 <= k < |g.nodes[i].inputs| && g.nodes[i].inputs[k].edge.Some?
                       ==> g.nodes[i].inputs[k].edge.value.upstream in Ids(g))
  }

  function IsNode(id: NodeId): GraphNode -> bool
  {
    (n: GraphNode) => n.id == id
  }

  /** `node_by_id(id).unwrap()`. */
  function NodeOf(g: InputGraph, id: NodeId): (n: GraphNode)
    requires id in Ids(g)
    ensures n in g.nodes && n.id == id
  {
    var i := FirstIndex(g.nodes, IsNode(id));
    assert i.Some? by {
      var n :| n in g.nodes && n.id == id;
      var j :| 0 <= j < |g.nodes| && g.nodes[j] == n;
      assert IsNode(id)(g.nodes[j]);
    }
    g.nodes[i.value]
  }

  /** `inputs_by_node_id(id)`. */
  function InputsOf(g: InputGraph, id: NodeId): (r: seq<InputSlot>)
    ensures ValidInput(g) ==>
              forall j :: 0 <= j < |r| && r[j].edge.Some? ==> r[j].edge.value.upstream in Ids(g)
  {
    if id in Ids(g) then
      var n := NodeOf(g, id);
      assert exists i :: 0 <= i < |g.nodes| && g.nodes[i] == n;
      n.inputs
    else []
  }

  // ---------------------------------------------------------------- records

  predicate DistinctIds(recs: seq<IntermediateNode>)
  {
    forall i, j :: 0 <= i < j < |recs| ==> recs[i].nodeId != recs[j].nodeId
  }

  predicate HasRecord(recs: seq<IntermediateNode>, id: NodeId)
  {
    exists m :: 0 <= m < |recs| && recs[m].nodeId == id
  }

  function HasId(id: NodeId): IntermediateNode -> bool
  {
    (r: IntermediateNode) => r.nodeId == id
  }

  /** `iter().position(|node| node.node_id == id)`. */
  function IndexOf(recs: seq<IntermediateNode>, id: NodeId): (r: Option<nat>)
    ensures r.None? <==> !HasRecord(recs, id)
    ensures r.Some? ==> r.value < |recs| && recs[r.value].nodeId == id
    ensures r.Some? && DistinctIds(recs) ==> forall m :: 0 <= m < |recs| && recs[m].nodeId == id ==> m == r.value
  {
    var r := FirstIndex(recs, HasId(id));
    assert r.None? <==> forall m :: 0 <= m < |recs| ==> !HasId(id)(recs[m]);
    r
  }

  /** `iter().find(|node| node.node_id == id).unwrap()`. */
  function RecordOf(recs: seq<IntermediateNode>, id: NodeId): (r: IntermediateNode)
    requires HasRecord(recs, id)
    ensures r in recs && r.nodeId == id
  {
    recs[IndexOf(recs, id).value]
  }

  /** The ids of `recs` are all nodes of `g` and pairwise distinct. */
  predicate WorklistOk(g: InputGraph, recs: seq<IntermediateNode>)
  {
    DistinctIds(recs) && forall k :: 0 <= k < |recs| ==> recs[k].nodeId in Ids(g)
  }

  lemma {:induction false} DistinctIdsBound(recs: seq<IntermediateNode>, ids: set<NodeId>)
    requires DistinctIds(recs) && forall k :: 0 <= k < |recs| ==> recs[k].nodeId in ids
    ensures |recs| <= |ids|
    decreases |recs|
  {
    if recs != [] {
      var last := recs[|recs| - 1];
      DistinctIdsBound(recs[..|recs| - 1], ids - {last.nodeId});
    }
  }

  function Reversed<T>(s: seq<T>): (r: seq<T>)
    ensures |r| == |s|
    ensures forall i :: 0 <= i < |s| ==> r[i] == s[|s| - 1 - i]
  {
    seq(|s|, i requires 0 <= i < |s| => s[|s| - 1 - i])
  }

  // ---------------------------------------------------------------- backward pass

  /** The record of an output node: Active, Always, complete, no outputs yet. */
  function SeedRecord(n: GraphNode): IntermediateNode
  {
    IntermediateNode(n.id, Graph.Active, true, Always, false, false)
  }

  /** The records `traverse_backward` starts from: one per `is_output` node, in graph order. */
  function Seeds(nodes: seq<GraphNode>): (r: seq<IntermediateNode>)
    ensures |r| <= |nodes|
  {
    if nodes == [] then []
    else (if nodes[0].isOutput then [SeedRecord(nodes[0])] else []) + Seeds(nodes[1..])
  }

  /** Each seed is the record of an output node, and each output node has one. */
  lemma {:induction false} SeedsAreOutputs(nodes: seq<GraphNode>)
    ensures forall k :: 0 <= k < |Seeds(nodes)| ==>
              exists i :: 0 <= i < |nodes| && nodes[i].isOutput && Seeds(nodes)[k] == SeedRecord(nodes[i])
    ensures forall i :: 0 <= i < |nodes| && nodes[i].isOutput ==> SeedRecord(nodes[i]) in Seeds(nodes)
    decreases |nodes|
  {
    if nodes != [] {
      var head := if nodes[0].isOutput then [SeedRecord(nodes[0])] else [];
      var rest := Seeds(nodes[1..]);
      assert Seeds(nodes) == head + rest;
      SeedsAreOutputs(nodes[1..]);
      forall k | 0 <= k < |Seeds(nodes)|
        ensures exists i :: 0 <= i < |nodes| && nodes[i].isOutput && Seeds(nodes)[k] == SeedRecord(nodes[i])
      {
        if k < |head| {
          assert nodes[0].isOutput && Seeds(nodes)[k] == SeedRecord(nodes[0]);
        } else {
          var i :| 0 <= i < |nodes[1..]| && nodes[1..][i].isOutput && rest[k - |head|] == SeedRecord(nodes[1..][i]);
          assert nodes[i + 1] == nodes[1..][i];
          assert nodes[i + 1].isOutput && Seeds(nodes)[k] == SeedRecord(nodes[i + 1]);
        }
      }
      forall i | 0 <= i < |nodes| && nodes[i].isOutput ensures SeedRecord(nodes[i]) in Seeds(nodes) {
        if i > 0 {
          assert nodes[1..][i - 1] == nodes[i];
          assert SeedRecord(nodes[i]) in rest;
        } else {
          assert head == [SeedRecord(nodes[0])];
        }
      }
    } else {
      assert Seeds(nodes) == [];
    }
  }

  /** Distinct graph ids give distinct seed ids. */
  lemma {:induction false} SeedsDistinct(nodes: seq<GraphNode>)
    requires forall i, j :: 0 <= i < j < |nodes| ==> nodes[i].id != nodes[j].id
    ensures DistinctIds(Seeds(nodes))
    decreases |nodes|
  {
    if nodes != [] {
      var head := if nodes[0].isOutput then [SeedRecord(nodes[0])] else [];
      var rest := Seeds(nodes[1..]);
      assert Seeds(nodes) == head + rest;
      assert forall i, j :: 0 <= i < j < |nodes[1..]| ==> nodes[1..][i].id != nodes[1..][j].id by {
        forall i, j | 0 <= i < j < |nodes[1..]| ensures nodes[1..][i].id != nodes[1..][j].id {
          assert nodes[1..][i] == nodes[i + 1] && nodes[1..][j] == nodes[j + 1];
        }
      }
      SeedsDistinct(nodes[1..]);
      assert forall i :: 0 <= i < |nodes[1..]| ==> nodes[1..][i].id != nodes[0].id by {
        forall i | 0 <= i < |nodes[1..]| ensures nodes[1..][i].id != nodes[0].id {
          assert nodes[1..][i] == nodes[i + 1];
        }
      }
      SeedsAvoid(nodes[1..], nodes[0].id);
    }
  }

  /** A node id that no graph node carries is the id of no seed. */
  lemma {:induction false} SeedsAvoid(nodes: seq<GraphNode>, x: NodeId)
    requires forall i :: 0 <= i < |nodes| ==> nodes[i].id != x
    ensures forall k :: 0 <= k < |Seeds(nodes)| ==> Seeds(nodes)[k].nodeId != x
    decreases |nodes|
  {
    if nodes != [] {
      var head := if nodes[0].isOutput then [SeedRecord(nodes[0])] else [];
      assert Seeds(nodes) == head + Seeds(nodes[1..]);
      assert forall i :: 0 <= i < |nodes[1..]| ==> nodes[1..][i].id != x by {
        forall i | 0 <= i < |nodes[1..]| ensures nodes[1..][i].id != x {
          assert nodes[1..][i] == nodes[i + 1];
        }
      }
      SeedsAvoid(nodes[1..], x);
    }
  }

  lemma {:induction false} SeedsAppend(nodes: seq<GraphNode>, n: GraphNode)
    ensures Seeds(nodes + [n]) == Seeds(nodes) + (if n.isOutput then [SeedRecord(n)] else [])
    decreases |nodes|
  {
    if nodes == [] {
      assert [n][1..] == [];
    } else {
      assert (nodes + [n])[1..] == nodes[1..] + [n];
      SeedsAppend(nodes[1..], n);
    }
  }

  /** `has_outputs` of the node's record in the previous run, or false. */
  function PrevHasOutputs(prev: seq<IntermediateNode>, id: NodeId): bool
  {
    match IndexOf(prev, id)
    case Some(p) => prev[p].hasOutputs
    case None => false
  }

  /** The record pushed for a newly discovered upstream node. */
  function Discovered(g: InputGraph, prev: seq<IntermediateNode>, id: NodeId): (r: IntermediateNode)
    requires id in Ids(g)
  {
    IntermediateNode(id, NodeOf(g, id).behavior, true, Once, false, PrevHasOutputs(prev, id))
  }

  predicate AllBound(inputs: seq<InputSlot>)
  {
    forall j :: 0 <= j < |inputs| ==> inputs[j].edge.Some?
  }

  /**
   * One input of the record `cur` being processed: an unbound input makes
   * `cur` incomplete; a bound one finds or pushes the upstream record and
   * promotes it to Always when both `cur` and the edge are Always.
   */
  function VisitInput(g: InputGraph, prev: seq<IntermediateNode>, cur: IntermediateNode,
                      recs: seq<IntermediateNode>, input: InputSlot): (r: (IntermediateNode, seq<IntermediateNode>))
    requires input.edge.Some? ==> input.edge.value.upstream in Ids(g)
  {
    match input.edge
    case None => (cur.(isComplete := false), recs)
    case Some(e) =>
      var found := IndexOf(recs, e.upstream);
      var recs1 := if found.Some? then recs else recs + [Discovered(g, prev, e.upstream)];
      var k := if found.Some? then found.value else |recs|;
      if cur.edgeBehavior == Always && e.behavior == Always then
        (cur, recs1[k := recs1[k].(edgeBehavior := Always)])
      else
        (cur, recs1)
  }

  /** One input keeps the ids of the old records, adds only ids of the graph, and never repeats an id. */
  lemma VisitInputShape(g: InputGraph, prev: seq<IntermediateNode>, cur: IntermediateNode,
                        recs: seq<IntermediateNode>, input: InputSlot)
    requires input.edge.Some? ==> input.edge.value.upstream in Ids(g)
    ensures var s := VisitInput(g, prev, cur, recs, input);
            && |s.1| >= |recs|
            && (forall k :: 0 <= k < |recs| ==> s.1[k].nodeId == recs[k].nodeId)
            && (WorklistOk(g, recs) ==> WorklistOk(g, s.1))
            && s.0 == cur.(isComplete := cur.isComplete && input.edge.Some?)
  {
    var s := VisitInput(g, prev, cur, recs, input);
    if input.edge.Some? {
      var e := input.edge.value;
      if IndexOf(recs, e.upstream).None? && WorklistOk(g, recs) {
        assert forall k :: 0 <= k < |recs| ==> s.1[k].nodeId == recs[k].nodeId;
        assert s.1[|recs|].nodeId == e.upstream;
        assert DistinctIds(s.1);
      }
    }
  }

  /** The inner `for input in inputs` loop of `traverse_backward`. */
  function VisitInputs(g: InputGraph, prev: seq<IntermediateNode>, cur: IntermediateNode,
                       recs: seq<IntermediateNode>, inputs: seq<InputSlot>): (r: (IntermediateNode, seq<IntermediateNode>))
    requires forall j :: 0 <= j < |inputs| && inputs[j].edge.Some? ==> inputs[j].edge.value.upstream in Ids(g)
    ensures |r.1| >= |recs|
    ensures forall k :: 0 <= k < |recs| ==> r.1[k].nodeId == recs[k].nodeId
    ensures WorklistOk(g, recs) ==> WorklistOk(g, r.1)
    ensures r.0 == cur.(isComplete := cur.isComplete && AllBound(inputs))
    decreases |inputs|
  {
    if inputs == [] then (cur, recs)
    else
      var step := VisitInput(g, prev, cur, recs, inputs[0]);
      VisitInputShape(g, prev, cur, recs, inputs[0]);
      var r := VisitInputs(g, prev, step.0, step.1, inputs[1..]);
      assert forall j :: 1 <= j < |inputs| ==> inputs[j] == inputs[1..][j - 1];
      r
  }

  /** One iteration of the worklist loop: visit the inputs of record `i`, then write it back. */
  function Advance(g: InputGraph, prev: seq<IntermediateNode>, recs: seq<IntermediateNode>, i: nat): (r: seq<IntermediateNode>)
    requires ValidInput(g) && WorklistOk(g, recs) && i < |recs|
    ensures WorklistOk(g, r) && |r| >= |recs|
  {
    var v := VisitInputs(g, prev, recs[i], recs, InputsOf(g, recs[i].nodeId));
    v.1[i := v.0]
  }

  /** The worklist loop `while i < self.nodes.len()` of `traverse_backward`, from index `i`. */
  function Backward(g: InputGraph, prev: seq<IntermediateNode>, recs: seq<IntermediateNode>, i: nat): seq<IntermediateNode>
    requires ValidInput(g) && WorklistOk(g, recs) && i <= |recs|
    decreases |Ids(g)| - i
  {
    DistinctIdsBound(recs, Ids(g));
    if i == |recs| then recs
    else Backward(g, prev, Advance(g, prev, recs, i), i + 1)
  }

  lemma SeedsInWorklist(g: InputGraph)
    requires ValidInput(g)
    ensures WorklistOk(g, Seeds(g.nodes))
  {
    SeedsDistinct(g.nodes);
    forall i | 0 <= i < |g.nodes| ensures g.nodes[i].id in Ids(g) {
      assert g.nodes[i] in g.nodes;
    }
    SeedsWithin(g.nodes, Ids(g));
  }

  /** Seed ids are ids of the scanned nodes. */
  lemma {:induction false} SeedsWithin(nodes: seq<GraphNode>, ids: set<NodeId>)
    requires forall i :: 0 <= i < |nodes| ==> nodes[i].id in ids
    ensures forall k :: 0 <= k < |Seeds(nodes)| ==> Seeds(nodes)[k].nodeId in ids
    decreases |nodes|
  {
    if nodes != [] {
      var head := if nodes[0].isOutput then [SeedRecord(nodes[0])] else [];
      assert Seeds(nodes) == head + Seeds(nodes[1..]);
      assert forall i :: 0 <= i < |nodes[1..]| ==> nodes[1..][i].id in ids by {
        forall i | 0 <= i < |nodes[1..]| ensures nodes[1..][i].id in ids {
          assert nodes[1..][i] == nodes[i + 1];
        }
      }
      SeedsWithin(nodes[1..], ids);
    }
  }

  /** The records `traverse_backward` collects, in discovery order (before its final `reverse`). */
  function Discover(g: InputGraph, prev: seq<IntermediateNode>): seq<IntermediateNode>
    requires ValidInput(g)
  {
    SeedsInWorklist(g);
    Backward(g, prev, Seeds(g.nodes), 0)
  }

  // ---------------------------------------------------------------- first forward pass

  /** Every bound input of every record's node has an upstream record (the `find(..).unwrap()` succeeds). */
  predicate Closed(g: InputGraph, recs: seq<IntermediateNode>)
  {
    forall k, j :: 0 <= k < |recs| && 0 <= j < |InputsOf(g, recs[k].nodeId)| && InputsOf(g, recs[k].nodeId)[j].edge.Some?
                   ==> HasRecord(recs, InputsOf(g, recs[k].nodeId)[j].edge.value.upstream)
  }

  /** `Closed` depends on the node ids only. */
  lemma ClosedSameIds(g: InputGraph, a: seq<IntermediateNode>, b: seq<IntermediateNode>)
    requires Closed(g, a) && |a| == |b| && forall k :: 0 <= k < |a| ==> a[k].nodeId == b[k].nodeId
    ensures Closed(g, b)
  {
    forall id | HasRecord(a, id) ensures HasRecord(b, id) {
      var m :| 0 <= m < |a| && a[m].nodeId == id;
      assert b[m].nodeId == id;
    }
  }

  /** Every required input is bound, and every bound input's upstream record is complete. */
  /** One input as the first forward pass sees it: bound to a complete upstream record, or optional. */
  predicate InputOk(recs: seq<IntermediateNode>, input: InputSlot)
    requires input.edge.Some? ==> HasRecord(recs, input.edge.value.upstream)
  {
    if input.edge.Some? then RecordOf(recs, input.edge.value.upstream).isComplete
    else !input.isRequired
  }

  predicate InputsComplete(recs: seq<IntermediateNode>, inputs: seq<InputSlot>)
    requires forall j :: 0 <= j < |inputs| && inputs[j].edge.Some? ==> HasRecord(recs, inputs[j].edge.value.upstream)
  {
    forall j :: 0 <= j < |inputs| ==> InputOk(recs, inputs[j])
  }

  lemma InputsCompleteExtend(recs: seq<IntermediateNode>, inputs: seq<InputSlot>, j: nat)
    requires j < |inputs|
    requires forall j :: 0 <= j < |inputs| && inputs[j].edge.Some? ==> HasRecord(recs, inputs[j].edge.value.upstream)
    ensures InputsComplete(recs, inputs[..j + 1]) == (InputsComplete(recs, inputs[..j]) && InputOk(recs, inputs[j]))
  {
    assert forall m :: 0 <= m < j ==> inputs[..j + 1][m] == inputs[..j][m];
    assert inputs[..j + 1][j] == inputs[j];
  }


  /** `traverse_forward1` from index `i`: each record reads the current, partly updated, list. */
  function Forward1(g: InputGraph, recs: seq<IntermediateNode>, i: nat): (r: seq<IntermediateNode>)
    requires Closed(g, recs) && i <= |recs|
    ensures |r| == |recs|
    ensures forall k :: 0 <= k < |recs| ==> r[k] == recs[k].(isComplete := r[k].isComplete)
    decreases |recs| - i
  {
    if i == |recs| then recs
    else
      var cur := recs[i];
      var next := recs[i := cur.(isComplete := cur.isComplete && InputsComplete(recs, InputsOf(g, cur.nodeId)))];
      ClosedSameIds(g, recs, next);
      Forward1(g, next, i + 1)
  }

  // ---------------------------------------------------------------- second forward pass

  /**
   * Whether the upstream node `id` executed in the previous run. An
   * upstream node missing from `prev_run` is new since that run and counts
   * as updated.
   */
  function UpstreamUpdated(prev: seq<IntermediateNode>, id: NodeId): bool
  {
    match IndexOf(prev, id)
    case Some(p) => prev[p].shouldExecute
    case None => true
  }

  /** Some Always edge comes from a node that executed in the previous run. */
  predicate HasUpdatedInputs(prev: seq<IntermediateNode>, inputs: seq<InputSlot>)
  {
    exists j :: 0 <= j < |inputs| && inputs[j].edge.Some? && inputs[j].edge.value.behavior == Always &&
                UpstreamUpdated(prev, inputs[j].edge.value.upstream)
  }

  /** The execution rule of `traverse_forward2` for one record. */
  function Decide(g: InputGraph, prev: seq<IntermediateNode>, r: IntermediateNode): IntermediateNode
  {
    if !r.isComplete then r
    else if r.hasOutputs && r.edgeBehavior == Once then r
    else if r.hasOutputs && r.behavior == Graph.Passive && !HasUpdatedInputs(prev, InputsOf(g, r.nodeId)) then r
    else r.(shouldExecute := true, hasOutputs := true)
  }

  /** `traverse_forward2`: every record decided against `prev_run` on its own. */
  function Forward2(g: InputGraph, prev: seq<IntermediateNode>, recs: seq<IntermediateNode>): (r: seq<IntermediateNode>)
    ensures |r| == |recs|
    ensures forall k :: 0 <= k < |recs| ==> r[k] == Decide(g, prev, recs[k])
  {
    seq(|recs|, k requires 0 <= k < |recs| => Decide(g, prev, recs[k]))
  }

  /** Every complete record's unbound inputs are optional (the `assert_eq!` of `traverse_forward2`). */
  predicate UnboundInputsOptional(g: InputGraph, recs: seq<IntermediateNode>)
  {
    forall k, j ::
      (0 <= k < |recs| && recs[k].isComplete && 0 <= j < |InputsOf(g, recs[k].nodeId)| &&
       InputsOf(g, recs[k].nodeId)[j].edge.None?) ==> !InputsOf(g, recs[k].nodeId)[j].isRequired
  }

  // ---------------------------------------------------------------- backward pass: proofs

  /** `b` is `a`, possibly promoted to edge Always. */
  predicate Promoted(a: IntermediateNode, b: IntermediateNode)
  {
    b == a || b == a.(edgeBehavior := Always)
  }

  predicate EdgeTo(inputs: seq<InputSlot>, id: NodeId)
  {
    exists j :: 0 <= j < |inputs| && inputs[j].edge.Some? && inputs[j].edge.value.upstream == id
  }

  predicate AlwaysEdgeTo(inputs: seq<InputSlot>, id: NodeId)
  {
    exists j :: 0 <= j < |inputs| && inputs[j].edge == Some(Edge(id, Always))
  }

  /** Visiting keeps every old record, at most promoted. */
  ghost predicate VisitKeeps(recs: seq<IntermediateNode>, out: seq<IntermediateNode>)
  {
    |out| >= |recs| && forall k :: 0 <= k < |recs| ==> Promoted(recs[k], out[k])
  }

  /** Every record visiting adds is a fresh discovery of an upstream node of `inputs`. */
  ghost predicate VisitAdds(g: InputGraph, prev: seq<IntermediateNode>, recs: seq<IntermediateNode>,
                            inputs: seq<InputSlot>, out: seq<IntermediateNode>)
  {
    forall k :: |recs| <= k < |out| ==>
      out[k].nodeId in Ids(g) && Promoted(Discovered(g, prev, out[k].nodeId), out[k]) && EdgeTo(inputs, out[k].nodeId)
  }

  /** A record visiting leaves Always that was not Always before was reached by an Always edge from an Always `cur`. */
  ghost predicate VisitPromotes(cur: IntermediateNode, recs: seq<IntermediateNode>, inputs: seq<InputSlot>, out: seq<IntermediateNode>)
  {
    forall k :: 0 <= k < |out| && out[k].edgeBehavior == Always && (k >= |recs| || recs[k].edgeBehavior == Once) ==>
      cur.edgeBehavior == Always && AlwaysEdgeTo(inputs, out[k].nodeId)
  }

  /** After visiting, every bound upstream of `inputs` has a record. */
  ghost predicate VisitCovers(inputs: seq<InputSlot>, out: seq<IntermediateNode>)
  {
    forall j :: 0 <= j < |inputs| && inputs[j].edge.Some? ==> HasRecord(out, inputs[j].edge.value.upstream)
  }

  /** What visiting `inputs` of `cur` does to the list `recs`, giving `out`. */
  ghost predicate VisitFacts(g: InputGraph, prev: seq<IntermediateNode>, cur: IntermediateNode,
                             recs: seq<IntermediateNode>, inputs: seq<InputSlot>, out: seq<IntermediateNode>)
  {
    VisitKeeps(recs, out) && VisitAdds(g, prev, recs, inputs, out) && VisitPromotes(cur, recs, inputs, out) && VisitCovers(inputs, out)
  }

  lemma VisitInputFacts(g: InputGraph, prev: seq<IntermediateNode>, cur: IntermediateNode,
                        recs: seq<IntermediateNode>, input: InputSlot)
    requires input.edge.Some? ==> input.edge.value.upstream in Ids(g)
    ensures VisitFacts(g, prev, cur, recs, [input], VisitInput(g, prev, cur, recs, input).1)
  {
    var out := VisitInput(g, prev, cur, recs, input).1;
    if input.edge.Some? {
      var e := input.edge.value;
      assert [input][0] == input;
      assert EdgeTo([input], e.upstream);
      if cur.edgeBehavior == Always && e.behavior == Always {
        assert AlwaysEdgeTo([input], e.upstream);
      }
      var found := IndexOf(recs, e.upstream);
      var k := if found.Some? then found.value else |recs|;
      assert out[k].nodeId == e.upstream;
    }
  }

  lemma EdgeToSplit(inputs: seq<InputSlot>, id: NodeId)
    requires inputs != []
    ensures EdgeTo(inputs[..1], id) || EdgeTo(inputs[1..], id) ==> EdgeTo(inputs, id)
    ensures AlwaysEdgeTo(inputs[..1], id) || AlwaysEdgeTo(inputs[1..], id) ==> AlwaysEdgeTo(inputs, id)
  {
    assert inputs[..1][0] == inputs[0];
    assert forall j :: 0 <= j < |inputs[1..]| ==> inputs[1..][j] == inputs[j + 1];
  }

  lemma ComposeKeeps(recs: seq<IntermediateNode>, mid: seq<IntermediateNode>, out: seq<IntermediateNode>)
    requires VisitKeeps(recs, mid) && VisitKeeps(mid, out)
    ensures VisitKeeps(recs, out)
  {
    forall k | 0 <= k < |recs| ensures Promoted(recs[k], out[k]) {
      assert Promoted(recs[k], mid[k]) && Promoted(mid[k], out[k]);
    }
  }

  lemma ComposeAdds(g: InputGraph, prev: seq<IntermediateNode>, recs: seq<IntermediateNode>, mid: seq<IntermediateNode>,
                    out: seq<IntermediateNode>, inputs: seq<InputSlot>)
    requires inputs != [] && VisitKeeps(mid, out)
    requires VisitAdds(g, prev, recs, inputs[..1], mid) && VisitAdds(g, prev, mid, inputs[1..], out)
    ensures VisitAdds(g, prev, recs, inputs, out)
  {
    forall k | |recs| <= k < |out|
      ensures out[k].nodeId in Ids(g) && Promoted(Discovered(g, prev, out[k].nodeId), out[k]) && EdgeTo(inputs, out[k].nodeId)
    {
      EdgeToSplit(inputs, out[k].nodeId);
      if k < |mid| {
        assert Promoted(mid[k], out[k]);
      }
    }
  }

  lemma ComposePromotes(cur: IntermediateNode, cur1: IntermediateNode, recs: seq<IntermediateNode>, mid: seq<IntermediateNode>,
                        out: seq<IntermediateNode>, inputs: seq<InputSlot>)
    requires inputs != [] && cur1.edgeBehavior == cur.edgeBehavior && VisitKeeps(recs, mid) && VisitKeeps(mid, out)
    requires VisitPromotes(cur, recs, inputs[..1], mid) && VisitPromotes(cur1, mid, inputs[1..], out)
    ensures VisitPromotes(cur, recs, inputs, out)
  {
    forall k | 0 <= k < |out| && out[k].edgeBehavior == Always && (k >= |recs| || recs[k].edgeBehavior == Once)
      ensures cur.edgeBehavior == Always && AlwaysEdgeTo(inputs, out[k].nodeId)
    {
      EdgeToSplit(inputs, out[k].nodeId);
      if k < |mid| {
        assert Promoted(mid[k], out[k]);
      }
    }
  }

  lemma ComposeCovers(mid: seq<IntermediateNode>, out: seq<IntermediateNode>, inputs: seq<InputSlot>)
    requires inputs != [] && VisitKeeps(mid, out)
    requires VisitCovers(inputs[..1], mid) && VisitCovers(inputs[1..], out)
    ensures VisitCovers(inputs, out)
  {
    forall j | 0 <= j < |inputs| && inputs[j].edge.Some? ensures HasRecord(out, inputs[j].edge.value.upstream) {
      if j == 0 {
        assert inputs[..1][0] == inputs[0];
        var m :| 0 <= m < |mid| && mid[m].nodeId == inputs[0].edge.value.upstream;
        assert Promoted(mid[m], out[m]);
      } else {
        assert inputs[1..][j - 1] == inputs[j];
      }
    }
  }

  lemma VisitFactsCompose(g: InputGraph, prev: seq<IntermediateNode>, cur: IntermediateNode, cur1: IntermediateNode,
                          recs: seq<IntermediateNode>, mid: seq<IntermediateNode>, out: seq<IntermediateNode>, inputs: seq<InputSlot>)
    requires inputs != [] && cur1.edgeBehavior == cur.edgeBehavior
    requires VisitFacts(g, prev, cur, recs, inputs[..1], mid)
    requires VisitFacts(g, prev, cur1, mid, inputs[1..], out)
    ensures VisitFacts(g, prev, cur, recs, inputs, out)
  {
    ComposeKeeps(recs, mid, out);
    ComposeAdds(g, prev, recs, mid, out, inputs);
    ComposePromotes(cur, cur1, recs, mid, out, inputs);
    ComposeCovers(mid, out, inputs);
  }

  lemma {:induction false} VisitInputsFacts(g: InputGraph, prev: seq<IntermediateNode>, cur: IntermediateNode,
                                            recs: seq<IntermediateNode>, inputs: seq<InputSlot>)
    requires forall j :: 0 <= j < |inputs| && inputs[j].edge.Some? ==> inputs[j].edge.value.upstream in Ids(g)
    ensures VisitFacts(g, prev, cur, recs, inputs, VisitInputs(g, prev, cur, recs, inputs).1)
    decreases |inputs|
  {
    if inputs != [] {
      var step := VisitInput(g, prev, cur, recs, inputs[0]);
      VisitInputFacts(g, prev, cur, recs, inputs[0]);
      assert inputs[..1] == [inputs[0]];
      assert forall j :: 1 <= j < |inputs| ==> inputs[j] == inputs[1..][j - 1];
      VisitInputsFacts(g, prev, step.0, step.1, inputs[1..]);
      VisitFactsCompose(g, prev, cur, step.0, recs, step.1, VisitInputs(g, prev, cur, recs, inputs).1, inputs);
    } else {
      assert VisitInputs(g, prev, cur, recs, inputs).1 == recs;
    }
  }

  // The invariant of the worklist loop at index `i`, over the records `recs` that started from `seeds`.

  ghost predicate InvIds(g: InputGraph, seeds: seq<IntermediateNode>, recs: seq<IntermediateNode>, i: nat)
  {
    WorklistOk(g, recs) && i <= |recs| && |seeds| <= |recs|
  }

  /** Seeds keep their fields but `is_complete`; discovered records have their initial fields but `is_complete` and the edge. */
  ghost predicate InvShape(g: InputGraph, prev: seq<IntermediateNode>, seeds: seq<IntermediateNode>, recs: seq<IntermediateNode>)
    requires InvIds(g, seeds, recs, 0)
  {
    && (forall k :: 0 <= k < |seeds| ==> recs[k] == seeds[k].(isComplete := recs[k].isComplete) && recs[k].edgeBehavior == Always)
    && (forall k :: |seeds| <= k < |recs| ==>
          recs[k] == Discovered(g, prev, recs[k].nodeId).(isComplete := recs[k].isComplete, edgeBehavior := recs[k].edgeBehavior))
  }

  /** Processed records are complete exactly when all their inputs are bound; the others are still complete. */
  ghost predicate InvComplete(g: InputGraph, recs: seq<IntermediateNode>, i: nat)
  {
    forall k :: 0 <= k < |recs| ==> recs[k].isComplete == (k < i ==> AllBound(InputsOf(g, recs[k].nodeId)))
  }

  /** Processed records have a record for every bound upstream. */
  ghost predicate InvClosed(g: InputGraph, recs: seq<IntermediateNode>, i: nat)
  {
    forall k, j :: 0 <= k < i && k < |recs| && 0 <= j < |InputsOf(g, recs[k].nodeId)| && InputsOf(g, recs[k].nodeId)[j].edge.Some? ==>
      HasRecord(recs, InputsOf(g, recs[k].nodeId)[j].edge.value.upstream)
  }

  /** A discovered record is Always only when an Always record reaches it by an Always edge. */
  ghost predicate InvAlways(g: InputGraph, seeds: seq<IntermediateNode>, recs: seq<IntermediateNode>)
  {
    forall k :: |seeds| <= k < |recs| && recs[k].edgeBehavior == Always ==>
      exists m :: 0 <= m < |recs| && recs[m].edgeBehavior == Always && AlwaysEdgeTo(InputsOf(g, recs[m].nodeId), recs[k].nodeId)
  }

  /** A discovered record is an upstream node of an earlier record. */
  ghost predicate InvFound(g: InputGraph, seeds: seq<IntermediateNode>, recs: seq<IntermediateNode>)
  {
    forall k :: |seeds| <= k < |recs| ==> exists m :: 0 <= m < k && EdgeTo(InputsOf(g, recs[m].nodeId), recs[k].nodeId)
  }

  ghost predicate BackInv(g: InputGraph, prev: seq<IntermediateNode>, seeds: seq<IntermediateNode>,
                          recs: seq<IntermediateNode>, i: nat)
  {
    && InvIds(g, seeds, recs, i) && InvShape(g, prev, seeds, recs) && InvComplete(g, recs, i)
    && InvClosed(g, recs, i) && InvAlways(g, seeds, recs) && InvFound(g, seeds, recs)
  }

  lemma BackInvInit(g: InputGraph, prev: seq<IntermediateNode>)
    requires ValidInput(g)
    ensures BackInv(g, prev, Seeds(g.nodes), Seeds(g.nodes), 0)
  {
    SeedsInWorklist(g);
    SeedsAreOutputs(g.nodes);
  }

  /** One iteration of the worklist loop keeps the invariant. */
  lemma BackStep(g: InputGraph, prev: seq<IntermediateNode>, seeds: seq<IntermediateNode>, recs: seq<IntermediateNode>, i: nat)
    requires ValidInput(g) && BackInv(g, prev, seeds, recs, i) && i < |recs|
    ensures BackInv(g, prev, seeds, Advance(g, prev, recs, i), i + 1)
  {
    var inputs := InputsOf(g, recs[i].nodeId);
    var r := VisitInputs(g, prev, recs[i], recs, inputs);
    VisitInputsFacts(g, prev, recs[i], recs, inputs);
    var out := r.1[i := r.0];
    assert out == Advance(g, prev, recs, i);
    BackStepShape(g, prev, seeds, recs, i, r.1, out);
    BackStepComplete(g, prev, seeds, recs, i, r.1, out);
    BackStepClosed(g, recs, i, r.1, out);
    BackStepAlways(g, seeds, recs, i, r.1, r.0.isComplete, out);
    BackStepFound(g, prev, seeds, recs, i, r.1, out);
  }

  lemma BackStepShape(g: InputGraph, prev: seq<IntermediateNode>, seeds: seq<IntermediateNode>, recs: seq<IntermediateNode>, i: nat,
                      mid: seq<IntermediateNode>, out: seq<IntermediateNode>)
    requires InvIds(g, seeds, recs, i) && InvShape(g, prev, seeds, recs) && i < |recs|
    requires VisitKeeps(recs, mid) && VisitAdds(g, prev, recs, InputsOf(g, recs[i].nodeId), mid) && WorklistOk(g, out)
    requires out == mid[i := recs[i].(isComplete := recs[i].isComplete && AllBound(InputsOf(g, recs[i].nodeId)))]
    ensures InvIds(g, seeds, out, i + 1) && InvShape(g, prev, seeds, out)
  {
    forall k | 0 <= k < |seeds| ensures out[k] == seeds[k].(isComplete := out[k].isComplete) && out[k].edgeBehavior == Always {
      assert Promoted(recs[k], mid[k]);
    }
    forall k | |seeds| <= k < |out|
      ensures out[k] == Discovered(g, prev, out[k].nodeId).(isComplete := out[k].isComplete, edgeBehavior := out[k].edgeBehavior)
    {
      if k < |recs| {
        assert Promoted(recs[k], mid[k]);
      }
    }
  }

  lemma BackStepComplete(g: InputGraph, prev: seq<IntermediateNode>, seeds: seq<IntermediateNode>, recs: seq<IntermediateNode>, i: nat,
                         mid: seq<IntermediateNode>, out: seq<IntermediateNode>)
    requires InvIds(g, seeds, recs, i) && InvShape(g, prev, seeds, recs) && InvComplete(g, recs, i) && i < |recs|
    requires VisitKeeps(recs, mid) && VisitAdds(g, prev, recs, InputsOf(g, recs[i].nodeId), mid)
    requires out == mid[i := recs[i].(isComplete := recs[i].isComplete && AllBound(InputsOf(g, recs[i].nodeId)))]
    ensures InvComplete(g, out, i + 1)
  {
    forall k | 0 <= k < |out| ensures out[k].isComplete == (k < i + 1 ==> AllBound(InputsOf(g, out[k].nodeId))) {
      if k < |recs| {
        assert Promoted(recs[k], mid[k]);
      } else {
        assert Promoted(Discovered(g, prev, mid[k].nodeId), mid[k]);
      }
    }
  }

  lemma BackStepClosed(g: InputGraph, recs: seq<IntermediateNode>, i: nat, mid: seq<IntermediateNode>, out: seq<IntermediateNode>)
    requires InvClosed(g, recs, i) && i < |recs|
    requires VisitKeeps(recs, mid) && VisitCovers(InputsOf(g, recs[i].nodeId), mid)
    requires |out| == |mid| && forall k :: 0 <= k < |mid| ==> out[k].nodeId == mid[k].nodeId
    ensures InvClosed(g, out, i + 1)
  {
    forall k, j | 0 <= k < i + 1 && k < |out| && 0 <= j < |InputsOf(g, out[k].nodeId)| && InputsOf(g, out[k].nodeId)[j].edge.Some?
      ensures HasRecord(out, InputsOf(g, out[k].nodeId)[j].edge.value.upstream)
    {
      var id := InputsOf(g, out[k].nodeId)[j].edge.value.upstream;
      assert out[k].nodeId == mid[k].nodeId == recs[k].nodeId;
      if k < i {
        var m :| 0 <= m < |recs| && recs[m].nodeId == id;
        assert out[m].nodeId == mid[m].nodeId == id;
      } else {
        var m :| 0 <= m < |mid| && mid[m].nodeId == id;
        assert out[m].nodeId == id;
      }
    }
  }

  lemma BackStepAlways(g: InputGraph, seeds: seq<IntermediateNode>, recs: seq<IntermediateNode>, i: nat,
                       mid: seq<IntermediateNode>, c: bool, out: seq<IntermediateNode>)
    requires InvAlways(g, seeds, recs) && i < |recs|
    requires VisitKeeps(recs, mid) && VisitPromotes(recs[i], recs, InputsOf(g, recs[i].nodeId), mid)
    requires i < |mid| && out == mid[i := recs[i].(isComplete := c)]
    ensures InvAlways(g, seeds, out)
  {
    forall k | |seeds| <= k < |out| && out[k].edgeBehavior == Always
      ensures exists m :: 0 <= m < |out| && out[m].edgeBehavior == Always && AlwaysEdgeTo(InputsOf(g, out[m].nodeId), out[k].nodeId)
    {
      if k < |recs| && recs[k].edgeBehavior == Always {
        var m :| 0 <= m < |recs| && recs[m].edgeBehavior == Always && AlwaysEdgeTo(InputsOf(g, recs[m].nodeId), recs[k].nodeId);
        assert Promoted(recs[m], mid[m]) && Promoted(recs[k], mid[k]);
        assert out[m].nodeId == recs[m].nodeId && out[m].edgeBehavior == Always;
        assert out[k].nodeId == recs[k].nodeId;
      } else {
        assert k != i;
        assert out[k] == mid[k];
        assert out[i].nodeId == recs[i].nodeId && out[i].edgeBehavior == recs[i].edgeBehavior;
      }
    }
  }

  lemma BackStepFound(g: InputGraph, prev: seq<IntermediateNode>, seeds: seq<IntermediateNode>, recs: seq<IntermediateNode>, i: nat,
                      mid: seq<IntermediateNode>, out: seq<IntermediateNode>)
    requires InvFound(g, seeds, recs) && i < |recs|
    requires VisitKeeps(recs, mid) && VisitAdds(g, prev, recs, InputsOf(g, recs[i].nodeId), mid)
    requires |out| == |mid| && forall k :: 0 <= k < |mid| ==> out[k].nodeId == mid[k].nodeId
    ensures InvFound(g, seeds, out)
  {
    forall k | |seeds| <= k < |out| ensures exists m :: 0 <= m < k && EdgeTo(InputsOf(g, out[m].nodeId), out[k].nodeId) {
      if k < |recs| {
        var m :| 0 <= m < k && EdgeTo(InputsOf(g, recs[m].nodeId), recs[k].nodeId);
        assert Promoted(recs[m], mid[m]) && Promoted(recs[k], mid[k]);
        assert out[m].nodeId == recs[m].nodeId && out[k].nodeId == recs[k].nodeId;
      } else {
        assert Promoted(recs[i], mid[i]);
        assert out[i].nodeId == recs[i].nodeId;
      }
    }
  }

  /** The worklist loop keeps any property of `(records, index)` that one iteration keeps. */
  lemma {:induction false} BackwardPreserves(g: InputGraph, prev: seq<IntermediateNode>, recs: seq<IntermediateNode>, i: nat,
                                             P: (seq<IntermediateNode>, nat) -> bool)
    requires ValidInput(g) && WorklistOk(g, recs) && i <= |recs| && P(recs, i)
    requires forall r: seq<IntermediateNode>, j: nat {:trigger Advance(g, prev, r, j)} ::
               WorklistOk(g, r) && j < |r| && P(r, j) ==> P(Advance(g, prev, r, j), j + 1)
    ensures P(Backward(g, prev, recs, i), |Backward(g, prev, recs, i)|)
    decreases |Ids(g)| - i
  {
    DistinctIdsBound(recs, Ids(g));
    if i < |recs| {
      BackwardPreserves(g, prev, Advance(g, prev, recs, i), i + 1, P);
      assert Backward(g, prev, recs, i) == Backward(g, prev, Advance(g, prev, recs, i), i + 1);
    } else {
      assert Backward(g, prev, recs, i) == recs;
    }
  }

  lemma DiscoverInv(g: InputGraph, prev: seq<IntermediateNode>)
    requires ValidInput(g)
    ensures BackInv(g, prev, Seeds(g.nodes), Discover(g, prev), |Discover(g, prev)|)
  {
    var seeds := Seeds(g.nodes);
    var P := (r: seq<IntermediateNode>, j: nat) => BackInv(g, prev, seeds, r, j);
    BackInvInit(g, prev);
    forall r: seq<IntermediateNode>, j: nat | WorklistOk(g, r) && j < |r| && P(r, j)
      ensures P(Advance(g, prev, r, j), j + 1)
    {
      BackStep(g, prev, seeds, r, j);
    }
    SeedsInWorklist(g);
    BackwardPreserves(g, prev, seeds, 0, P);
  }

  /** The backward pass records no node twice, and only nodes of the graph. */
  lemma DiscoverNoDuplicates(g: InputGraph, prev: seq<IntermediateNode>)
    requires ValidInput(g)
    ensures DistinctIds(Discover(g, prev))
    ensures forall k :: 0 <= k < |Discover(g, prev)| ==> Discover(g, prev)[k].nodeId in Ids(g)
  {
    DiscoverInv(g, prev);
  }

  /**
   * The records of the output nodes come first, one per output node in
   * graph order, and stay Active, Always and without outputs.
   */
  lemma DiscoverSeeds(g: InputGraph, prev: seq<IntermediateNode>)
    requires ValidInput(g)
    ensures |Seeds(g.nodes)| <= |Discover(g, prev)|
    ensures forall k :: 0 <= k < |Seeds(g.nodes)| ==>
              var r := Discover(g, prev)[k];
              r.behavior == Graph.Active && r.edgeBehavior == Always && !r.hasOutputs && !r.shouldExecute &&
              exists n :: 0 <= n < |g.nodes| && g.nodes[n].isOutput && g.nodes[n].id == r.nodeId
    ensures forall n :: 0 <= n < |g.nodes| && g.nodes[n].isOutput ==>
              exists k :: 0 <= k < |Seeds(g.nodes)| && Discover(g, prev)[k].nodeId == g.nodes[n].id
  {
    DiscoverInv(g, prev);
    SeedsKeepShape(g, prev, Discover(g, prev));
  }

  lemma SeedsKeepShape(g: InputGraph, prev: seq<IntermediateNode>, d: seq<IntermediateNode>)
    requires BackInv(g, prev, Seeds(g.nodes), d, |d|)
    ensures |Seeds(g.nodes)| <= |d|
    ensures forall k :: 0 <= k < |Seeds(g.nodes)| ==>
              d[k].behavior == Graph.Active && d[k].edgeBehavior == Always && !d[k].hasOutputs && !d[k].shouldExecute &&
              exists n :: 0 <= n < |g.nodes| && g.nodes[n].isOutput && g.nodes[n].id == d[k].nodeId
    ensures forall n :: 0 <= n < |g.nodes| && g.nodes[n].isOutput ==>
              exists k :: 0 <= k < |Seeds(g.nodes)| && d[k].nodeId == g.nodes[n].id
  {
    assert InvIds(g, Seeds(g.nodes), d, 0) && InvShape(g, prev, Seeds(g.nodes), d);
    SeedsKeptAreOutputs(g, prev, d);
    OutputsKeptAsSeeds(g, prev, d);
  }

  lemma SeedsKeptAreOutputs(g: InputGraph, prev: seq<IntermediateNode>, d: seq<IntermediateNode>)
    requires InvIds(g, Seeds(g.nodes), d, 0) && InvShape(g, prev, Seeds(g.nodes), d)
    ensures forall k :: 0 <= k < |Seeds(g.nodes)| ==>
              d[k].behavior == Graph.Active && d[k].edgeBehavior == Always && !d[k].hasOutputs && !d[k].shouldExecute &&
              exists n :: 0 <= n < |g.nodes| && g.nodes[n].isOutput && g.nodes[n].id == d[k].nodeId
  {
    SeedsAreOutputs(g.nodes);
    var s := Seeds(g.nodes);
    forall k | 0 <= k < |s|
      ensures d[k].behavior == Graph.Active && d[k].edgeBehavior == Always && !d[k].hasOutputs && !d[k].shouldExecute
      ensures exists n :: 0 <= n < |g.nodes| && g.nodes[n].isOutput && g.nodes[n].id == d[k].nodeId
    {
      var n :| 0 <= n < |g.nodes| && g.nodes[n].isOutput && s[k] == SeedRecord(g.nodes[n]);
      assert d[k] == s[k].(isComplete := d[k].isComplete);
    }
  }

  lemma OutputsKeptAsSeeds(g: InputGraph, prev: seq<IntermediateNode>, d: seq<IntermediateNode>)
    requires InvIds(g, Seeds(g.nodes), d, 0) && InvShape(g, prev, Seeds(g.nodes), d)
    ensures forall n :: 0 <= n < |g.nodes| && g.nodes[n].isOutput ==>
              exists k :: 0 <= k < |Seeds(g.nodes)| && d[k].nodeId == g.nodes[n].id
  {
    SeedsAreOutputs(g.nodes);
    var s := Seeds(g.nodes);
    forall n | 0 <= n < |g.nodes| && g.nodes[n].isOutput ensures exists k :: 0 <= k < |s| && d[k].nodeId == g.nodes[n].id {
      var k :| 0 <= k < |s| && s[k] == SeedRecord(g.nodes[n]);
      assert d[k].nodeId == g.nodes[n].id;
    }
  }

  /**
   * Every other record is an upstream node of an earlier record, found
   * through a bound input; it keeps the node's behavior, copies
   * `has_outputs` from the previous run, and does not execute.
   */
  lemma DiscoverUpstream(g: InputGraph, prev: seq<IntermediateNode>)
    requires ValidInput(g)
    ensures forall k :: |Seeds(g.nodes)| <= k < |Discover(g, prev)| ==>
              var r := Discover(g, prev)[k];
              r.nodeId in Ids(g) && r.behavior == NodeOf(g, r.nodeId).behavior &&
              r.hasOutputs == PrevHasOutputs(prev, r.nodeId) && !r.shouldExecute &&
              exists m :: 0 <= m < k && EdgeTo(InputsOf(g, Discover(g, prev)[m].nodeId), r.nodeId)
  {
    DiscoverInv(g, prev);
  }

  /** A discovered record is Always only when an Always record reaches it through an Always edge. */
  lemma DiscoverAlways(g: InputGraph, prev: seq<IntermediateNode>)
    requires ValidInput(g)
    ensures forall k :: |Seeds(g.nodes)| <= k < |Discover(g, prev)| && Discover(g, prev)[k].edgeBehavior == Always ==>
              exists m :: 0 <= m < |Discover(g, prev)| && Discover(g, prev)[m].edgeBehavior == Always &&
                          AlwaysEdgeTo(InputsOf(g, Discover(g, prev)[m].nodeId), Discover(g, prev)[k].nodeId)
  {
    DiscoverInv(g, prev);
  }

  /** After the backward pass a record is complete exactly when all of its node's inputs are bound. */
  lemma DiscoverComplete(g: InputGraph, prev: seq<IntermediateNode>)
    requires ValidInput(g)
    ensures forall k :: 0 <= k < |Discover(g, prev)| ==>
              Discover(g, prev)[k].isComplete == AllBound(InputsOf(g, Discover(g, prev)[k].nodeId))
  {
    DiscoverInv(g, prev);
  }

  /** One worklist step never turns an Always record back to Once. */
  lemma AdvanceNeverDemotes(g: InputGraph, prev: seq<IntermediateNode>, recs: seq<IntermediateNode>, i: nat)
    requires ValidInput(g) && WorklistOk(g, recs) && i < |recs|
    ensures forall k :: 0 <= k < |recs| && recs[k].edgeBehavior == Always ==> Advance(g, prev, recs, i)[k].edgeBehavior == Always
  {
    VisitInputsFacts(g, prev, recs[i], recs, InputsOf(g, recs[i].nodeId));
    var v := VisitInputs(g, prev, recs[i], recs, InputsOf(g, recs[i].nodeId));
    forall k | 0 <= k < |recs| && recs[k].edgeBehavior == Always ensures Advance(g, prev, recs, i)[k].edgeBehavior == Always {
      assert Promoted(recs[k], v.1[k]);
    }
  }

  /** Every bound input of every collected node has its upstream node collected too. */
  lemma DiscoverClosed(g: InputGraph, prev: seq<IntermediateNode>)
    requires ValidInput(g)
    ensures Closed(g, Discover(g, prev))
  {
    DiscoverInv(g, prev);
  }

  lemma ReversedClosed(g: InputGraph, recs: seq<IntermediateNode>)
    requires Closed(g, recs)
    ensures Closed(g, Reversed(recs))
  {
    var r := Reversed(recs);
    forall id | HasRecord(recs, id) ensures HasRecord(r, id) {
      var m :| 0 <= m < |recs| && recs[m].nodeId == id;
      assert r[|recs| - 1 - m] == recs[m];
    }
    forall k | 0 <= k < |r| ensures r[k] == recs[|recs| - 1 - k] {
    }
  }

  // ---------------------------------------------------------------- first forward pass: proofs

  /** Records the first forward pass leaves complete were complete before and have no unbound required input. */
  lemma {:induction false} Forward1Sound(g: InputGraph, recs: seq<IntermediateNode>, i: nat)
    requires Closed(g, recs) && i <= |recs|
    ensures forall k :: 0 <= k < i ==> Forward1(g, recs, i)[k] == recs[k]
    ensures forall k :: i <= k < |recs| && Forward1(g, recs, i)[k].isComplete ==>
              recs[k].isComplete &&
              forall j :: 0 <= j < |InputsOf(g, recs[k].nodeId)| && InputsOf(g, recs[k].nodeId)[j].edge.None? ==>
                            !InputsOf(g, recs[k].nodeId)[j].isRequired
    decreases |recs| - i
  {
    if i < |recs| {
      var cur := recs[i];
      var next := recs[i := cur.(isComplete := cur.isComplete && InputsComplete(recs, InputsOf(g, cur.nodeId)))];
      assert forall k :: 0 <= k < |recs| ==> next[k].nodeId == recs[k].nodeId;
      Forward1Sound(g, next, i + 1);
    }
  }

  // ---------------------------------------------------------------- first forward pass repeated until stable

  function CompleteCount(recs: seq<IntermediateNode>): nat
  {
    if recs == [] then 0 else (if recs[0].isComplete then 1 else 0) + CompleteCount(recs[1..])
  }

  /** `b` is `a` with some records turned incomplete and nothing else changed. */
  predicate OnlyLosesCompleteness(a: seq<IntermediateNode>, b: seq<IntermediateNode>)
  {
    |a| == |b| && forall k :: 0 <= k < |a| ==> b[k] == a[k].(isComplete := b[k].isComplete) && (b[k].isComplete ==> a[k].isComplete)
  }

  lemma {:induction false} CountDrops(a: seq<IntermediateNode>, b: seq<IntermediateNode>)
    requires OnlyLosesCompleteness(a, b)
    ensures CompleteCount(b) <= CompleteCount(a)
    ensures b != a ==> CompleteCount(b) < CompleteCount(a)
    decreases |a|
  {
    if a != [] {
      assert forall k :: 0 <= k < |a| - 1 ==> a[1..][k] == a[k + 1] && b[1..][k] == b[k + 1];
      CountDrops(a[1..], b[1..]);
      if b != a && b[1..] == a[1..] {
        assert a == [a[0]] + a[1..] && b == [b[0]] + b[1..];
      }
    }
  }

  lemma Forward1OnlyLoses(g: InputGraph, recs: seq<IntermediateNode>)
    requires Closed(g, recs)
    ensures OnlyLosesCompleteness(recs, Forward1(g, recs, 0))
  {
    Forward1Sound(g, recs, 0);
  }

  /**
   * The first forward pass repeated until it changes nothing, so that a
   * record read before it was marked incomplete is read again.
   */
  function Settle(g: InputGraph, recs: seq<IntermediateNode>): (r: seq<IntermediateNode>)
    requires Closed(g, recs)
    ensures Closed(g, r) && OnlyLosesCompleteness(recs, r)
    decreases CompleteCount(recs)
  {
    var next := Forward1(g, recs, 0);
    Forward1OnlyLoses(g, recs);
    ClosedSameIds(g, recs, next);
    if next == recs then recs
    else
      CountDrops(recs, next);
      Settle(g, next)
  }

  /** A pass that changes nothing leaves every complete record with complete upstream records and no unbound required input. */
  lemma {:induction false} Forward1Stable(g: InputGraph, recs: seq<IntermediateNode>, i: nat)
    requires Closed(g, recs) && i <= |recs| && Forward1(g, recs, i) == recs
    ensures forall k :: i <= k < |recs| && recs[k].isComplete ==> InputsComplete(recs, InputsOf(g, recs[k].nodeId))
    decreases |recs| - i
  {
    if i < |recs| {
      var cur := recs[i];
      var next := recs[i := cur.(isComplete := cur.isComplete && InputsComplete(recs, InputsOf(g, cur.nodeId)))];
      ClosedSameIds(g, recs, next);
      Forward1Sound(g, next, i + 1);
      assert next[i] == recs[i];
      assert next == recs;
      Forward1Stable(g, recs, i + 1);
    }
  }

  /**
   * After settling, a complete record has every required input bound and
   * every bound upstream record complete, and settling only ever turns
   * records incomplete.
   */
  lemma {:induction false} SettleConsistent(g: InputGraph, recs: seq<IntermediateNode>)
    requires Closed(g, recs)
    ensures forall k :: 0 <= k < |Settle(g, recs)| && Settle(g, recs)[k].isComplete ==>
              InputsComplete(Settle(g, recs), InputsOf(g, Settle(g, recs)[k].nodeId))
    decreases CompleteCount(recs)
  {
    var next := Forward1(g, recs, 0);
    Forward1OnlyLoses(g, recs);
    ClosedSameIds(g, recs, next);
    if next == recs {
      Forward1Stable(g, recs, 0);
    } else {
      CountDrops(recs, next);
      SettleConsistent(g, next);
    }
  }

  lemma SettleUnboundOptional(g: InputGraph, recs: seq<IntermediateNode>)
    requires Closed(g, recs)
    ensures UnboundInputsOptional(g, Settle(g, recs))
  {
    var r := Settle(g, recs);
    SettleConsistent(g, recs);
    forall k, j | 0 <= k < |r| && r[k].isComplete && 0 <= j < |InputsOf(g, r[k].nodeId)| && InputsOf(g, r[k].nodeId)[j].edge.None?
      ensures !InputsOf(g, r[k].nodeId)[j].isRequired
    {
      assert InputOk(r, InputsOf(g, r[k].nodeId)[j]);
    }
  }

  /** The records after the backward pass, its reversal and the settled first forward pass. */
  function Checked(g: InputGraph, prev: seq<IntermediateNode>): seq<IntermediateNode>
    requires ValidInput(g)
  {
    DiscoverClosed(g, prev);
    ReversedClosed(g, Discover(g, prev));
    Settle(g, Reversed(Discover(g, prev)))
  }

  /** The planned records of one `run`: backward pass, reversal, then both forward passes. */
  function Plan(g: InputGraph, prev: seq<IntermediateNode>): seq<IntermediateNode>
    requires ValidInput(g)
  {
    Forward2(g, prev, Checked(g, prev))
  }

  lemma CheckedNotExecuted(g: InputGraph, prev: seq<IntermediateNode>)
    requires ValidInput(g)
    ensures forall k :: 0 <= k < |Checked(g, prev)| ==> !Checked(g, prev)[k].shouldExecute
  {
    DiscoverSeeds(g, prev);
    DiscoverUpstream(g, prev);
    var d := Discover(g, prev);
    assert forall k :: 0 <= k < |d| ==> !d[k].shouldExecute by {
      forall k | 0 <= k < |d| ensures !d[k].shouldExecute {
        if k < |Seeds(g.nodes)| {
        }
      }
    }
  }

  /**
   * The execution rule, record by record: a record executes exactly when
   * it is complete and either has no outputs yet, or is reached by an
   * Always edge and is Active or has an Always input whose upstream
   * executed last time. An executing record gets `should_execute` and
   * `has_outputs`; a skipped one is left as it was.
   */
  lemma PlanExecutionRule(g: InputGraph, prev: seq<IntermediateNode>)
    requires ValidInput(g)
    ensures |Plan(g, prev)| == |Checked(g, prev)|
    ensures forall k :: 0 <= k < |Plan(g, prev)| ==>
              var c := Checked(g, prev)[k];
              var p := Plan(g, prev)[k];
              && (p.shouldExecute <==>
                    c.isComplete &&
                    (!c.hasOutputs ||
                     (c.edgeBehavior == Always && (c.behavior == Graph.Active || HasUpdatedInputs(prev, InputsOf(g, c.nodeId))))))
              && (p.shouldExecute ==> p == c.(shouldExecute := true, hasOutputs := true))
              && (!p.shouldExecute ==> p == c)
  {
    CheckedNotExecuted(g, prev);
  }

  /** The checked records are the discovered ones in reverse, having at most lost completeness. */
  lemma CheckedFromDiscover(g: InputGraph, prev: seq<IntermediateNode>)
    requires ValidInput(g)
    ensures |Checked(g, prev)| == |Discover(g, prev)|
    ensures forall k :: 0 <= k < |Checked(g, prev)| ==>
              var r := Discover(g, prev)[|Discover(g, prev)| - 1 - k];
              Checked(g, prev)[k] == r.(isComplete := Checked(g, prev)[k].isComplete) &&
              (Checked(g, prev)[k].isComplete ==> r.isComplete)
  {
    var d := Discover(g, prev);
    DiscoverClosed(g, prev);
    ReversedClosed(g, d);
    assert OnlyLosesCompleteness(Reversed(d), Checked(g, prev));
  }

  /** The same correspondence, indexed by discovery position. */
  lemma DiscoverToChecked(g: InputGraph, prev: seq<IntermediateNode>)
    requires ValidInput(g)
    ensures |Checked(g, prev)| == |Discover(g, prev)|
    ensures forall k :: 0 <= k < |Discover(g, prev)| ==>
              var c := Checked(g, prev)[|Discover(g, prev)| - 1 - k];
              c == Discover(g, prev)[k].(isComplete := c.isComplete) && (c.isComplete ==> Discover(g, prev)[k].isComplete)
  {
    var d := Discover(g, prev);
    CheckedFromDiscover(g, prev);
    forall k | 0 <= k < |d|
      ensures var c := Checked(g, prev)[|d| - 1 - k];
              c == d[k].(isComplete := c.isComplete) && (c.isComplete ==> d[k].isComplete)
    {
      var r := |d| - 1 - k;
      assert |d| - 1 - r == k;
    }
  }

  /** Every output node has a record, and it executes exactly when it is complete. */
  lemma PlanRunsCompleteOutputs(g: InputGraph, prev: seq<IntermediateNode>)
    requires ValidInput(g)
    ensures forall n :: 0 <= n < |g.nodes| && g.nodes[n].isOutput ==>
              exists k :: 0 <= k < |Plan(g, prev)| && Plan(g, prev)[k].nodeId == g.nodes[n].id &&
                          (Plan(g, prev)[k].shouldExecute <==> Checked(g, prev)[k].isComplete)
  {
    DiscoverSeeds(g, prev);
    DiscoverToChecked(g, prev);
    SeedsPlanned(g, prev, Seeds(g.nodes), Discover(g, prev), Checked(g, prev), Plan(g, prev));
  }

  lemma SeedsPlanned(g: InputGraph, prev: seq<IntermediateNode>, seeds: seq<IntermediateNode>,
                     d: seq<IntermediateNode>, c: seq<IntermediateNode>, p: seq<IntermediateNode>)
    requires |seeds| <= |d| && |c| == |d| && |p| == |c|
    requires forall k :: 0 <= k < |seeds| ==> !d[k].hasOutputs && !d[k].shouldExecute
    requires forall n :: 0 <= n < |g.nodes| && g.nodes[n].isOutput ==>
               exists k :: 0 <= k < |seeds| && d[k].nodeId == g.nodes[n].id
    requires forall k :: 0 <= k < |d| ==> c[|d| - 1 - k] == d[k].(isComplete := c[|d| - 1 - k].isComplete)
    requires forall k :: 0 <= k < |c| ==> p[k] == Decide(g, prev, c[k])
    ensures forall n :: 0 <= n < |g.nodes| && g.nodes[n].isOutput ==>
              exists k :: 0 <= k < |p| && p[k].nodeId == g.nodes[n].id && (p[k].shouldExecute <==> c[k].isComplete)
  {
    forall n | 0 <= n < |g.nodes| && g.nodes[n].isOutput
      ensures exists k :: 0 <= k < |p| && p[k].nodeId == g.nodes[n].id && (p[k].shouldExecute <==> c[k].isComplete)
    {
      var k :| 0 <= k < |seeds| && d[k].nodeId == g.nodes[n].id;
      var r := |d| - 1 - k;
      assert c[r] == d[k].(isComplete := c[r].isComplete);
      assert p[r] == Decide(g, prev, c[r]);
    }
  }

  /** A node with an unbound input never executes. */
  lemma PlanSkipsUnbound(g: InputGraph, prev: seq<IntermediateNode>)
    requires ValidInput(g)
    ensures forall k :: 0 <= k < |Plan(g, prev)| && !AllBound(InputsOf(g, Plan(g, prev)[k].nodeId)) ==> !Plan(g, prev)[k].shouldExecute
  {
    DiscoverComplete(g, prev);
    CheckedFromDiscover(g, prev);
    PlanExecutionRule(g, prev);
    UnboundSkipped(g, Discover(g, prev), Checked(g, prev), Plan(g, prev));
  }

  /** `PlanSkipsUnbound` over the three stages taken as plain sequences. */
  lemma UnboundSkipped(g: InputGraph, d: seq<IntermediateNode>, c: seq<IntermediateNode>, p: seq<IntermediateNode>)
    requires |c| == |d| && |p| == |c|
    requires forall m :: 0 <= m < |d| ==> d[m].isComplete == AllBound(InputsOf(g, d[m].nodeId))
    requires forall k :: 0 <= k < |c| ==>
               c[k] == d[|d| - 1 - k].(isComplete := c[k].isComplete) && (c[k].isComplete ==> d[|d| - 1 - k].isComplete)
    requires forall k :: 0 <= k < |p| ==> p[k].nodeId == c[k].nodeId && (p[k].shouldExecute ==> c[k].isComplete)
    ensures forall k :: 0 <= k < |p| && !AllBound(InputsOf(g, p[k].nodeId)) ==> !p[k].shouldExecute
  {
    forall k | 0 <= k < |p| && !AllBound(InputsOf(g, p[k].nodeId)) ensures !p[k].shouldExecute {
      var m := |d| - 1 - k;
      assert p[k].nodeId == c[k].nodeId == d[m].nodeId;
      assert !d[m].isComplete;
    }
  }

  /** A node runs only when the record of every node its bound inputs read is complete. */
  lemma PlanUpstreamComplete(g: InputGraph, prev: seq<IntermediateNode>)
    requires ValidInput(g)
    ensures forall k, j :: 0 <= k < |Plan(g, prev)| && Plan(g, prev)[k].shouldExecute &&
                           0 <= j < |InputsOf(g, Plan(g, prev)[k].nodeId)| && InputsOf(g, Plan(g, prev)[k].nodeId)[j].edge.Some? ==>
              var u := InputsOf(g, Plan(g, prev)[k].nodeId)[j].edge.value.upstream;
              HasRecord(Checked(g, prev), u) && RecordOf(Checked(g, prev), u).isComplete
  {
    var c := Checked(g, prev);
    var p := Plan(g, prev);
    PlanExecutionRule(g, prev);
    DiscoverClosed(g, prev);
    ReversedClosed(g, Discover(g, prev));
    SettleConsistent(g, Reversed(Discover(g, prev)));
    forall k, j | 0 <= k < |p| && p[k].shouldExecute && 0 <= j < |InputsOf(g, p[k].nodeId)| && InputsOf(g, p[k].nodeId)[j].edge.Some?
      ensures HasRecord(c, InputsOf(g, p[k].nodeId)[j].edge.value.upstream)
      ensures RecordOf(c, InputsOf(g, p[k].nodeId)[j].edge.value.upstream).isComplete
    {
      assert p[k].nodeId == c[k].nodeId;
      assert c[k].isComplete;
      assert InputOk(c, InputsOf(g, c[k].nodeId)[j]);
    }
  }


  // ---------------------------------------------------------------- the second forward pass as written

  /** Some Always edge of `inputs` starts at a node without a record in `prev`. */
  predicate MissingUpstream(prev: seq<IntermediateNode>, inputs: seq<InputSlot>)
  {
    exists j :: 0 <= j < |inputs| && inputs[j].edge.Some? && inputs[j].edge.value.behavior == Always &&
                !HasRecord(prev, inputs[j].edge.value.upstream)
  }

  predicate UnboundRequired(inputs: seq<InputSlot>)
  {
    exists j :: 0 <= j < |inputs| && inputs[j].edge.None? && inputs[j].isRequired
  }

  /**
   * The rule of `traverse_forward2` as the source states it: `None` where
   * the `prev_run` lookup's `unwrap()` or the `assert_eq!` on an unbound
   * input panics.
   */
  function DecideAsWritten(g: InputGraph, prev: seq<IntermediateNode>, r: IntermediateNode): (d: Option<IntermediateNode>)
    ensures d.Some? ==> d.value == Decide(g, prev, r)
    ensures d.None? <==> r.isComplete && r.hasOutputs && r.edgeBehavior == Always && r.behavior == Graph.Passive &&
                         (MissingUpstream(prev, InputsOf(g, r.nodeId)) || UnboundRequired(InputsOf(g, r.nodeId)))
  {
    if !r.isComplete then Some(r)
    else if r.hasOutputs && r.edgeBehavior == Once then Some(r)
    else if r.hasOutputs && r.behavior == Graph.Passive then
      var inputs := InputsOf(g, r.nodeId);
      if MissingUpstream(prev, inputs) || UnboundRequired(inputs) then
        assert r.isComplete && r.hasOutputs;
        assert r.edgeBehavior == Always;
        assert r.behavior == Graph.Passive;
        None
      else if HasUpdatedInputs(prev, inputs) then Some(r.(shouldExecute := true, hasOutputs := true))
      else Some(r)
    else Some(r.(shouldExecute := true, hasOutputs := true))
  }

  // ---------------------------------------------------------------- the planner object

  /** The inner `for input in inputs` loop of `traverse_backward`. */
  method VisitAll(g: InputGraph, prev: seq<IntermediateNode>, cur: IntermediateNode,
                  recs: seq<IntermediateNode>, inputs: seq<InputSlot>)
    returns (cur': IntermediateNode, recs': seq<IntermediateNode>)
    requires forall j :: 0 <= j < |inputs| && inputs[j].edge.Some? ==> inputs[j].edge.value.upstream in Ids(g)
    ensures (cur', recs') == VisitInputs(g, prev, cur, recs, inputs)
  {
    cur', recs' := cur, recs;
    var j := 0;
    while j < |inputs|
      invariant 0 <= j <= |inputs|
      invariant VisitInputs(g, prev, cur', recs', inputs[j..]) == VisitInputs(g, prev, cur, recs, inputs)
    {
      assert inputs[j..][0] == inputs[j] && inputs[j..][1..] == inputs[j + 1..];
      ghost var step := VisitInput(g, prev, cur', recs', inputs[j]);
      assert VisitInputs(g, prev, cur', recs', inputs[j..]) == VisitInputs(g, prev, step.0, step.1, inputs[j + 1..]);
      cur', recs' := VisitOne(g, prev, cur', recs', inputs[j]);
      j := j + 1;
    }
  }

  /** One iteration of that loop: mark `cur` incomplete, or find or append the upstream record and promote it. */
  method VisitOne(g: InputGraph, prev: seq<IntermediateNode>, cur: IntermediateNode,
                  recs: seq<IntermediateNode>, input: InputSlot)
    returns (cur': IntermediateNode, recs': seq<IntermediateNode>)
    requires input.edge.Some? ==> input.edge.value.upstream in Ids(g)
    ensures (cur', recs') == VisitInput(g, prev, cur, recs, input)
  {
    cur', recs' := cur, recs;
    match input.edge {
      case None => {
        cur' := cur'.(isComplete := false);
      }
      case Some(e) => {
        var found := IndexOf(recs', e.upstream);
        var k;
        if found.Some? {
          k := found.value;
        } else {
          recs' := recs' + [IntermediateNode(e.upstream, NodeOf(g, e.upstream).behavior, true, Once, false, false)];
          k := |recs'| - 1;
          var p := IndexOf(prev, e.upstream);
          if p.Some? {
            recs' := recs'[k := recs'[k].(hasOutputs := prev[p.value].hasOutputs)];
          }
          assert recs' == recs + [Discovered(g, prev, e.upstream)];
        }
        if cur'.edgeBehavior == Always && e.behavior == Always {
          recs' := recs'[k := recs'[k].(edgeBehavior := Always)];
        }
      }
    }
  }


  /** The inner `for input in inputs` loop of `traverse_forward1`. */
  method CheckInputs(recs: seq<IntermediateNode>, inputs: seq<InputSlot>) returns (complete: bool)
    requires forall j :: 0 <= j < |inputs| && inputs[j].edge.Some? ==> HasRecord(recs, inputs[j].edge.value.upstream)
    ensures complete == InputsComplete(recs, inputs)
  {
    complete := true;
    var j := 0;
    while j < |inputs|
      invariant 0 <= j <= |inputs|
      invariant complete == InputsComplete(recs, inputs[..j])
    {
      InputsCompleteExtend(recs, inputs, j);
      match inputs[j].edge {
        case Some(e) =>
          var upstream := RecordOf(recs, e.upstream);
          if !upstream.isComplete {
            complete := false;
          }
        case None =>
          if inputs[j].isRequired {
            complete := false;
          }
      }
      j := j + 1;
    }
    assert inputs[..j] == inputs;
  }

  /** The inner `for input in inputs` loop of `traverse_forward2`; its `assert_eq!` becomes the precondition. */
  method FindUpdatedInputs(prev: seq<IntermediateNode>, inputs: seq<InputSlot>) returns (updated: bool)
    requires forall j :: 0 <= j < |inputs| && inputs[j].edge.None? ==> !inputs[j].isRequired
    ensures updated == HasUpdatedInputs(prev, inputs)
  {
    updated := false;
    var j := 0;
    while j < |inputs|
      invariant 0 <= j <= |inputs|
      invariant updated == HasUpdatedInputs(prev, inputs[..j])
    {
      assert inputs[..j + 1][j] == inputs[j];
      assert forall m :: 0 <= m < j ==> inputs[..j + 1][m] == inputs[..j][m];
      match inputs[j].edge {
        case Some(e) =>
          if e.behavior == Always {
            var p := IndexOf(prev, e.upstream);
            if p.None? || prev[p.value].shouldExecute {
              updated := true;
            }
          }
        case None =>
          assert !inputs[j].isRequired;
      }
      j := j + 1;
    }
    assert inputs[..j] == inputs;
  }

  class RuntimeGraph {
    var nodes: seq<IntermediateNode>
    var prevRun: seq<IntermediateNode>

    constructor()
      ensures nodes == [] && prevRun == []
    {
      nodes := [];
      prevRun := [];
    }

    /** `run`: plan against the previous run, then keep the plan as the new previous run. */
    method Run(g: InputGraph)
      requires ValidInput(g)
      modifies this
      ensures prevRun == Plan(g, old(prevRun))
      ensures nodes == []
    {
      TraverseBackward(g);
      DiscoverClosed(g, prevRun);
      ReversedClosed(g, Discover(g, prevRun));
      var settled := false;
      while !settled
        invariant Closed(g, nodes)
        invariant Settle(g, nodes) == Checked(g, prevRun)
        invariant settled ==> Forward1(g, nodes, 0) == nodes
        invariant prevRun == old(prevRun)
        decreases CompleteCount(nodes), if settled then 0 else 1
      {
        var before := nodes;
        TraverseForward1(g);
        Forward1OnlyLoses(g, before);
        CountDrops(before, nodes);
        settled := nodes == before;
      }
      SettleUnboundOptional(g, nodes);
      TraverseForward2(g);
      prevRun, nodes := nodes, [];
    }

    method TraverseBackward(g: InputGraph)
      requires ValidInput(g)
      modifies this
      ensures nodes == Reversed(Discover(g, prevRun))
      ensures prevRun == old(prevRun)
    {
      nodes := [];
      var n := 0;
      while n < |g.nodes|
        invariant 0 <= n <= |g.nodes|
        invariant nodes == Seeds(g.nodes[..n])
        invariant prevRun == old(prevRun)
      {
        SeedsAppend(g.nodes[..n], g.nodes[n]);
        assert g.nodes[..n + 1] == g.nodes[..n] + [g.nodes[n]];
        if g.nodes[n].isOutput {
          nodes := nodes + [SeedRecord(g.nodes[n])];
        }
        n := n + 1;
      }
      assert g.nodes[..n] == g.nodes;
      SeedsInWorklist(g);

      var i := 0;
      while i < |nodes|
        invariant 0 <= i <= |nodes|
        invariant WorklistOk(g, nodes)
        invariant Backward(g, prevRun, nodes, i) == Discover(g, prevRun)
        invariant prevRun == old(prevRun)
        decreases |Ids(g)| - i
      {
        DistinctIdsBound(nodes, Ids(g));
        var cur, visited := VisitAll(g, prevRun, nodes[i], nodes, InputsOf(g, nodes[i].nodeId));
        nodes := visited[i := cur];
        i := i + 1;
      }
      nodes := Reversed(nodes);
    }

    method TraverseForward1(g: InputGraph)
      requires Closed(g, nodes)
      modifies this
      ensures nodes == Forward1(g, old(nodes), 0)
      ensures prevRun == old(prevRun)
    {
      var i := 0;
      while i < |nodes|
        invariant 0 <= i <= |nodes|
        invariant Closed(g, nodes)
        invariant Forward1(g, nodes, i) == Forward1(g, old(nodes), 0)
        invariant prevRun == old(prevRun)
      {
        var cur := nodes[i];
        var complete := CheckInputs(nodes, InputsOf(g, cur.nodeId));
        ghost var before := nodes;
        nodes := nodes[i := cur.(isComplete := cur.isComplete && complete)];
        ClosedSameIds(g, before, nodes);
        i := i + 1;
      }
    }

    method TraverseForward2(g: InputGraph)
      requires UnboundInputsOptional(g, nodes)
      modifies this
      ensures nodes == Forward2(g, prevRun, old(nodes))
      ensures prevRun == old(prevRun)
    {
      var i := 0;
      while i < |nodes|
        invariant 0 <= i <= |nodes|
        invariant |nodes| == |old(nodes)|
        invariant forall k :: 0 <= k < i ==> nodes[k] == Decide(g, prevRun, old(nodes)[k])
        invariant forall k :: i <= k < |nodes| ==> nodes[k] == old(nodes)[k]
        invariant UnboundInputsOptional(g, old(nodes))
        invariant prevRun == old(prevRun)
      {
        var cur := nodes[i];
        if !cur.isComplete {
          i := i + 1;
          continue;
        }
        if cur.hasOutputs {
          if cur.edgeBehavior == Once {
            i := i + 1;
            continue;
          }
          if cur.behavior == Graph.Passive {
            var updated := FindUpdatedInputs(prevRun, InputsOf(g, cur.nodeId));
            if !updated {
              i := i + 1;
              continue;
            }
          }
        }
        nodes := nodes[i := cur.(shouldExecute := true, hasOutputs := true)];
        i := i + 1;
      }
    }
  }
}
