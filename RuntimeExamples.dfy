/*
 * Two concrete planner runs, each traced through the backward pass, the
 * first forward pass and the execution rule of Graph/src/runtime_graph.rs:
 * a late-bound upstream node that makes the second forward pass panic as
 * written, and a diamond on which one first forward pass in reverse
 * discovery order lets a node run on an incomplete input.
 */
module RuntimeExamples {
  import opened Wrappers
  import opened Runtime
  import Graph

  /** A graph where output 1 reads passive node 2, which has gained an input bound to new node 3 since the previous run. */
  function LateBindingGraph(): InputGraph
  {
    InputGraph([
      GraphNode(1, Graph.Active, true, [InputSlot(true, Some(Edge(2, Always)))]),
      GraphNode(2, Graph.Passive, false, [InputSlot(true, Some(Edge(3, Always)))]),
      GraphNode(3, Graph.Active, false, [])])
  }

  /**
   * The previous run, on the graph before the edit: node 2 had no inputs
   * and node 3 did not exist, so both nodes were complete and executed.
   */
  function LateBindingPrev(): seq<IntermediateNode>
  {
    [IntermediateNode(2, Graph.Passive, true, Always, true, true),
     IntermediateNode(1, Graph.Active, true, Always, true, true)]
  }

  /** The records the backward pass makes for outputs 1, passive node 2 and new node 3. */
  function LateOutput(): IntermediateNode { IntermediateNode(1, Graph.Active, true, Always, false, false) }
  function LatePassive(): IntermediateNode { IntermediateNode(2, Graph.Passive, true, Always, false, true) }
  function LateSource(): IntermediateNode { IntermediateNode(3, Graph.Active, true, Always, false, false) }

  lemma LateBindingIds()
    ensures Ids(LateBindingGraph()) == {1, 2, 3}
  {
    var g := LateBindingGraph();
    assert g.nodes[0] in g.nodes && g.nodes[1] in g.nodes && g.nodes[2] in g.nodes;
  }

  lemma LateBindingValid()
    ensures Ids(LateBindingGraph()) == {1, 2, 3}
    ensures ValidInput(LateBindingGraph())
  {
    var g := LateBindingGraph();
    LateBindingIds();
    forall i, k | 0 <= i < |g.nodes| && 0 <= k < |g.nodes[i].inputs| && g.nodes[i].inputs[k].edge.Some?
      ensures g.nodes[i].inputs[k].edge.value.upstream in Ids(g)
    {
      assert g.nodes[i].inputs[k].edge.value.upstream in {2, 3};
    }
    forall a, b | 0 <= a < b < |g.nodes| ensures g.nodes[a].id != g.nodes[b].id {
      assert g.nodes[a].id == a + 1 && g.nodes[b].id == b + 1;
    }
  }

  lemma LateBindingInputs()
    ensures InputsOf(LateBindingGraph(), 1) == [InputSlot(true, Some(Edge(2, Always)))]
    ensures InputsOf(LateBindingGraph(), 2) == [InputSlot(true, Some(Edge(3, Always)))]
    ensures InputsOf(LateBindingGraph(), 3) == []
  {
    var g := LateBindingGraph();
    assert forall a, b :: 0 <= a < b < |g.nodes| ==> g.nodes[a].id != g.nodes[b].id;
    InputsOfAt(g, 0);
    InputsOfAt(g, 1);
    InputsOfAt(g, 2);
  }

  lemma LateBindingSeeds()
    ensures Seeds(LateBindingGraph().nodes) == [LateOutput()]
  {
    var ns := LateBindingGraph().nodes;
    assert ns[1..][1..][1..] == [];
    assert Seeds(ns[1..][1..]) == [];
    assert Seeds(ns[1..]) == [];
  }

  /** Node 2 inherits `has_outputs` from its previous record; node 3 has none. */
  lemma LateBindingDiscovered()
    ensures 2 in Ids(LateBindingGraph()) && 3 in Ids(LateBindingGraph())
    ensures Discovered(LateBindingGraph(), LateBindingPrev(), 2).(edgeBehavior := Always) == LatePassive()
    ensures Discovered(LateBindingGraph(), LateBindingPrev(), 3).(edgeBehavior := Always) == LateSource()
  {
    var g := LateBindingGraph();
    var prev := LateBindingPrev();
    LateBindingIds();
    assert NodeOf(g, 2) == g.nodes[1] && NodeOf(g, 3) == g.nodes[2];
    assert DistinctIds(prev);
    assert prev[0].nodeId == 2;
    assert IndexOf(prev, 2) == Some(0);
    assert !HasRecord(prev, 3);
  }

  /** What the backward pass needs to know of the late-binding graph. */
  predicate LateBindingShaped(g: InputGraph)
  {
    && ValidInput(g) && Ids(g) == {1, 2, 3}
    && InputsOf(g, 1) == [InputSlot(true, Some(Edge(2, Always)))]
    && InputsOf(g, 2) == [InputSlot(true, Some(Edge(3, Always)))]
    && InputsOf(g, 3) == []
    && Seeds(g.nodes) == [LateOutput()]
    && Discovered(g, LateBindingPrev(), 2).(edgeBehavior := Always) == LatePassive()
    && Discovered(g, LateBindingPrev(), 3).(edgeBehavior := Always) == LateSource()
  }

  lemma LateBindingIsShaped()
    ensures LateBindingShaped(LateBindingGraph())
  {
    LateBindingValid();
    LateBindingInputs();
    LateBindingSeeds();
    LateBindingDiscovered();
  }

  lemma LateBindingWorklists(g: InputGraph)
    requires Ids(g) == {1, 2, 3}
    ensures WorklistOk(g, [LateOutput()])
    ensures WorklistOk(g, [LateOutput(), LatePassive()])
    ensures WorklistOk(g, [LateOutput(), LatePassive(), LateSource()])
  {
  }

  lemma LateBindingAdvance0(g: InputGraph)
    requires LateBindingShaped(g) && WorklistOk(g, [LateOutput()])
    ensures Advance(g, LateBindingPrev(), [LateOutput()], 0) == [LateOutput(), LatePassive()]
  {
    VisitOneNew(g, LateBindingPrev(), LateOutput(), [LateOutput()], Edge(2, Always));
  }

  lemma LateBindingAdvance1(g: InputGraph)
    requires ValidInput(g) && WorklistOk(g, [LateOutput(), LatePassive()])
    requires InputsOf(g, 2) == [InputSlot(true, Some(Edge(3, Always)))] && 3 in Ids(g)
    requires Discovered(g, LateBindingPrev(), 3).(edgeBehavior := Always) == LateSource()
    ensures Advance(g, LateBindingPrev(), [LateOutput(), LatePassive()], 1) == [LateOutput(), LatePassive(), LateSource()]
  {
    var recs := [LateOutput(), LatePassive()];
    AdvanceOneNew(g, LateBindingPrev(), recs, 1, Edge(3, Always));
  }

  lemma LateBindingAdvance2(g: InputGraph)
    requires LateBindingShaped(g) && WorklistOk(g, [LateOutput(), LatePassive(), LateSource()])
    ensures var recs := [LateOutput(), LatePassive(), LateSource()];
            Advance(g, LateBindingPrev(), recs, 2) == recs
  {
    var recs := [LateOutput(), LatePassive(), LateSource()];
    assert recs[2 := LateSource()] == recs;
  }

  lemma LateBindingShapedBackward(g: InputGraph)
    requires LateBindingShaped(g)
    ensures Discover(g, LateBindingPrev()) == [LateOutput(), LatePassive(), LateSource()]
  {
    var prev := LateBindingPrev();
    var r1 := [LateOutput()];
    var r2 := [LateOutput(), LatePassive()];
    var r3 := [LateOutput(), LatePassive(), LateSource()];
    LateBindingWorklists(g);
    LateBindingAdvance0(g);
    LateBindingAdvance1(g);
    LateBindingAdvance2(g);
    assert Discover(g, prev) == Backward(g, prev, r1, 0);
    assert Backward(g, prev, r1, 0) == Backward(g, prev, r2, 1);
    assert Backward(g, prev, r2, 1) == Backward(g, prev, r3, 2);
    assert Backward(g, prev, r3, 2) == Backward(g, prev, r3, 3);
  }

  lemma LateBindingReversed()
    ensures Reversed([LateOutput(), LatePassive(), LateSource()]) == [LateSource(), LatePassive(), LateOutput()]
  {
    var r := Reversed([LateOutput(), LatePassive(), LateSource()]);
    assert |r| == 3 && r[0] == LateSource() && r[1] == LatePassive() && r[2] == LateOutput();
  }

  /** A pass over complete records whose inputs are all bound changes nothing. */
  lemma {:induction false} Forward1AllComplete(g: InputGraph, recs: seq<IntermediateNode>, i: nat)
    requires Closed(g, recs) && i <= |recs|
    requires forall k :: 0 <= k < |recs| ==> recs[k].isComplete && AllBound(InputsOf(g, recs[k].nodeId))
    ensures Forward1(g, recs, i) == recs
    decreases |recs| - i
  {
    if i < |recs| {
      var inputs := InputsOf(g, recs[i].nodeId);
      forall j | 0 <= j < |inputs| ensures InputOk(recs, inputs[j]) {
        assert inputs[j].edge.Some?;
        assert RecordOf(recs, inputs[j].edge.value.upstream) in recs;
      }
      assert recs[i := recs[i].(isComplete := true)] == recs;
      Forward1AllComplete(g, recs, i + 1);
    }
  }

  lemma LateBindingClosed(g: InputGraph)
    requires InputsOf(g, 1) == [InputSlot(true, Some(Edge(2, Always)))]
    requires InputsOf(g, 2) == [InputSlot(true, Some(Edge(3, Always)))]
    requires InputsOf(g, 3) == []
    ensures var r := [LateSource(), LatePassive(), LateOutput()];
            Closed(g, r) && forall k :: 0 <= k < |r| ==> r[k].isComplete && AllBound(InputsOf(g, r[k].nodeId))
  {
    var r := [LateSource(), LatePassive(), LateOutput()];
    assert HasRecord(r, 2) && HasRecord(r, 3) by {
      assert r[0].nodeId == 3 && r[1].nodeId == 2;
    }
    forall k, j | 0 <= k < |r| && 0 <= j < |InputsOf(g, r[k].nodeId)| && InputsOf(g, r[k].nodeId)[j].edge.Some?
      ensures HasRecord(r, InputsOf(g, r[k].nodeId)[j].edge.value.upstream)
    {
      if k == 1 {
        assert InputsOf(g, r[k].nodeId)[j].edge.value.upstream == 3;
      } else if k == 2 {
        assert InputsOf(g, r[k].nodeId)[j].edge.value.upstream == 2;
      }
    }
    forall k | 0 <= k < |r| ensures r[k].isComplete && AllBound(InputsOf(g, r[k].nodeId)) {
      assert r[k].nodeId in {1, 2, 3};
    }
  }

  lemma LateBindingShapedChecked(g: InputGraph)
    requires LateBindingShaped(g)
    ensures Checked(g, LateBindingPrev()) == [LateSource(), LatePassive(), LateOutput()]
  {
    var r := [LateSource(), LatePassive(), LateOutput()];
    LateBindingShapedBackward(g);
    LateBindingReversed();
    LateBindingClosed(g);
    Forward1AllComplete(g, r, 0);
    assert Checked(g, LateBindingPrev()) == Settle(g, r);
  }

  /**
   * On the graph above, node 2's record (complete, already with outputs,
   * reached through Always edges from the output node) makes the planner
   * as written panic, because its upstream node 3 has no `prev_run`
   * record; the model plans node 2 to execute.
   */
  lemma LateBindingShapedPanics(g: InputGraph)
    requires LateBindingShaped(g)
    ensures |Checked(g, LateBindingPrev())| == 3 && Checked(g, LateBindingPrev())[1] == LatePassive()
    ensures DecideAsWritten(g, LateBindingPrev(), LatePassive()).None?
    ensures |Plan(g, LateBindingPrev())| == 3 && Plan(g, LateBindingPrev())[1].shouldExecute
  {
    var prev := LateBindingPrev();
    LateBindingShapedChecked(g);
    assert !HasRecord(prev, 3);
    assert InputsOf(g, 2)[0].edge.value.upstream == 3;
    assert MissingUpstream(prev, InputsOf(g, 2));
    assert UpstreamUpdated(prev, 3);
    assert HasUpdatedInputs(prev, InputsOf(g, 2));
  }

  lemma LateBindingPanics()
    ensures ValidInput(LateBindingGraph())
    ensures |Checked(LateBindingGraph(), LateBindingPrev())| == 3
    ensures Checked(LateBindingGraph(), LateBindingPrev())[1] == LatePassive()
    ensures DecideAsWritten(LateBindingGraph(), LateBindingPrev(), LatePassive()).None?
    ensures |Plan(LateBindingGraph(), LateBindingPrev())| == 3 && Plan(LateBindingGraph(), LateBindingPrev())[1].shouldExecute
  {
    LateBindingIsShaped();
    LateBindingShapedPanics(LateBindingGraph());
  }

  /** With distinct ids, the inputs of the node at index `i` are found under its id. */
  lemma InputsOfAt(g: InputGraph, i: nat)
    requires i < |g.nodes|
    requires forall a, b :: 0 <= a < b < |g.nodes| ==> g.nodes[a].id != g.nodes[b].id
    ensures InputsOf(g, g.nodes[i].id) == g.nodes[i].inputs
  {
    assert g.nodes[i] in g.nodes;
    var n := NodeOf(g, g.nodes[i].id);
    var m :| 0 <= m < |g.nodes| && g.nodes[m] == n;
    assert m == i;
  }

  /** With distinct ids, the record found under the id of record `k` is record `k`. */
  lemma RecordOfAt(recs: seq<IntermediateNode>, k: nat)
    requires k < |recs| && DistinctIds(recs)
    ensures HasRecord(recs, recs[k].nodeId) && RecordOf(recs, recs[k].nodeId) == recs[k]
  {
    assert HasId(recs[k].nodeId)(recs[k]);
  }

  /**
   * Output 1 reads nodes 2 and 3, node 3 also reads node 2, and node 2
   * reads node 4, whose required input is unbound.
   */
  function DiamondGraph(): InputGraph
  {
    InputGraph([
      GraphNode(1, Graph.Active, true, [InputSlot(true, Some(Edge(2, Always))), InputSlot(true, Some(Edge(3, Always)))]),
      GraphNode(2, Graph.Active, false, [InputSlot(true, Some(Edge(4, Always)))]),
      GraphNode(3, Graph.Active, false, [InputSlot(true, Some(Edge(2, Always)))]),
      GraphNode(4, Graph.Active, false, [InputSlot(true, None)])])
  }

  /** A record of the diamond as the backward pass leaves it: Active, Always, not yet executed. */
  function DiamondRecord(id: NodeId): IntermediateNode
  {
    IntermediateNode(id, Graph.Active, true, Always, false, false)
  }

  /** The records of the diamond after the backward pass with an empty previous run: 4, 3, 2, 1. */
  function DiamondRecords(): seq<IntermediateNode>
  {
    [DiamondRecord(4).(isComplete := false), DiamondRecord(3), DiamondRecord(2), DiamondRecord(1)]
  }

  lemma DiamondIds()
    ensures Ids(DiamondGraph()) == {1, 2, 3, 4}
  {
    var g := DiamondGraph();
    assert g.nodes[0] in g.nodes && g.nodes[1] in g.nodes && g.nodes[2] in g.nodes && g.nodes[3] in g.nodes;
  }

  lemma DiamondValid()
    ensures Ids(DiamondGraph()) == {1, 2, 3, 4}
    ensures ValidInput(DiamondGraph())
  {
    var g := DiamondGraph();
    DiamondIds();
    forall i, k | 0 <= i < |g.nodes| && 0 <= k < |g.nodes[i].inputs| && g.nodes[i].inputs[k].edge.Some?
      ensures g.nodes[i].inputs[k].edge.value.upstream in Ids(g)
    {
      assert g.nodes[i].inputs[k].edge.value.upstream in {2, 3, 4};
    }
    forall a, b | 0 <= a < b < |g.nodes| ensures g.nodes[a].id != g.nodes[b].id {
      assert g.nodes[a].id == a + 1 && g.nodes[b].id == b + 1;
    }
  }

  /** The diamond's nodes, found by id. */
  lemma DiamondInputs()
    ensures InputsOf(DiamondGraph(), 1) == [InputSlot(true, Some(Edge(2, Always))), InputSlot(true, Some(Edge(3, Always)))]
    ensures InputsOf(DiamondGraph(), 2) == [InputSlot(true, Some(Edge(4, Always)))]
    ensures InputsOf(DiamondGraph(), 3) == [InputSlot(true, Some(Edge(2, Always)))]
    ensures InputsOf(DiamondGraph(), 4) == [InputSlot(true, None)]
  {
    var g := DiamondGraph();
    assert forall a, b :: 0 <= a < b < |g.nodes| ==> g.nodes[a].id != g.nodes[b].id;
    InputsOfAt(g, 0);
    InputsOfAt(g, 1);
    InputsOfAt(g, 2);
    InputsOfAt(g, 3);
  }

  /** An input bound to a node without a record pushes that node's record, promoted when both edges are Always. */
  lemma VisitNew(g: InputGraph, prev: seq<IntermediateNode>, cur: IntermediateNode, recs: seq<IntermediateNode>,
                 required: bool, e: Edge)
    requires e.upstream in Ids(g) && !HasRecord(recs, e.upstream)
    ensures var d := Discovered(g, prev, e.upstream);
            VisitInput(g, prev, cur, recs, InputSlot(required, Some(e))) ==
              (cur, recs + [if cur.edgeBehavior == Always && e.behavior == Always then d.(edgeBehavior := Always) else d])
  {
    var d := Discovered(g, prev, e.upstream);
    assert (recs + [d])[|recs| := d.(edgeBehavior := Always)] == recs + [d.(edgeBehavior := Always)];
  }

  /** An input bound to a node with record `k` promotes that record when both edges are Always. */
  lemma VisitKnown(g: InputGraph, prev: seq<IntermediateNode>, cur: IntermediateNode, recs: seq<IntermediateNode>,
                   required: bool, e: Edge, k: nat)
    requires e.upstream in Ids(g) && DistinctIds(recs) && k < |recs| && recs[k].nodeId == e.upstream
    ensures VisitInput(g, prev, cur, recs, InputSlot(required, Some(e))) ==
              (cur, if cur.edgeBehavior == Always && e.behavior == Always then recs[k := recs[k].(edgeBehavior := Always)] else recs)
  {
  }

  /** The inner loop over a non-empty input list visits the first input, then the rest. */
  lemma VisitInputsCons(g: InputGraph, prev: seq<IntermediateNode>, cur: IntermediateNode,
                        recs: seq<IntermediateNode>, inputs: seq<InputSlot>, next: (IntermediateNode, seq<IntermediateNode>))
    requires inputs != []
    requires forall j :: 0 <= j < |inputs| && inputs[j].edge.Some? ==> inputs[j].edge.value.upstream in Ids(g)
    requires VisitInput(g, prev, cur, recs, inputs[0]) == next
    ensures VisitInputs(g, prev, cur, recs, inputs) == VisitInputs(g, prev, next.0, next.1, inputs[1..])
  {
  }

  /** With an empty previous run, the diamond's nodes are discovered as Active records without outputs. */
  lemma DiamondDiscovered(id: NodeId)
    requires id in Ids(DiamondGraph())
    ensures Discovered(DiamondGraph(), [], id).(edgeBehavior := Always) == DiamondRecord(id)
  {
    var g := DiamondGraph();
    var n := NodeOf(g, id);
    var i :| 0 <= i < |g.nodes| && g.nodes[i] == n;
    assert n.behavior == Graph.Active;
  }

  lemma DiamondSeeds()
    ensures Seeds(DiamondGraph().nodes) == [DiamondRecord(1)]
  {
    var ns := DiamondGraph().nodes;
    assert ns[1..][1..][1..][1..] == [];
    assert Seeds(ns[1..][1..][1..]) == [];
    assert Seeds(ns[1..][1..]) == [];
    assert Seeds(ns[1..]) == [];
  }

  /** Processing output 1 pushes Always records for nodes 2 and 3. */
  /** A single Always input from an Always record to a node without a record pushes an Always record. */
  lemma VisitOneNew(g: InputGraph, prev: seq<IntermediateNode>, cur: IntermediateNode, recs: seq<IntermediateNode>, e: Edge)
    requires e.upstream in Ids(g) && !HasRecord(recs, e.upstream)
    requires cur.edgeBehavior == Always && e.behavior == Always
    ensures VisitInputs(g, prev, cur, recs, [InputSlot(true, Some(e))]) ==
            (cur, recs + [Discovered(g, prev, e.upstream).(edgeBehavior := Always)])
  {
    VisitNew(g, prev, cur, recs, true, e);
    VisitInputsCons(g, prev, cur, recs, [InputSlot(true, Some(e))], (cur, recs + [Discovered(g, prev, e.upstream).(edgeBehavior := Always)]));
  }

  /** A record with one bound Always input to a node not yet listed pushes an Always record for that node. */
  lemma AdvanceOneNew(g: InputGraph, prev: seq<IntermediateNode>, recs: seq<IntermediateNode>, i: nat, e: Edge)
    requires ValidInput(g) && WorklistOk(g, recs) && i < |recs|
    requires InputsOf(g, recs[i].nodeId) == [InputSlot(true, Some(e))]
    requires e.upstream in Ids(g) && !HasRecord(recs, e.upstream)
    requires recs[i].edgeBehavior == Always && e.behavior == Always
    ensures Advance(g, prev, recs, i) == recs + [Discovered(g, prev, e.upstream).(edgeBehavior := Always)]
  {
    var n := Discovered(g, prev, e.upstream).(edgeBehavior := Always);
    VisitOneNew(g, prev, recs[i], recs, e);
    assert (recs + [n])[i := recs[i]] == recs + [n];
  }

  /** Two such inputs to two different nodes push two Always records, in input order. */
  lemma VisitTwoNew(g: InputGraph, prev: seq<IntermediateNode>, cur: IntermediateNode, recs: seq<IntermediateNode>, e: Edge, f: Edge)
    requires e.upstream in Ids(g) && !HasRecord(recs, e.upstream)
    requires f.upstream in Ids(g) && !HasRecord(recs, f.upstream) && e.upstream != f.upstream
    requires cur.edgeBehavior == Always && e.behavior == Always && f.behavior == Always
    ensures VisitInputs(g, prev, cur, recs, [InputSlot(true, Some(e)), InputSlot(true, Some(f))]) ==
            (cur, recs + [Discovered(g, prev, e.upstream).(edgeBehavior := Always), Discovered(g, prev, f.upstream).(edgeBehavior := Always)])
  {
    var ins := [InputSlot(true, Some(e)), InputSlot(true, Some(f))];
    var d := Discovered(g, prev, e.upstream).(edgeBehavior := Always);
    VisitNew(g, prev, cur, recs, true, e);
    VisitInputsCons(g, prev, cur, recs, ins, (cur, recs + [d]));
    assert ins[1..] == [InputSlot(true, Some(f))];
    assert !HasRecord(recs + [d], f.upstream);
    VisitOneNew(g, prev, cur, recs + [d], f);
    assert recs + [d] + [Discovered(g, prev, f.upstream).(edgeBehavior := Always)] ==
           recs + [d, Discovered(g, prev, f.upstream).(edgeBehavior := Always)];
  }

  /** A single Always input from an Always record to the node of record `k` promotes that record. */
  lemma VisitOneKnown(g: InputGraph, prev: seq<IntermediateNode>, cur: IntermediateNode, recs: seq<IntermediateNode>, e: Edge, k: nat)
    requires e.upstream in Ids(g) && DistinctIds(recs) && k < |recs| && recs[k].nodeId == e.upstream
    requires cur.edgeBehavior == Always && e.behavior == Always
    ensures VisitInputs(g, prev, cur, recs, [InputSlot(true, Some(e))]) == (cur, recs[k := recs[k].(edgeBehavior := Always)])
  {
    VisitKnown(g, prev, cur, recs, true, e, k);
    VisitInputsCons(g, prev, cur, recs, [InputSlot(true, Some(e))], (cur, recs[k := recs[k].(edgeBehavior := Always)]));
  }

  /** A single unbound input makes the record incomplete and pushes nothing. */
  lemma VisitOneUnbound(g: InputGraph, prev: seq<IntermediateNode>, cur: IntermediateNode, recs: seq<IntermediateNode>)
    ensures VisitInputs(g, prev, cur, recs, [InputSlot(true, None)]) == (cur.(isComplete := false), recs)
  {
    VisitInputsCons(g, prev, cur, recs, [InputSlot(true, None)], (cur.(isComplete := false), recs));
  }

  /** What the backward pass needs to know of the diamond graph. */
  predicate DiamondShaped(g: InputGraph)
  {
    && ValidInput(g) && Ids(g) == {1, 2, 3, 4}
    && InputsOf(g, 1) == [InputSlot(true, Some(Edge(2, Always))), InputSlot(true, Some(Edge(3, Always)))]
    && InputsOf(g, 2) == [InputSlot(true, Some(Edge(4, Always)))]
    && InputsOf(g, 3) == [InputSlot(true, Some(Edge(2, Always)))]
    && InputsOf(g, 4) == [InputSlot(true, None)]
    && Seeds(g.nodes) == [DiamondRecord(1)]
    && Discovered(g, [], 2).(edgeBehavior := Always) == DiamondRecord(2)
    && Discovered(g, [], 3).(edgeBehavior := Always) == DiamondRecord(3)
    && Discovered(g, [], 4).(edgeBehavior := Always) == DiamondRecord(4)
  }

  lemma DiamondIsShaped()
    ensures DiamondShaped(DiamondGraph())
  {
    DiamondValid();
    DiamondInputs();
    DiamondSeeds();
    DiamondDiscovered(2);
    DiamondDiscovered(3);
    DiamondDiscovered(4);
  }

  /** The worklists the backward pass goes through on the diamond. */
  lemma DiamondWorklists(g: InputGraph)
    requires Ids(g) == {1, 2, 3, 4}
    ensures WorklistOk(g, [DiamondRecord(1)])
    ensures WorklistOk(g, [DiamondRecord(1), DiamondRecord(2), DiamondRecord(3)])
    ensures WorklistOk(g, [DiamondRecord(1), DiamondRecord(2), DiamondRecord(3), DiamondRecord(4)])
  {
  }

  /** Output 1's two inputs push Always records for nodes 2 and 3. */
  lemma DiamondVisit0(g: InputGraph)
    requires Ids(g) == {1, 2, 3, 4}
    requires InputsOf(g, 1) == [InputSlot(true, Some(Edge(2, Always))), InputSlot(true, Some(Edge(3, Always)))]
    requires Discovered(g, [], 2).(edgeBehavior := Always) == DiamondRecord(2)
    requires Discovered(g, [], 3).(edgeBehavior := Always) == DiamondRecord(3)
    ensures VisitInputs(g, [], DiamondRecord(1), [DiamondRecord(1)], InputsOf(g, 1)) ==
            (DiamondRecord(1), [DiamondRecord(1), DiamondRecord(2), DiamondRecord(3)])
  {
    var c := DiamondRecord(1);
    VisitTwoNew(g, [], c, [c], Edge(2, Always), Edge(3, Always));
    assert [c] + [DiamondRecord(2), DiamondRecord(3)] == [c, DiamondRecord(2), DiamondRecord(3)];
  }

  /** Processing output 1 pushes Always records for nodes 2 and 3. */
  lemma DiamondAdvance0(g: InputGraph)
    requires DiamondShaped(g) && WorklistOk(g, [DiamondRecord(1)])
    ensures Advance(g, [], [DiamondRecord(1)], 0) == [DiamondRecord(1), DiamondRecord(2), DiamondRecord(3)]
  {
    DiamondVisit0(g);
  }

  /** Processing node 2 pushes an Always record for node 4. */
  lemma DiamondAdvance1(g: InputGraph)
    requires ValidInput(g) && WorklistOk(g, [DiamondRecord(1), DiamondRecord(2), DiamondRecord(3)])
    requires InputsOf(g, 2) == [InputSlot(true, Some(Edge(4, Always)))] && 4 in Ids(g)
    requires Discovered(g, [], 4).(edgeBehavior := Always) == DiamondRecord(4)
    ensures Advance(g, [], [DiamondRecord(1), DiamondRecord(2), DiamondRecord(3)], 1) ==
            [DiamondRecord(1), DiamondRecord(2), DiamondRecord(3), DiamondRecord(4)]
  {
    var recs := [DiamondRecord(1), DiamondRecord(2), DiamondRecord(3)];
    assert !HasRecord(recs, 4);
    AdvanceOneNew(g, [], recs, 1, Edge(4, Always));
  }

  /** Processing node 3 finds node 2's record, already Always, and changes nothing. */
  lemma DiamondAdvance2(g: InputGraph)
    requires DiamondShaped(g) && WorklistOk(g, [DiamondRecord(1), DiamondRecord(2), DiamondRecord(3), DiamondRecord(4)])
    ensures var recs := [DiamondRecord(1), DiamondRecord(2), DiamondRecord(3), DiamondRecord(4)];
            Advance(g, [], recs, 2) == recs
  {
    var recs := [DiamondRecord(1), DiamondRecord(2), DiamondRecord(3), DiamondRecord(4)];
    VisitOneKnown(g, [], recs[2], recs, Edge(2, Always), 1);
    assert recs[1 := recs[1].(edgeBehavior := Always)] == recs;
    assert recs[2 := recs[2]] == recs;
  }

  /** Processing node 4 finds its input unbound and marks it incomplete. */
  lemma DiamondAdvance3(g: InputGraph)
    requires DiamondShaped(g) && WorklistOk(g, [DiamondRecord(1), DiamondRecord(2), DiamondRecord(3), DiamondRecord(4)])
    ensures var recs := [DiamondRecord(1), DiamondRecord(2), DiamondRecord(3), DiamondRecord(4)];
            Advance(g, [], recs, 3) == recs[3 := DiamondRecord(4).(isComplete := false)]
  {
    var recs := [DiamondRecord(1), DiamondRecord(2), DiamondRecord(3), DiamondRecord(4)];
    VisitOneUnbound(g, [], recs[3], recs);
  }

  /** The last two iterations of the worklist loop on the diamond. */
  lemma DiamondBackwardTail(g: InputGraph)
    requires DiamondShaped(g)
    requires WorklistOk(g, [DiamondRecord(1), DiamondRecord(2), DiamondRecord(3), DiamondRecord(4)])
    ensures Backward(g, [], [DiamondRecord(1), DiamondRecord(2), DiamondRecord(3), DiamondRecord(4)], 2) == DiamondDiscovery()
  {
    var r4 := [DiamondRecord(1), DiamondRecord(2), DiamondRecord(3), DiamondRecord(4)];
    var r5 := r4[3 := DiamondRecord(4).(isComplete := false)];
    DiamondAdvance2(g);
    DiamondAdvance3(g);
    assert Backward(g, [], r4, 2) == Backward(g, [], r4, 3);
    assert Backward(g, [], r4, 3) == Backward(g, [], r5, 4);
    assert r5 == DiamondDiscovery();
  }

  /** The first two iterations of the worklist loop on the diamond. */
  lemma DiamondBackwardHead(g: InputGraph)
    requires DiamondShaped(g)
    ensures WorklistOk(g, [DiamondRecord(1)])
    ensures WorklistOk(g, [DiamondRecord(1), DiamondRecord(2), DiamondRecord(3), DiamondRecord(4)])
    ensures Backward(g, [], [DiamondRecord(1)], 0) ==
            Backward(g, [], [DiamondRecord(1), DiamondRecord(2), DiamondRecord(3), DiamondRecord(4)], 2)
  {
    var r1 := [DiamondRecord(1)];
    var r3 := [DiamondRecord(1), DiamondRecord(2), DiamondRecord(3)];
    DiamondWorklists(g);
    DiamondAdvance0(g);
    DiamondAdvance1(g);
    assert Backward(g, [], r1, 0) == Backward(g, [], r3, 1);
  }

  lemma DiamondReversed()
    ensures Reversed(DiamondDiscovery()) == DiamondRecords()
  {
    var r := Reversed(DiamondDiscovery());
    assert |r| == 4;
    assert r[0] == DiamondRecords()[0] && r[1] == DiamondRecords()[1];
    assert r[2] == DiamondRecords()[2] && r[3] == DiamondRecords()[3];
  }

  /** The diamond's records after the backward pass, in discovery order. */
  function DiamondDiscovery(): seq<IntermediateNode>
  {
    [DiamondRecord(1), DiamondRecord(2), DiamondRecord(3), DiamondRecord(4).(isComplete := false)]
  }

  lemma DiamondShapedDiscover(g: InputGraph)
    requires ValidInput(g) && Seeds(g.nodes) == [DiamondRecord(1)]
    requires WorklistOk(g, [DiamondRecord(1)])
    requires WorklistOk(g, [DiamondRecord(1), DiamondRecord(2), DiamondRecord(3), DiamondRecord(4)])
    requires Backward(g, [], [DiamondRecord(1)], 0) ==
             Backward(g, [], [DiamondRecord(1), DiamondRecord(2), DiamondRecord(3), DiamondRecord(4)], 2)
    requires Backward(g, [], [DiamondRecord(1), DiamondRecord(2), DiamondRecord(3), DiamondRecord(4)], 2) == DiamondDiscovery()
    ensures Discover(g, []) == DiamondDiscovery()
  {
  }

  /**
   * With an empty previous run, the backward pass leaves the diamond's
   * records in the order 4, 3, 2, 1.
   */
  lemma DiamondBackward()
    ensures ValidInput(DiamondGraph())
    ensures Reversed(Discover(DiamondGraph(), [])) == DiamondRecords()
  {
    DiamondIsShaped();
    DiamondBackwardHead(DiamondGraph());
    DiamondBackwardTail(DiamondGraph());
    DiamondShapedDiscover(DiamondGraph());
    DiamondReversed();
  }


  lemma DiamondClosed()
    ensures DistinctIds(DiamondRecords())
    ensures Closed(DiamondGraph(), DiamondRecords())
  {
    var g := DiamondGraph();
    var r := DiamondRecords();
    DiamondValid();
    assert r[3].nodeId == 1 && r[2].nodeId == 2 && r[1].nodeId == 3 && r[0].nodeId == 4;
    assert forall id :: id in Ids(g) ==> HasRecord(r, id);
  }

  /** Node 4 is already incomplete and stays so. */
  lemma DiamondFirstStep()
    ensures Closed(DiamondGraph(), DiamondRecords())
    ensures Forward1(DiamondGraph(), DiamondRecords(), 0) == Forward1(DiamondGraph(), DiamondRecords(), 1)
  {
    var r := DiamondRecords();
    DiamondClosed();
    assert r[0 := r[0].(isComplete := false)] == r;
  }

  /** Node 3 reads node 2, still complete, and stays complete. */
  lemma DiamondSecondStep()
    ensures Closed(DiamondGraph(), DiamondRecords())
    ensures Forward1(DiamondGraph(), DiamondRecords(), 1) == Forward1(DiamondGraph(), DiamondRecords(), 2)
  {
    var g := DiamondGraph();
    var r := DiamondRecords();
    DiamondValid();
    DiamondClosed();
    InputsOfAt(g, 2);
    RecordOfAt(r, 2);
    assert InputOk(r, InputsOf(g, 3)[0]);
    assert InputsComplete(r, InputsOf(g, 3));
    assert r[1 := r[1].(isComplete := true)] == r;
  }

  /** Node 2 reads node 4, which is incomplete, and turns incomplete. */
  lemma DiamondThirdStep()
    ensures Closed(DiamondGraph(), DiamondRecords())
    ensures var s := DiamondRecords()[2 := DiamondRecords()[2].(isComplete := false)];
            Closed(DiamondGraph(), s) && Forward1(DiamondGraph(), DiamondRecords(), 2) == Forward1(DiamondGraph(), s, 3)
  {
    var g := DiamondGraph();
    var r := DiamondRecords();
    DiamondValid();
    DiamondClosed();
    InputsOfAt(g, 1);
    RecordOfAt(r, 0);
    assert !InputOk(r, InputsOf(g, 2)[0]);
    assert !InputsComplete(r, InputsOf(g, 2));
    var s := r[2 := r[2].(isComplete := false)];
    ClosedSameIds(g, r, s);
  }

  /**
   * One pass of `traverse_forward1` over the diamond leaves node 3
   * complete although its upstream node 2 ends incomplete: node 3 is
   * checked before node 2 learns that node 4 is incomplete.
   */
  lemma DiamondForward1()
    ensures Closed(DiamondGraph(), DiamondRecords())
    ensures var f := Forward1(DiamondGraph(), DiamondRecords(), 0);
            && f[1].nodeId == 3 && f[1].isComplete
            && f[2].nodeId == 2 && !f[2].isComplete
            && InputsOf(DiamondGraph(), 3)[0].edge == Some(Edge(2, Always))
            && Forward2(DiamondGraph(), [], f)[1].shouldExecute
  {
    var g := DiamondGraph();
    var r := DiamondRecords();
    DiamondValid();
    InputsOfAt(g, 2);
    DiamondFirstStep();
    DiamondSecondStep();
    DiamondThirdStep();
    var s := r[2 := r[2].(isComplete := false)];
    Forward1Sound(g, s, 3);
  }

  /** A record one pass of the first forward pass makes incomplete stays incomplete once settled. */
  lemma SettleKeepsPassLosses(g: InputGraph, recs: seq<IntermediateNode>, k: nat)
    requires Closed(g, recs) && k < |recs| && !Forward1(g, recs, 0)[k].isComplete
    ensures |Settle(g, recs)| == |recs| && !Settle(g, recs)[k].isComplete
  {
    var f := Forward1(g, recs, 0);
    Forward1OnlyLoses(g, recs);
    ClosedSameIds(g, recs, f);
    if f != recs {
      assert Settle(g, recs) == Settle(g, f);
    }
  }

  /** Turning records incomplete keeps their ids, so distinct ids stay distinct. */
  lemma OnlyLosesKeepsIds(a: seq<IntermediateNode>, b: seq<IntermediateNode>)
    requires OnlyLosesCompleteness(a, b) && DistinctIds(a)
    ensures DistinctIds(b) && forall k :: 0 <= k < |a| ==> b[k].nodeId == a[k].nodeId
  {
    assert forall k :: 0 <= k < |a| ==> b[k].nodeId == a[k].nodeId;
  }

  /** Settling the diamond's records leaves node 2 incomplete. */
  lemma DiamondChecked()
    ensures ValidInput(DiamondGraph())
    ensures var c := Checked(DiamondGraph(), []);
            |c| == 4 && DistinctIds(c) && c[1].nodeId == 3 && c[2].nodeId == 2 && !c[2].isComplete
  {
    var g := DiamondGraph();
    var r := DiamondRecords();
    DiamondBackward();
    DiamondClosed();
    DiamondForward1();
    SettleKeepsPassLosses(g, r, 2);
    var c := Checked(g, []);
    assert c == Settle(g, r);
    OnlyLosesKeepsIds(r, c);
  }

  /**
   * Settling the first forward pass keeps node 3 from running on the
   * diamond: its upstream node 2 ends incomplete.
   */
  lemma DiamondPlan()
    ensures ValidInput(DiamondGraph())
    ensures |Plan(DiamondGraph(), [])| == 4
    ensures Plan(DiamondGraph(), [])[1].nodeId == 3 && !Plan(DiamondGraph(), [])[1].shouldExecute
  {
    var g := DiamondGraph();
    DiamondChecked();
    var c := Checked(g, []);
    RecordOfAt(c, 2);
    PlanExecutionRule(g, []);
    PlanUpstreamComplete(g, []);
    DiamondInputs();
    assert InputsOf(g, 3)[0].edge.Some?;
  }
}
