/**
 * The node-graph container of Graph/src/graph.rs: a graph holds a list of
 * nodes and a list of subgraphs, each keyed by a UUID. Nodes are upserted by
 * id, removed with their incoming bindings, and looked up by id, name or
 * subgraph.
 */
module Graph {
  import opened Wrappers
  import opened Seqs

  /** A UUID: opaque, apart from the distinguished nil value. */
  datatype Uuid = Nil | Id(bits: nat)

  newtype u32 = x: int | 0 <= x < 0x1_0000_0000

  /** Data types are opaque here; whether one is assignable to another is a parameter. */
  datatype DataType = DataType(code: nat)

  datatype NodeBehavior = Active | Passive
  datatype BindingBehavior = Always | Once

  /** An input's connection to output `outputIndex` of node `outputNodeId`. */
  datatype Binding = Binding(outputNodeId: Uuid, outputIndex: u32, behavior: BindingBehavior)

  datatype Input = Input(name: string, dataType: DataType, isRequired: bool, binding: Option<Binding>)
  datatype Output = Output(name: string, dataType: DataType)

  datatype Node = Node(
    selfId: Uuid,
    functionId: Uuid,
    name: string,
    behavior: NodeBehavior,
    isOutput: bool,
    inputs: seq<Input>,
    outputs: seq<Output>,
    subgraphId: Option<Uuid>)

  datatype SubInputNodeConnection = SubInputNodeConnection(subnodeId: Uuid, subnodeInputIndex: u32)
  datatype SubInput = SubInput(name: string, dataType: DataType, isRequired: bool,
                               connections: seq<SubInputNodeConnection>)
  datatype SubOutput = SubOutput(name: string, dataType: DataType, subnodeId: Uuid, subnodeOutputIndex: u32)
  datatype SubGraph = SubGraph(selfId: Uuid, name: string, inputs: seq<SubInput>, outputs: seq<SubOutput>)

  function NodeKey(n: Node): Uuid { n.selfId }
  function SubgraphKey(sg: SubGraph): Uuid { sg.selfId }

  /** `Node::new`, with the random `new_v4` id taken as a parameter. */
  function NewNode(id: Uuid): Node
  {
    Node(id, Nil, "", Active, false, [], [], None)
  }

  /** `Binding::new`: a binding to output `outputIndex` of node `nodeId`. */
  function NewBinding(nodeId: Uuid, outputIndex: u32): (b: Binding)
    ensures b.outputNodeId == nodeId && b.outputIndex == outputIndex
    ensures b.behavior == Always
  {
    Binding(nodeId, outputIndex, Always)
  }

  /** The ids of `nodes`, in order. */
  function NodeIds(nodes: seq<Node>): (ids: seq<Uuid>)
    ensures |ids| == |nodes|
    ensures forall i :: 0 <= i < |nodes| ==> ids[i] == nodes[i].selfId
  {
    seq(|nodes|, i requires 0 <= i < |nodes| => nodes[i].selfId)
  }

  // ---------------------------------------------------------------- lookups

  function NodeById(nodes: seq<Node>, id: Uuid): (r: Option<Node>)
    requires id != Nil
    ensures r.None? <==> forall i :: 0 <= i < |nodes| ==> nodes[i].selfId != id
    ensures r.Some? ==> exists i :: 0 <= i < |nodes| && nodes[i] == r.value && r.value.selfId == id &&
                                    forall j :: 0 <= j < i ==> nodes[j].selfId != id
  {
    Find(nodes, (n: Node) => n.selfId == id)
  }

  function NodeByName(nodes: seq<Node>, name: string): (r: Option<Node>)
    ensures r.None? <==> forall i :: 0 <= i < |nodes| ==> nodes[i].name != name
    ensures r.Some? ==> exists i :: 0 <= i < |nodes| && nodes[i] == r.value && r.value.name == name &&
                                    forall j :: 0 <= j < i ==> nodes[j].name != name
  {
    Find(nodes, (n: Node) => n.name == name)
  }

  function SubgraphById(subgraphs: seq<SubGraph>, id: Uuid): (r: Option<SubGraph>)
    requires id != Nil
    ensures r.None? <==> forall i :: 0 <= i < |subgraphs| ==> subgraphs[i].selfId != id
    ensures r.Some? ==> exists i :: 0 <= i < |subgraphs| && subgraphs[i] == r.value && r.value.selfId == id &&
                                    forall j :: 0 <= j < i ==> subgraphs[j].selfId != id
  {
    Find(subgraphs, (sg: SubGraph) => sg.selfId == id)
  }

  function InSubgraph(id: Uuid): Node -> bool
  {
    (n: Node) => n.subgraphId == Some(id)
  }

  /** The nodes whose `subgraphId` is `Some(id)`, in graph order. */
  function NodesBySubgraphId(nodes: seq<Node>, id: Uuid): (r: seq<Node>)
    requires id != Nil
    ensures forall i :: 0 <= i < |r| ==> r[i] in nodes && r[i].subgraphId == Some(id)
    ensures forall j :: 0 <= j < |nodes| && nodes[j].subgraphId == Some(id) ==> nodes[j] in r
    ensures IsSubsequence(r, nodes)
    ensures forall n :: multiset(r)[n] == if n.subgraphId == Some(id) then multiset(nodes)[n] else 0
  {
    FilterIsSubsequence(nodes, InSubgraph(id));
    FilterCounts(nodes, InSubgraph(id));
    Filter(nodes, InSubgraph(id))
  }

  // ---------------------------------------------------------------- removal

  /** An input with its binding cleared if that binding targets node `id`. */
  function UnbindInput(input: Input, id: Uuid): (r: Input)
    ensures r.binding.Some? ==> r.binding.value.outputNodeId != id
    ensures input.binding.Some? && input.binding.value.outputNodeId == id ==> r == input.(binding := None)
    ensures !(input.binding.Some? && input.binding.value.outputNodeId == id) ==> r == input
  {
    if input.binding.Some? && input.binding.value.outputNodeId == id then input.(binding := None) else input
  }

  /** A node with every binding to node `id` cleared and nothing else changed. */
  function UnbindNode(n: Node, id: Uuid): (r: Node)
    ensures r.(inputs := n.inputs) == n
    ensures |r.inputs| == |n.inputs|
    ensures forall k :: 0 <= k < |n.inputs| ==> r.inputs[k] == UnbindInput(n.inputs[k], id)
  {
    n.(inputs := seq(|n.inputs|, k requires 0 <= k < |n.inputs| => UnbindInput(n.inputs[k], id)))
  }

  function KeepOthers(id: Uuid): Node -> bool
  {
    (n: Node) => n.selfId != id
  }

  /** The node list after `remove_node_by_id(id)`: `retain`, then clear bindings to `id`. */
  function WithoutNode(nodes: seq<Node>, id: Uuid): (r: seq<Node>)
  {
    var kept := Filter(nodes, KeepOthers(id));
    seq(|kept|, i requires 0 <= i < |kept| => UnbindNode(kept[i], id))
  }

  /** Removing node `id`: no node keeps that id and no binding points at it. */
  lemma RemovedNodeIsGone(nodes: seq<Node>, id: Uuid)
    ensures forall i :: 0 <= i < |WithoutNode(nodes, id)| ==> WithoutNode(nodes, id)[i].selfId != id
    ensures forall i, k :: 0 <= i < |WithoutNode(nodes, id)| && 0 <= k < |WithoutNode(nodes, id)[i].inputs| &&
                           WithoutNode(nodes, id)[i].inputs[k].binding.Some?
                           ==> WithoutNode(nodes, id)[i].inputs[k].binding.value.outputNodeId != id
  {
    var kept := Filter(nodes, KeepOthers(id));
    forall i | 0 <= i < |kept| ensures kept[i].selfId != id {
      assert KeepOthers(id)(kept[i]);
    }
  }

  /**
   * Removing node `id` keeps every other node, and only changes it by
   * clearing its bindings to `id`; conversely every remaining node is such a
   * node. The survivors keep their relative order.
   */
  lemma RemoveNodeKeepsOthers(nodes: seq<Node>, id: Uuid)
    ensures forall j :: 0 <= j < |nodes| && nodes[j].selfId != id ==> UnbindNode(nodes[j], id) in WithoutNode(nodes, id)
    ensures forall i :: 0 <= i < |WithoutNode(nodes, id)| ==>
              exists j :: 0 <= j < |nodes| && nodes[j].selfId != id && WithoutNode(nodes, id)[i] == UnbindNode(nodes[j], id)
    ensures IsSubsequence(NodeIds(WithoutNode(nodes, id)), NodeIds(nodes))
    ensures forall u :: multiset(NodeIds(WithoutNode(nodes, id)))[u] == if u == id then 0 else multiset(NodeIds(nodes))[u]
    ensures forall n: Node :: n.selfId != id ==> multiset(WithoutNode(nodes, id))[UnbindNode(n, id)] >= multiset(nodes)[n]
  {
    SurvivorsAreKept(nodes, id);
    KeptAreSurvivors(nodes, id);
    SurvivorsKeepOrder(nodes, id);
    SurvivorsKeepCopies(nodes, id);
  }

  /**
   * Every copy survives: each id other than `id` occurs as often as before,
   * and each copy of a surviving node is still there (two nodes that differ
   * only in their bindings to `id` become equal, so a count can grow).
   */
  lemma SurvivorsKeepCopies(nodes: seq<Node>, id: Uuid)
    ensures forall u :: multiset(NodeIds(WithoutNode(nodes, id)))[u] == if u == id then 0 else multiset(NodeIds(nodes))[u]
    ensures forall n: Node :: n.selfId != id ==> multiset(WithoutNode(nodes, id))[UnbindNode(n, id)] >= multiset(nodes)[n]
  {
    var kept := Filter(nodes, KeepOthers(id));
    assert NodeIds(WithoutNode(nodes, id)) == NodeIds(kept);
    KeptIdCounts(nodes, id);
    FilterCounts(nodes, KeepOthers(id));
    forall n: Node | n.selfId != id
      ensures multiset(WithoutNode(nodes, id))[UnbindNode(n, id)] >= multiset(nodes)[n]
    {
      UnbindKeepsCopies(kept, id, n);
      assert KeepOthers(id)(n);
    }
  }

  lemma KeptIdCounts(nodes: seq<Node>, id: Uuid)
    ensures forall u :: multiset(NodeIds(Filter(nodes, KeepOthers(id))))[u] ==
                        if u == id then 0 else multiset(NodeIds(nodes))[u]
  {
    KeptIdsAreFilteredIds(nodes, id);
    FilterCounts(NodeIds(nodes), (u: Uuid) => u != id);
  }

  lemma {:induction false} KeptIdsAreFilteredIds(nodes: seq<Node>, id: Uuid)
    ensures NodeIds(Filter(nodes, KeepOthers(id))) == Filter(NodeIds(nodes), (u: Uuid) => u != id)
    decreases |nodes|
  {
    if nodes != [] {
      var rest := Filter(nodes[1..], KeepOthers(id));
      KeptIdsAreFilteredIds(nodes[1..], id);
      assert NodeIds(nodes)[1..] == NodeIds(nodes[1..]);
      if KeepOthers(id)(nodes[0]) {
        assert NodeIds([nodes[0]] + rest) == [nodes[0].selfId] + NodeIds(rest);
      }
    }
  }

  lemma {:induction false} UnbindKeepsCopies(s: seq<Node>, id: Uuid, n: Node)
    ensures multiset(seq(|s|, i requires 0 <= i < |s| => UnbindNode(s[i], id)))[UnbindNode(n, id)] >= multiset(s)[n]
    decreases |s|
  {
    if s != [] {
      var t := s[..|s| - 1];
      UnbindKeepsCopies(t, id, n);
      assert s == t + [s[|s| - 1]];
      assert seq(|s|, i requires 0 <= i < |s| => UnbindNode(s[i], id)) ==
             seq(|t|, i requires 0 <= i < |t| => UnbindNode(t[i], id)) + [UnbindNode(s[|s| - 1], id)];
    }
  }

  lemma SurvivorsAreKept(nodes: seq<Node>, id: Uuid)
    ensures forall j :: 0 <= j < |nodes| && nodes[j].selfId != id ==> UnbindNode(nodes[j], id) in WithoutNode(nodes, id)
  {
    var kept := Filter(nodes, KeepOthers(id));
    var r := WithoutNode(nodes, id);
    forall j | 0 <= j < |nodes| && nodes[j].selfId != id
      ensures UnbindNode(nodes[j], id) in r
    {
      assert KeepOthers(id)(nodes[j]);
      assert nodes[j] in kept;
      var i :| 0 <= i < |kept| && kept[i] == nodes[j];
      assert r[i] == UnbindNode(nodes[j], id);
    }
  }

  lemma KeptAreSurvivors(nodes: seq<Node>, id: Uuid)
    ensures forall i :: 0 <= i < |WithoutNode(nodes, id)| ==>
              exists j :: 0 <= j < |nodes| && nodes[j].selfId != id && WithoutNode(nodes, id)[i] == UnbindNode(nodes[j], id)
  {
    var kept := Filter(nodes, KeepOthers(id));
    forall i | 0 <= i < |WithoutNode(nodes, id)|
      ensures exists j :: 0 <= j < |nodes| && nodes[j].selfId != id && WithoutNode(nodes, id)[i] == UnbindNode(nodes[j], id)
    {
      assert kept[i] in nodes && KeepOthers(id)(kept[i]);
      var j :| 0 <= j < |nodes| && nodes[j] == kept[i];
      assert nodes[j].selfId != id && WithoutNode(nodes, id)[i] == UnbindNode(nodes[j], id);
    }
    assert forall i :: 0 <= i < |WithoutNode(nodes, id)| ==>
              exists j :: 0 <= j < |nodes| && nodes[j].selfId != id && WithoutNode(nodes, id)[i] == UnbindNode(nodes[j], id);
  }

  lemma SurvivorsKeepOrder(nodes: seq<Node>, id: Uuid)
    ensures IsSubsequence(NodeIds(WithoutNode(nodes, id)), NodeIds(nodes))
  {
    var kept := Filter(nodes, KeepOthers(id));
    var r := WithoutNode(nodes, id);
    FilterIsSubsequence(nodes, KeepOthers(id));
    SubsequenceMapsToIds(kept, nodes);
    assert NodeIds(r) == NodeIds(kept);
  }

  lemma {:induction false} SubsequenceMapsToIds(r: seq<Node>, s: seq<Node>)
    requires IsSubsequence(r, s)
    ensures IsSubsequence(NodeIds(r), NodeIds(s))
    decreases |s|
  {
    if r != [] {
      assert NodeIds(s)[1..] == NodeIds(s[1..]);
      assert NodeIds(r)[1..] == NodeIds(r[1..]);
      if r[0] == s[0] {
        SubsequenceMapsToIds(r[1..], s[1..]);
      } else {
        SubsequenceMapsToIds(r, s[1..]);
        if NodeIds(r)[0] == NodeIds(s)[0] {
          SubsequenceTail(NodeIds(r), NodeIds(s[1..]));
        }
      }
    }
  }

  /** Nodes of subgraph `id`, by id, as `remove_subgraph_by_id` collects them. */
  function MemberIds(nodes: seq<Node>, id: Uuid): (ids: seq<Uuid>)
    ensures forall j :: 0 <= j < |nodes| && nodes[j].subgraphId == Some(id) ==> nodes[j].selfId in ids
    ensures forall x :: x in ids ==> exists j :: 0 <= j < |nodes| && nodes[j].subgraphId == Some(id) && nodes[j].selfId == x
  {
    var members := Filter(nodes, InSubgraph(id));
    forall j | 0 <= j < |nodes| && nodes[j].subgraphId == Some(id)
      ensures nodes[j].selfId in NodeIds(members)
    {
      assert InSubgraph(id)(nodes[j]);
      var i :| 0 <= i < |members| && members[i] == nodes[j];
      assert NodeIds(members)[i] == nodes[j].selfId;
    }
    forall x | x in NodeIds(members)
      ensures exists j :: 0 <= j < |nodes| && nodes[j].subgraphId == Some(id) && nodes[j].selfId == x
    {
      var i :| 0 <= i < |members| && NodeIds(members)[i] == x;
      assert members[i] in nodes && InSubgraph(id)(members[i]);
      var j :| 0 <= j < |nodes| && nodes[j] == members[i];
    }
    NodeIds(members)
  }

  /** `remove_node_by_id` applied for each id of `ids` in turn. */
  function WithoutNodes(nodes: seq<Node>, ids: seq<Uuid>): seq<Node>
    decreases |ids|
  {
    if ids == [] then nodes
    else WithoutNode(WithoutNodes(nodes, ids[..|ids| - 1]), ids[|ids| - 1])
  }

  /**
   * `x` survived the removal of the nodes `ids` from `nodes`: its id is not
   * one of them, none of its bindings targets one of them, and it is an
   * original node with the same id and subgraph.
   */
  ghost predicate Survivor(x: Node, nodes: seq<Node>, ids: seq<Uuid>)
  {
    && x.selfId !in ids
    && (forall k :: 0 <= k < |x.inputs| && x.inputs[k].binding.Some? ==> x.inputs[k].binding.value.outputNodeId !in ids)
    && exists j :: 0 <= j < |nodes| && nodes[j].selfId == x.selfId && nodes[j].subgraphId == x.subgraphId
  }

  /** Every node left after removing the nodes `ids` one by one is a survivor. */
  lemma {:induction false} RemovedNodesAreGone(nodes: seq<Node>, ids: seq<Uuid>)
    ensures forall x :: x in WithoutNodes(nodes, ids) ==> Survivor(x, nodes, ids)
    decreases |ids|
  {
    if ids == [] {
      forall x | x in nodes ensures Survivor(x, nodes, ids) {
        var j :| 0 <= j < |nodes| && nodes[j] == x;
      }
    } else {
      var front, last := ids[..|ids| - 1], ids[|ids| - 1];
      assert ids == front + [last];
      RemovedNodesAreGone(nodes, front);
      RemoveOneMoreKeepsSurvivors(nodes, front, last);
    }
  }

  lemma RemoveOneMoreKeepsSurvivors(nodes: seq<Node>, front: seq<Uuid>, last: Uuid)
    requires forall x :: x in WithoutNodes(nodes, front) ==> Survivor(x, nodes, front)
    ensures forall x :: x in WithoutNode(WithoutNodes(nodes, front), last) ==> Survivor(x, nodes, front + [last])
  {
    var mid := WithoutNodes(nodes, front);
    var r := WithoutNode(mid, last);
    KeptAreSurvivors(mid, last);
    forall x | x in r ensures Survivor(x, nodes, front + [last]) {
      var i :| 0 <= i < |r| && r[i] == x;
      var m :| 0 <= m < |mid| && mid[m].selfId != last && x == UnbindNode(mid[m], last);
      SurvivorStaysSurvivor(x, mid[m], nodes, front, last);
    }
  }

  lemma SurvivorStaysSurvivor(x: Node, m: Node, nodes: seq<Node>, front: seq<Uuid>, last: Uuid)
    requires Survivor(m, nodes, front) && m.selfId != last && x == UnbindNode(m, last)
    ensures Survivor(x, nodes, front + [last])
  {
    forall k | 0 <= k < |x.inputs| && x.inputs[k].binding.Some?
      ensures x.inputs[k].binding.value.outputNodeId !in front + [last]
    {
      assert x.inputs[k] == UnbindInput(m.inputs[k], last);
    }
  }

  /** The subgraph list after `remove_subgraph_by_id(id)`. */
  function WithoutSubgraph(subgraphs: seq<SubGraph>, id: Uuid): (r: seq<SubGraph>)
    ensures forall i :: 0 <= i < |r| ==> r[i].selfId != id && r[i] in subgraphs
    ensures forall j :: 0 <= j < |subgraphs| && subgraphs[j].selfId != id ==> subgraphs[j] in r
    ensures IsSubsequence(r, subgraphs)
    ensures forall sg :: multiset(r)[sg] == if sg.selfId != id then multiset(subgraphs)[sg] else 0
  {
    var keep := (sg: SubGraph) => sg.selfId != id;
    FilterIsSubsequence(subgraphs, keep);
    FilterCounts(subgraphs, keep);
    Filter(subgraphs, keep)
  }

  // ---------------------------------------------------------------- the container

  /** `Graph`: the node and subgraph lists, updated in place. */
  /** The `iter_mut` loop of `remove_node_by_id`: clear every binding to `id`. */
  method UnbindAll(ns: seq<Node>, id: Uuid) returns (r: seq<Node>)
    ensures r == seq(|ns|, j requires 0 <= j < |ns| => UnbindNode(ns[j], id))
  {
    r := ns;
    var i := 0;
    while i < |r|
      invariant 0 <= i <= |r| == |ns|
      invariant forall j :: 0 <= j < i ==> r[j] == UnbindNode(ns[j], id)
      invariant forall j :: i <= j < |r| ==> r[j] == ns[j]
    {
      r := r[i := UnbindNode(r[i], id)];
      i := i + 1;
    }
  }

  class Graph {
    var nodes: seq<Node>
    var subgraphs: seq<SubGraph>

    constructor ()
      ensures nodes == [] && subgraphs == []
    {
      nodes := [];
      subgraphs := [];
    }

    /** `add_node`: replace the node with the same id in place, or push it. */
    method AddNode(node: Node)
      modifies this
      ensures nodes == Upsert(old(nodes), node, NodeKey)
      ensures subgraphs == old(subgraphs)
    {
      var i := 0;
      while i < |nodes| && nodes[i].selfId != node.selfId
        invariant 0 <= i <= |nodes|
        invariant forall j :: 0 <= j < i ==> nodes[j].selfId != node.selfId
      {
        i := i + 1;
      }
      if i < |nodes| {
        nodes := nodes[i := node];
      } else {
        nodes := nodes + [node];
      }
    }

    /** `remove_node_by_id`: `retain` the other nodes, then clear bindings to `id`. */
    method RemoveNodeById(id: Uuid)
      requires id != Nil
      modifies this
      ensures nodes == WithoutNode(old(nodes), id)
      ensures subgraphs == old(subgraphs)
    {
      var kept: seq<Node> := [];
      var i := 0;
      while i < |nodes|
        invariant 0 <= i <= |nodes|
        invariant kept == Filter(nodes[..i], KeepOthers(id))
        invariant nodes == old(nodes) && subgraphs == old(subgraphs)
      {
        FilterAppend(nodes[..i], nodes[i], KeepOthers(id));
        assert nodes[..i + 1] == nodes[..i] + [nodes[i]];
        if nodes[i].selfId != id {
          kept := kept + [nodes[i]];
        }
        i := i + 1;
      }
      assert nodes[..i] == nodes;
      nodes := UnbindAll(kept, id);
    }

    /** `add_subgraph`: replace the subgraph with the same id in place, or push it. */
    method AddSubgraph(subgraph: SubGraph)
      modifies this
      ensures subgraphs == Upsert(old(subgraphs), subgraph, SubgraphKey)
      ensures nodes == old(nodes)
    {
      var i := 0;
      while i < |subgraphs| && subgraphs[i].selfId != subgraph.selfId
        invariant 0 <= i <= |subgraphs|
        invariant forall j :: 0 <= j < i ==> subgraphs[j].selfId != subgraph.selfId
      {
        i := i + 1;
      }
      if i < |subgraphs| {
        subgraphs := subgraphs[i := subgraph];
      } else {
        subgraphs := subgraphs + [subgraph];
      }
    }

    /**
     * `remove_subgraph_by_id`: drop the subgraph, then `remove_node_by_id`
     * every node that belonged to it. The inner removals assert that those
     * nodes' ids are not nil.
     */
    method RemoveSubgraphById(id: Uuid)
      requires id != Nil
      requires forall j :: 0 <= j < |nodes| && nodes[j].subgraphId == Some(id) ==> nodes[j].selfId != Nil
      modifies this
      ensures subgraphs == WithoutSubgraph(old(subgraphs), id)
      ensures nodes == WithoutNodes(old(nodes), MemberIds(old(nodes), id))
    {
      subgraphs := WithoutSubgraph(subgraphs, id);
      var ids := MemberIds(nodes, id);
      ghost var original := nodes;
      var k := 0;
      while k < |ids|
        invariant 0 <= k <= |ids|
        invariant nodes == WithoutNodes(original, ids[..k])
        invariant subgraphs == WithoutSubgraph(old(subgraphs), id)
      {
        assert ids[..k + 1][..k] == ids[..k];
        RemoveNodeById(ids[k]);
        k := k + 1;
      }
      assert ids[..k] == ids;
    }
  }

  /** After `remove_subgraph_by_id(id)`, no node belongs to subgraph `id` and none is bound to a removed node. */
  lemma RemoveSubgraphLeavesNoMembers(nodes: seq<Node>, id: Uuid)
    ensures forall x :: x in WithoutNodes(nodes, MemberIds(nodes, id)) ==> x.subgraphId != Some(id)
    ensures forall x, k, j :: x in WithoutNodes(nodes, MemberIds(nodes, id)) && 0 <= k < |x.inputs| &&
                              x.inputs[k].binding.Some? && 0 <= j < |nodes| && nodes[j].subgraphId == Some(id)
                              ==> x.inputs[k].binding.value.outputNodeId != nodes[j].selfId
  {
    var ids := MemberIds(nodes, id);
    RemovedNodesAreGone(nodes, ids);
  }
}
