/**
 * `Graph::validate` of Graph/src/graph.rs: a walk over the nodes, then over
 * the subgraphs, returning the first inconsistency it meets. `DataType`
 * assignability is supplied by the caller as `canAssign`.
 */
module GraphValidate {
  import opened Wrappers
  import opened Seqs
  import opened Graph

  /** The error messages `validate` can return, one constructor per message. */
  datatype ValidationError =
    | InvalidNodeId                 // "Node has invalid id"
    | InvalidSubgraphId             // "Node has invalid subgraph id"
    | BindingToMissingNode          // "Node input connected to a non-existent node"
    | SubInputToMissingNode         // "Subgraph input connected to a non-existent node"
    | SubInputToExternalNode        // "Subgraph input connected to an external node"
    | SubInputToMissingInput        // "Subgraph input connected to a non-existent input"
    | SubInputIncompatible          // "... node input with an incompatible data type"
    | SubOutputToMissingNode        // "Subgraph output connected to a non-existent node"
    | SubOutputToExternalNode       // "Subgraph output connected to an external node"
    | SubOutputToMissingOutput      // "Subgraph output connected to a non-existent output"
    | SubOutputIncompatible         // "... node output with an incompatible data type"

  /** What a validation step does: succeed, return an error, or panic. */
  datatype Outcome = Ok | Err(error: ValidationError) | Panic

  /**
   * How a lookup by a nil id behaves: `node_by_id` and `subgraph_by_id`
   * panic on it (their `assert_ne!`); the corrected validator treats it as
   * "not found".
   */
  datatype NilLookup = PanicsOnNil | MissesOnNil

  type Assignable = (DataType, DataType) -> bool

  /** A `for` loop with early return: the first outcome that is not `Ok`, else `Ok`. */
  function CheckAll<T>(s: seq<T>, f: T -> Outcome): (r: Outcome)
    ensures r.Ok? <==> forall i :: 0 <= i < |s| ==> f(s[i]).Ok?
    ensures !r.Ok? ==> exists i :: 0 <= i < |s| && r == f(s[i]) && forall j :: 0 <= j < i ==> f(s[j]).Ok?
  {
    if s == [] then Ok
    else if f(s[0]).Ok? then CheckAll(s[1..], f)
    else f(s[0])
  }

  function NilLookupFails(mode: NilLookup, e: ValidationError): Outcome
  {
    if mode == PanicsOnNil then Panic else Err(e)
  }

  function CheckBinding(nodes: seq<Node>, input: Input, mode: NilLookup): Outcome
  {
    match input.binding
    case None => Ok
    case Some(b) =>
      if b.outputNodeId == Nil then NilLookupFails(mode, BindingToMissingNode)
      else if NodeById(nodes, b.outputNodeId).None? then Err(BindingToMissingNode)
      else Ok
  }

  function CheckNode(nodes: seq<Node>, subgraphs: seq<SubGraph>, n: Node, mode: NilLookup): Outcome
  {
    if n.selfId == Nil then Err(InvalidNodeId)
    else if n.subgraphId.Some? && n.subgraphId.value == Nil then NilLookupFails(mode, InvalidSubgraphId)
    else if n.subgraphId.Some? && SubgraphById(subgraphs, n.subgraphId.value).None? then Err(InvalidSubgraphId)
    else CheckAll(n.inputs, (input: Input) => CheckBinding(nodes, input, mode))
  }

  function CheckConnection(nodes: seq<Node>, sg: SubGraph, subinput: SubInput, c: SubInputNodeConnection,
                           canAssign: Assignable, mode: NilLookup): Outcome
  {
    if c.subnodeId == Nil then NilLookupFails(mode, SubInputToMissingNode)
    else match NodeById(nodes, c.subnodeId)
      case None => Err(SubInputToMissingNode)
      case Some(n) =>
        if n.subgraphId != Some(sg.selfId) then Err(SubInputToExternalNode)
        else if c.subnodeInputIndex as int >= |n.inputs| then Err(SubInputToMissingInput)
        else if !canAssign(subinput.dataType, n.inputs[c.subnodeInputIndex].dataType) then Err(SubInputIncompatible)
        else Ok
  }

  function CheckSubOutput(nodes: seq<Node>, sg: SubGraph, suboutput: SubOutput,
                          canAssign: Assignable, mode: NilLookup): Outcome
  {
    if suboutput.subnodeId == Nil then NilLookupFails(mode, SubOutputToMissingNode)
    else match NodeById(nodes, suboutput.subnodeId)
      case None => Err(SubOutputToMissingNode)
      case Some(n) =>
        if n.subgraphId != Some(sg.selfId) then Err(SubOutputToExternalNode)
        else if suboutput.subnodeOutputIndex as int >= |n.outputs| then Err(SubOutputToMissingOutput)
        else if !canAssign(suboutput.dataType, n.outputs[suboutput.subnodeOutputIndex].dataType) then Err(SubOutputIncompatible)
        else Ok
  }

  function CheckSubInput(nodes: seq<Node>, sg: SubGraph, subinput: SubInput,
                         canAssign: Assignable, mode: NilLookup): Outcome
  {
    CheckAll(subinput.connections, (c: SubInputNodeConnection) => CheckConnection(nodes, sg, subinput, c, canAssign, mode))
  }

  function CheckSubgraph(nodes: seq<Node>, sg: SubGraph, canAssign: Assignable, mode: NilLookup): Outcome
  {
    var inputs := CheckAll(sg.inputs, (si: SubInput) => CheckSubInput(nodes, sg, si, canAssign, mode));
    if !inputs.Ok? then inputs
    else CheckAll(sg.outputs, (so: SubOutput) => CheckSubOutput(nodes, sg, so, canAssign, mode))
  }

  /** The body of `validate`, parameterised by how a nil lookup behaves. */
  function ValidateWith(nodes: seq<Node>, subgraphs: seq<SubGraph>, canAssign: Assignable, mode: NilLookup): Outcome
  {
    var nodesOutcome := CheckAll(nodes, (n: Node) => CheckNode(nodes, subgraphs, n, mode));
    if !nodesOutcome.Ok? then nodesOutcome
    else CheckAll(subgraphs, (sg: SubGraph) => CheckSubgraph(nodes, sg, canAssign, mode))
  }

  // ---------------------------------------------------------------- the declarative reading

  /** The first node with id `id` exists, belongs to subgraph `sg` and satisfies `ok`. */
  ghost predicate FirstNodeWithId(nodes: seq<Node>, id: Uuid, sgId: Uuid, ok: Node -> bool)
  {
    id != Nil &&
    exists j :: 0 <= j < |nodes| && nodes[j].selfId == id && (forall k :: 0 <= k < j ==> nodes[k].selfId != id) &&
                nodes[j].subgraphId == Some(sgId) && ok(nodes[j])
  }

  ghost predicate ConnectionOk(nodes: seq<Node>, sg: SubGraph, subinput: SubInput, c: SubInputNodeConnection, canAssign: Assignable)
  {
    FirstNodeWithId(nodes, c.subnodeId, sg.selfId,
      (n: Node) => c.subnodeInputIndex as int < |n.inputs| && canAssign(subinput.dataType, n.inputs[c.subnodeInputIndex].dataType))
  }

  ghost predicate SubOutputOk(nodes: seq<Node>, sg: SubGraph, so: SubOutput, canAssign: Assignable)
  {
    FirstNodeWithId(nodes, so.subnodeId, sg.selfId,
      (n: Node) => so.subnodeOutputIndex as int < |n.outputs| && canAssign(so.dataType, n.outputs[so.subnodeOutputIndex].dataType))
  }

  /** Every node id is non-nil, every node's subgraph exists, and every binding names an existing node. */
  ghost predicate NodesWellFormed(nodes: seq<Node>, subgraphs: seq<SubGraph>)
  {
    && (forall i :: 0 <= i < |nodes| ==> nodes[i].selfId != Nil)
    && (forall i :: 0 <= i < |nodes| && nodes[i].subgraphId.Some? ==>
          nodes[i].subgraphId.value != Nil &&
          exists j :: 0 <= j < |subgraphs| && subgraphs[j].selfId == nodes[i].subgraphId.value)
    && (forall i, k :: 0 <= i < |nodes| && 0 <= k < |nodes[i].inputs| && nodes[i].inputs[k].binding.Some? ==>
          exists j :: 0 <= j < |nodes| && nodes[j].selfId == nodes[i].inputs[k].binding.value.outputNodeId)
  }

  /**
   * Every subgraph input connection and every subgraph output targets an
   * existing node of that subgraph, at an index in range, with an assignable
   * data type.
   */
  ghost predicate SubgraphsWellFormed(nodes: seq<Node>, subgraphs: seq<SubGraph>, canAssign: Assignable)
  {
    && (forall s, m, c :: 0 <= s < |subgraphs| && 0 <= m < |subgraphs[s].inputs| &&
                          0 <= c < |subgraphs[s].inputs[m].connections| ==>
          ConnectionOk(nodes, subgraphs[s], subgraphs[s].inputs[m], subgraphs[s].inputs[m].connections[c], canAssign))
    && (forall s, o :: 0 <= s < |subgraphs| && 0 <= o < |subgraphs[s].outputs| ==>
          SubOutputOk(nodes, subgraphs[s], subgraphs[s].outputs[o], canAssign))
  }

  ghost predicate WellFormed(nodes: seq<Node>, subgraphs: seq<SubGraph>, canAssign: Assignable)
  {
    NodesWellFormed(nodes, subgraphs) && SubgraphsWellFormed(nodes, subgraphs, canAssign)
  }

  // ---------------------------------------------------------------- validate: as written and corrected

  /** `validate` as written: a nil id reaching `node_by_id` or `subgraph_by_id` panics. */
  function ValidateAsWritten(nodes: seq<Node>, subgraphs: seq<SubGraph>, canAssign: Assignable): (r: Outcome)
    ensures r.Ok? <==> WellFormed(nodes, subgraphs, canAssign)
  {
    ValidateOkIffWellFormed(nodes, subgraphs, canAssign, PanicsOnNil);
    ValidateWith(nodes, subgraphs, canAssign, PanicsOnNil)
  }

  /**
   * `validate` with nil lookups reported as the "non-existent" error of the
   * check that made them: it never panics, and it succeeds exactly when the
   * graph is well formed.
   */
  function Validate(nodes: seq<Node>, subgraphs: seq<SubGraph>, canAssign: Assignable): (r: Outcome)
    ensures !r.Panic?
    ensures r.Ok? <==> WellFormed(nodes, subgraphs, canAssign)
  {
    ValidateOkIffWellFormed(nodes, subgraphs, canAssign, MissesOnNil);
    ValidateNeverPanics(nodes, subgraphs, canAssign);
    ValidateWith(nodes, subgraphs, canAssign, MissesOnNil)
  }

  /** The input is unbound, or bound to an existing node with a non-nil id. */
  ghost predicate BindingResolves(nodes: seq<Node>, input: Input)
  {
    input.binding.Some? ==>
      input.binding.value.outputNodeId != Nil &&
      exists j :: 0 <= j < |nodes| && nodes[j].selfId == input.binding.value.outputNodeId
  }

  /** What the per-node check of `validate` accepts. */
  ghost predicate NodeOk(nodes: seq<Node>, subgraphs: seq<SubGraph>, n: Node)
  {
    && n.selfId != Nil
    && (n.subgraphId.Some? ==>
          (n.subgraphId.value != Nil &&
           exists j :: 0 <= j < |subgraphs| && subgraphs[j].selfId == n.subgraphId.value))
    && (forall k :: 0 <= k < |n.inputs| ==> BindingResolves(nodes, n.inputs[k]))
  }

  lemma CheckNodeOk(nodes: seq<Node>, subgraphs: seq<SubGraph>, n: Node, mode: NilLookup)
    ensures CheckNode(nodes, subgraphs, n, mode).Ok? <==> NodeOk(nodes, subgraphs, n)
  {
    var f := (input: Input) => CheckBinding(nodes, input, mode);
    forall k | 0 <= k < |n.inputs|
      ensures f(n.inputs[k]).Ok? <==> BindingResolves(nodes, n.inputs[k])
    {
    }
  }

  lemma NodesCheckOk(nodes: seq<Node>, subgraphs: seq<SubGraph>, mode: NilLookup)
    ensures CheckAll(nodes, (n: Node) => CheckNode(nodes, subgraphs, n, mode)).Ok? <==> NodesWellFormed(nodes, subgraphs)
  {
    forall i | 0 <= i < |nodes| {
      CheckNodeOk(nodes, subgraphs, nodes[i], mode);
    }
    if NodesWellFormed(nodes, subgraphs) {
      forall i | 0 <= i < |nodes| ensures CheckNode(nodes, subgraphs, nodes[i], mode).Ok? {
        forall k | 0 <= k < |nodes[i].inputs| && nodes[i].inputs[k].binding.Some?
          ensures nodes[i].inputs[k].binding.value.outputNodeId != Nil
        {
          var j :| 0 <= j < |nodes| && nodes[j].selfId == nodes[i].inputs[k].binding.value.outputNodeId;
        }
      }
    }
  }

  lemma FirstNodeIsNodeById(nodes: seq<Node>, id: Uuid, sgId: Uuid, ok: Node -> bool)
    requires id != Nil
    ensures FirstNodeWithId(nodes, id, sgId, ok) <==>
              NodeById(nodes, id).Some? && NodeById(nodes, id).value.subgraphId == Some(sgId) && ok(NodeById(nodes, id).value)
  {
    var r := NodeById(nodes, id);
    if FirstNodeWithId(nodes, id, sgId, ok) {
      var j :| 0 <= j < |nodes| && nodes[j].selfId == id && (forall k :: 0 <= k < j ==> nodes[k].selfId != id) &&
               nodes[j].subgraphId == Some(sgId) && ok(nodes[j]);
      var i :| 0 <= i < |nodes| && nodes[i] == r.value && r.value.selfId == id && forall k :: 0 <= k < i ==> nodes[k].selfId != id;
      assert i == j;
    }
    if r.Some? && r.value.subgraphId == Some(sgId) && ok(r.value) {
      var i :| 0 <= i < |nodes| && nodes[i] == r.value && r.value.selfId == id && forall k :: 0 <= k < i ==> nodes[k].selfId != id;
      assert nodes[i].selfId == id && nodes[i].subgraphId == Some(sgId) && ok(nodes[i]);
    }
  }

  lemma CheckConnectionOk(nodes: seq<Node>, sg: SubGraph, subinput: SubInput, c: SubInputNodeConnection,
                          canAssign: Assignable, mode: NilLookup)
    ensures CheckConnection(nodes, sg, subinput, c, canAssign, mode).Ok? <==> ConnectionOk(nodes, sg, subinput, c, canAssign)
  {
    if c.subnodeId != Nil {
      FirstNodeIsNodeById(nodes, c.subnodeId, sg.selfId,
        (n: Node) => c.subnodeInputIndex as int < |n.inputs| && canAssign(subinput.dataType, n.inputs[c.subnodeInputIndex].dataType));
    }
  }

  lemma CheckSubOutputOk(nodes: seq<Node>, sg: SubGraph, so: SubOutput, canAssign: Assignable, mode: NilLookup)
    ensures CheckSubOutput(nodes, sg, so, canAssign, mode).Ok? <==> SubOutputOk(nodes, sg, so, canAssign)
  {
    if so.subnodeId != Nil {
      FirstNodeIsNodeById(nodes, so.subnodeId, sg.selfId,
        (n: Node) => so.subnodeOutputIndex as int < |n.outputs| && canAssign(so.dataType, n.outputs[so.subnodeOutputIndex].dataType));
    }
  }

  /** Every connection of subgraph input `si` is acceptable. */
  ghost predicate SubInputOk(nodes: seq<Node>, sg: SubGraph, si: SubInput, canAssign: Assignable)
  {
    forall c :: 0 <= c < |si.connections| ==> ConnectionOk(nodes, sg, si, si.connections[c], canAssign)
  }

  /** What the per-subgraph check of `validate` accepts. */
  ghost predicate SubgraphOk(nodes: seq<Node>, sg: SubGraph, canAssign: Assignable)
  {
    && (forall m :: 0 <= m < |sg.inputs| ==> SubInputOk(nodes, sg, sg.inputs[m], canAssign))
    && (forall o :: 0 <= o < |sg.outputs| ==> SubOutputOk(nodes, sg, sg.outputs[o], canAssign))
  }

  lemma CheckSubgraphOk(nodes: seq<Node>, sg: SubGraph, canAssign: Assignable, mode: NilLookup)
    ensures CheckSubgraph(nodes, sg, canAssign, mode).Ok? <==> SubgraphOk(nodes, sg, canAssign)
  {
    forall m, c | 0 <= m < |sg.inputs| && 0 <= c < |sg.inputs[m].connections| {
      CheckConnectionOk(nodes, sg, sg.inputs[m], sg.inputs[m].connections[c], canAssign, mode);
    }
    forall o | 0 <= o < |sg.outputs| {
      CheckSubOutputOk(nodes, sg, sg.outputs[o], canAssign, mode);
    }
  }

  lemma ValidateOkIffWellFormed(nodes: seq<Node>, subgraphs: seq<SubGraph>, canAssign: Assignable, mode: NilLookup)
    ensures ValidateWith(nodes, subgraphs, canAssign, mode).Ok? <==> WellFormed(nodes, subgraphs, canAssign)
  {
    NodesCheckOk(nodes, subgraphs, mode);
    forall s | 0 <= s < |subgraphs| {
      CheckSubgraphOk(nodes, subgraphs[s], canAssign, mode);
    }
  }

  lemma ValidateNeverPanics(nodes: seq<Node>, subgraphs: seq<SubGraph>, canAssign: Assignable)
    ensures !ValidateWith(nodes, subgraphs, canAssign, MissesOnNil).Panic?
  {
    forall n | n in nodes ensures !CheckNode(nodes, subgraphs, n, MissesOnNil).Panic? {
      var f := (input: Input) => CheckBinding(nodes, input, MissesOnNil);
      assert forall k :: 0 <= k < |n.inputs| ==> !f(n.inputs[k]).Panic?;
    }
    forall sg | sg in subgraphs ensures !CheckSubgraph(nodes, sg, canAssign, MissesOnNil).Panic? {
      forall si | si in sg.inputs ensures !CheckSubInput(nodes, sg, si, canAssign, MissesOnNil).Panic? {
        var f := (c: SubInputNodeConnection) => CheckConnection(nodes, sg, si, c, canAssign, MissesOnNil);
        assert forall k :: 0 <= k < |si.connections| ==> !f(si.connections[k]).Panic?;
      }
      var g := (so: SubOutput) => CheckSubOutput(nodes, sg, so, canAssign, MissesOnNil);
      assert forall k :: 0 <= k < |sg.outputs| ==> !g(sg.outputs[k]).Panic?;
    }
  }

  // ---------------------------------------------------------------- as written against corrected

  /** Outcome `b` of the corrected check stands where the as-written check gave `a`. */
  predicate Agrees(a: Outcome, b: Outcome)
  {
    a == b || (a.Panic? && b.Err?)
  }

  lemma {:induction false} CheckAllAgrees<T>(s: seq<T>, f: T -> Outcome, g: T -> Outcome)
    requires forall i :: 0 <= i < |s| ==> Agrees(f(s[i]), g(s[i]))
    ensures Agrees(CheckAll(s, f), CheckAll(s, g))
    decreases |s|
  {
    if s != [] {
      assert forall i :: 0 <= i < |s[1..]| ==> s[1..][i] == s[i + 1];
      CheckAllAgrees(s[1..], f, g);
    }
  }

  lemma CheckNodeAgrees(nodes: seq<Node>, subgraphs: seq<SubGraph>, n: Node)
    ensures Agrees(CheckNode(nodes, subgraphs, n, PanicsOnNil), CheckNode(nodes, subgraphs, n, MissesOnNil))
  {
    CheckAllAgrees(n.inputs, (input: Input) => CheckBinding(nodes, input, PanicsOnNil),
                             (input: Input) => CheckBinding(nodes, input, MissesOnNil));
  }

  lemma CheckSubgraphAgrees(nodes: seq<Node>, sg: SubGraph, canAssign: Assignable)
    ensures Agrees(CheckSubgraph(nodes, sg, canAssign, PanicsOnNil), CheckSubgraph(nodes, sg, canAssign, MissesOnNil))
  {
    forall m | 0 <= m < |sg.inputs|
      ensures Agrees(CheckSubInput(nodes, sg, sg.inputs[m], canAssign, PanicsOnNil),
                     CheckSubInput(nodes, sg, sg.inputs[m], canAssign, MissesOnNil))
    {
      var si := sg.inputs[m];
      CheckAllAgrees(si.connections,
        (c: SubInputNodeConnection) => CheckConnection(nodes, sg, si, c, canAssign, PanicsOnNil),
        (c: SubInputNodeConnection) => CheckConnection(nodes, sg, si, c, canAssign, MissesOnNil));
    }
    CheckAllAgrees(sg.inputs, (si: SubInput) => CheckSubInput(nodes, sg, si, canAssign, PanicsOnNil),
                              (si: SubInput) => CheckSubInput(nodes, sg, si, canAssign, MissesOnNil));
    CheckAllAgrees(sg.outputs, (so: SubOutput) => CheckSubOutput(nodes, sg, so, canAssign, PanicsOnNil),
                               (so: SubOutput) => CheckSubOutput(nodes, sg, so, canAssign, MissesOnNil));
  }

  /**
   * The two validators differ only where the as-written one panics: when it
   * does not panic it returns what the corrected one returns, and when it
   * panics the corrected one returns an error.
   */
  lemma ValidateAsWrittenAgrees(nodes: seq<Node>, subgraphs: seq<SubGraph>, canAssign: Assignable)
    ensures !ValidateAsWritten(nodes, subgraphs, canAssign).Panic? ==>
              ValidateAsWritten(nodes, subgraphs, canAssign) == Validate(nodes, subgraphs, canAssign)
    ensures ValidateAsWritten(nodes, subgraphs, canAssign).Panic? ==> Validate(nodes, subgraphs, canAssign).Err?
  {
    forall i | 0 <= i < |nodes| {
      CheckNodeAgrees(nodes, subgraphs, nodes[i]);
    }
    CheckAllAgrees(nodes, (n: Node) => CheckNode(nodes, subgraphs, n, PanicsOnNil),
                          (n: Node) => CheckNode(nodes, subgraphs, n, MissesOnNil));
    forall t | 0 <= t < |subgraphs| {
      CheckSubgraphAgrees(nodes, subgraphs[t], canAssign);
    }
    CheckAllAgrees(subgraphs, (sg: SubGraph) => CheckSubgraph(nodes, sg, canAssign, PanicsOnNil),
                              (sg: SubGraph) => CheckSubgraph(nodes, sg, canAssign, MissesOnNil));
  }

  /** A loop with early return panics exactly when its first failing step panics. */
  lemma CheckAllPanics<T>(s: seq<T>, f: T -> Outcome)
    ensures CheckAll(s, f).Panic? <==>
              exists i :: 0 <= i < |s| && (forall j :: 0 <= j < i ==> f(s[j]).Ok?) && f(s[i]).Panic?
  {
    if exists i :: 0 <= i < |s| && (forall j :: 0 <= j < i ==> f(s[j]).Ok?) && f(s[i]).Panic? {
      var i :| 0 <= i < |s| && (forall j :: 0 <= j < i ==> f(s[j]).Ok?) && f(s[i]).Panic?;
      assert !CheckAll(s, f).Ok?;
      var k :| 0 <= k < |s| && CheckAll(s, f) == f(s[k]) && forall j :: 0 <= j < k ==> f(s[j]).Ok?;
      assert k >= i;
    }
  }

  /** `CheckAllPanics` with the passing and the panicking steps described by `ok` and `bad`. */
  lemma CheckAllPanicsWhen<T>(s: seq<T>, f: T -> Outcome, ok: T -> bool, bad: T -> bool)
    requires forall i :: 0 <= i < |s| ==> (f(s[i]).Ok? <==> ok(s[i])) && (f(s[i]).Panic? <==> bad(s[i]))
    ensures CheckAll(s, f).Ok? <==> forall i :: 0 <= i < |s| ==> ok(s[i])
    ensures CheckAll(s, f).Panic? <==> exists i :: 0 <= i < |s| && (forall j :: 0 <= j < i ==> ok(s[j])) && bad(s[i])
  {
    CheckAllPanics(s, f);
  }

  /**
   * Where the as-written per-node check panics: the node's id is fine and
   * its subgraph id is nil, or its subgraph exists and the first input whose
   * binding does not resolve is bound to the nil id.
   */
  ghost predicate NodePanics(nodes: seq<Node>, subgraphs: seq<SubGraph>, n: Node)
  {
    && n.selfId != Nil
    && (|| n.subgraphId == Some(Nil)
        || (&& (n.subgraphId.Some? ==> exists j :: 0 <= j < |subgraphs| && subgraphs[j].selfId == n.subgraphId.value)
            && exists k :: 0 <= k < |n.inputs| && (forall m :: 0 <= m < k ==> BindingResolves(nodes, n.inputs[m])) &&
                           n.inputs[k].binding.Some? && n.inputs[k].binding.value.outputNodeId == Nil))
  }

  /** The first connection of `si` that is not acceptable names the nil id. */
  ghost predicate SubInputPanics(nodes: seq<Node>, sg: SubGraph, si: SubInput, canAssign: Assignable)
  {
    exists c :: 0 <= c < |si.connections| &&
                (forall d :: 0 <= d < c ==> ConnectionOk(nodes, sg, si, si.connections[d], canAssign)) &&
                si.connections[c].subnodeId == Nil
  }

  /**
   * Where the as-written per-subgraph check panics: the first unacceptable
   * input connection names the nil id, or all of them are acceptable and the
   * first unacceptable output names the nil id.
   */
  ghost predicate SubgraphPanics(nodes: seq<Node>, sg: SubGraph, canAssign: Assignable)
  {
    || (exists m :: 0 <= m < |sg.inputs| &&
                    (forall l :: 0 <= l < m ==> SubInputOk(nodes, sg, sg.inputs[l], canAssign)) &&
                    SubInputPanics(nodes, sg, sg.inputs[m], canAssign))
    || (&& (forall m :: 0 <= m < |sg.inputs| ==> SubInputOk(nodes, sg, sg.inputs[m], canAssign))
        && exists o :: 0 <= o < |sg.outputs| &&
                       (forall p :: 0 <= p < o ==> SubOutputOk(nodes, sg, sg.outputs[p], canAssign)) &&
                       sg.outputs[o].subnodeId == Nil)
  }

  lemma CheckNodePanics(nodes: seq<Node>, subgraphs: seq<SubGraph>, n: Node)
    ensures CheckNode(nodes, subgraphs, n, PanicsOnNil).Panic? <==> NodePanics(nodes, subgraphs, n)
  {
    var f := (input: Input) => CheckBinding(nodes, input, PanicsOnNil);
    CheckAllPanics(n.inputs, f);
    forall k | 0 <= k < |n.inputs|
      ensures f(n.inputs[k]).Ok? <==> BindingResolves(nodes, n.inputs[k])
    {
    }
  }

  lemma CheckSubInputPanics(nodes: seq<Node>, sg: SubGraph, si: SubInput, canAssign: Assignable)
    ensures CheckSubInput(nodes, sg, si, canAssign, PanicsOnNil).Ok? <==> SubInputOk(nodes, sg, si, canAssign)
    ensures CheckSubInput(nodes, sg, si, canAssign, PanicsOnNil).Panic? <==> SubInputPanics(nodes, sg, si, canAssign)
  {
    var f := (c: SubInputNodeConnection) => CheckConnection(nodes, sg, si, c, canAssign, PanicsOnNil);
    var ok := (c: SubInputNodeConnection) => ConnectionOk(nodes, sg, si, c, canAssign);
    var bad := (c: SubInputNodeConnection) => c.subnodeId == Nil;
    forall c | 0 <= c < |si.connections|
      ensures f(si.connections[c]).Ok? <==> ok(si.connections[c])
      ensures f(si.connections[c]).Panic? <==> bad(si.connections[c])
    {
      CheckConnectionOk(nodes, sg, si, si.connections[c], canAssign, PanicsOnNil);
    }
    CheckAllPanicsWhen(si.connections, f, ok, bad);
  }

  lemma CheckSubgraphPanics(nodes: seq<Node>, sg: SubGraph, canAssign: Assignable)
    ensures CheckSubgraph(nodes, sg, canAssign, PanicsOnNil).Panic? <==> SubgraphPanics(nodes, sg, canAssign)
  {
    SubInputsPanic(nodes, sg, canAssign);
    SubOutputsPanic(nodes, sg, canAssign);
  }

  lemma SubInputsPanic(nodes: seq<Node>, sg: SubGraph, canAssign: Assignable)
    ensures var r := CheckAll(sg.inputs, (si: SubInput) => CheckSubInput(nodes, sg, si, canAssign, PanicsOnNil));
            && (r.Ok? <==> forall m :: 0 <= m < |sg.inputs| ==> SubInputOk(nodes, sg, sg.inputs[m], canAssign))
            && (r.Panic? <==> exists m :: 0 <= m < |sg.inputs| &&
                                          (forall l :: 0 <= l < m ==> SubInputOk(nodes, sg, sg.inputs[l], canAssign)) &&
                                          SubInputPanics(nodes, sg, sg.inputs[m], canAssign))
  {
    var f := (si: SubInput) => CheckSubInput(nodes, sg, si, canAssign, PanicsOnNil);
    CheckAllPanics(sg.inputs, f);
    forall m | 0 <= m < |sg.inputs|
      ensures f(sg.inputs[m]).Ok? <==> SubInputOk(nodes, sg, sg.inputs[m], canAssign)
      ensures f(sg.inputs[m]).Panic? <==> SubInputPanics(nodes, sg, sg.inputs[m], canAssign)
    {
      CheckSubInputPanics(nodes, sg, sg.inputs[m], canAssign);
    }
  }

  lemma SubOutputsPanic(nodes: seq<Node>, sg: SubGraph, canAssign: Assignable)
    ensures CheckAll(sg.outputs, (so: SubOutput) => CheckSubOutput(nodes, sg, so, canAssign, PanicsOnNil)).Panic? <==>
              exists o :: 0 <= o < |sg.outputs| &&
                          (forall p :: 0 <= p < o ==> SubOutputOk(nodes, sg, sg.outputs[p], canAssign)) &&
                          sg.outputs[o].subnodeId == Nil
  {
    var g := (so: SubOutput) => CheckSubOutput(nodes, sg, so, canAssign, PanicsOnNil);
    var ok := (so: SubOutput) => SubOutputOk(nodes, sg, so, canAssign);
    var bad := (so: SubOutput) => so.subnodeId == Nil;
    forall o | 0 <= o < |sg.outputs|
      ensures g(sg.outputs[o]).Ok? <==> ok(sg.outputs[o])
      ensures g(sg.outputs[o]).Panic? <==> bad(sg.outputs[o])
    {
      CheckSubOutputOk(nodes, sg, sg.outputs[o], canAssign, PanicsOnNil);
    }
    CheckAllPanicsWhen(sg.outputs, g, ok, bad);
  }

  /**
   * `validate` as written panics exactly when the first node that fails its
   * check fails it on a nil lookup, or, with every node accepted, the first
   * subgraph that fails its check fails it on a nil lookup.
   */
  lemma ValidateAsWrittenPanicsIff(nodes: seq<Node>, subgraphs: seq<SubGraph>, canAssign: Assignable)
    ensures ValidateAsWritten(nodes, subgraphs, canAssign).Panic? <==>
      || (exists i :: 0 <= i < |nodes| && (forall j :: 0 <= j < i ==> NodeOk(nodes, subgraphs, nodes[j])) &&
                      NodePanics(nodes, subgraphs, nodes[i]))
      || (&& (forall i :: 0 <= i < |nodes| ==> NodeOk(nodes, subgraphs, nodes[i]))
          && exists t :: 0 <= t < |subgraphs| && (forall u :: 0 <= u < t ==> SubgraphOk(nodes, subgraphs[u], canAssign)) &&
                         SubgraphPanics(nodes, subgraphs[t], canAssign))
  {
    var f := (n: Node) => CheckNode(nodes, subgraphs, n, PanicsOnNil);
    var g := (sg: SubGraph) => CheckSubgraph(nodes, sg, canAssign, PanicsOnNil);
    CheckAllPanics(nodes, f);
    CheckAllPanics(subgraphs, g);
    forall i | 0 <= i < |nodes|
      ensures f(nodes[i]).Ok? <==> NodeOk(nodes, subgraphs, nodes[i])
      ensures f(nodes[i]).Panic? <==> NodePanics(nodes, subgraphs, nodes[i])
    {
      CheckNodeOk(nodes, subgraphs, nodes[i], PanicsOnNil);
      CheckNodePanics(nodes, subgraphs, nodes[i]);
    }
    forall t | 0 <= t < |subgraphs|
      ensures g(subgraphs[t]).Ok? <==> SubgraphOk(nodes, subgraphs[t], canAssign)
      ensures g(subgraphs[t]).Panic? <==> SubgraphPanics(nodes, subgraphs[t], canAssign)
    {
      CheckSubgraphOk(nodes, subgraphs[t], canAssign, PanicsOnNil);
      CheckSubgraphPanics(nodes, subgraphs[t], canAssign);
    }
  }

  /**
   * A node whose input is bound to the nil id: `validate` as written panics
   * in `node_by_id`, where the corrected validator returns the
   * "connected to a non-existent node" error.
   */
  lemma NilBindingPanics()
    ensures var n := Node(Id(1), Nil, "sum", Active, false,
                          [Input("a", DataType(0), true, Some(Binding(Nil, 0, Always)))], [], None);
            var anyType := (a: DataType, b: DataType) => true;
            && ValidateAsWritten([n], [], anyType) == Panic
            && Validate([n], [], anyType) == Err(BindingToMissingNode)
  {
    var n := Node(Id(1), Nil, "sum", Active, false,
                  [Input("a", DataType(0), true, Some(Binding(Nil, 0, Always)))], [], None);
    var anyType := (a: DataType, b: DataType) => true;
    assert CheckBinding([n], n.inputs[0], PanicsOnNil) == Panic;
    assert CheckBinding([n], n.inputs[0], MissesOnNil) == Err(BindingToMissingNode);
  }

  /** Adding `Node::new(id)` with an id not yet used keeps a well-formed graph well formed. */
  lemma AddFreshNodeKeepsWellFormed(nodes: seq<Node>, subgraphs: seq<SubGraph>, canAssign: Assignable, id: Uuid)
    requires id != Nil && forall i :: 0 <= i < |nodes| ==> nodes[i].selfId != id
    requires WellFormed(nodes, subgraphs, canAssign)
    ensures WellFormed(Upsert(nodes, NewNode(id), NodeKey), subgraphs, canAssign)
  {
    var ns := Upsert(nodes, NewNode(id), NodeKey);
    assert ns == nodes + [NewNode(id)];
    forall s, m, c | 0 <= s < |subgraphs| && 0 <= m < |subgraphs[s].inputs| && 0 <= c < |subgraphs[s].inputs[m].connections|
      ensures ConnectionOk(ns, subgraphs[s], subgraphs[s].inputs[m], subgraphs[s].inputs[m].connections[c], canAssign)
    {
      var sg, si := subgraphs[s], subgraphs[s].inputs[m];
      var cn := si.connections[c];
      assert ConnectionOk(nodes, sg, si, cn, canAssign);
      var ok := (n: Node) => cn.subnodeInputIndex as int < |n.inputs| && canAssign(si.dataType, n.inputs[cn.subnodeInputIndex].dataType);
      FirstNodeSurvivesAppend(nodes, NewNode(id), cn.subnodeId, sg.selfId, ok);
    }
    forall s, o | 0 <= s < |subgraphs| && 0 <= o < |subgraphs[s].outputs|
      ensures SubOutputOk(ns, subgraphs[s], subgraphs[s].outputs[o], canAssign)
    {
      var sg, so := subgraphs[s], subgraphs[s].outputs[o];
      assert SubOutputOk(nodes, sg, so, canAssign);
      var ok := (n: Node) => so.subnodeOutputIndex as int < |n.outputs| && canAssign(so.dataType, n.outputs[so.subnodeOutputIndex].dataType);
      FirstNodeSurvivesAppend(nodes, NewNode(id), so.subnodeId, sg.selfId, ok);
    }
    forall i, k | 0 <= i < |ns| && 0 <= k < |ns[i].inputs| && ns[i].inputs[k].binding.Some?
      ensures exists j :: 0 <= j < |ns| && ns[j].selfId == ns[i].inputs[k].binding.value.outputNodeId
    {
      var j :| 0 <= j < |nodes| && nodes[j].selfId == nodes[i].inputs[k].binding.value.outputNodeId;
      assert ns[j] == nodes[j];
    }
  }

  lemma FirstNodeSurvivesAppend(nodes: seq<Node>, x: Node, id: Uuid, sgId: Uuid, ok: Node -> bool)
    requires FirstNodeWithId(nodes, id, sgId, ok)
    ensures FirstNodeWithId(nodes + [x], id, sgId, ok)
  {
    var j :| 0 <= j < |nodes| && nodes[j].selfId == id && (forall k :: 0 <= k < j ==> nodes[k].selfId != id) &&
             nodes[j].subgraphId == Some(sgId) && ok(nodes[j]);
    assert (nodes + [x])[j] == nodes[j];
    assert forall k :: 0 <= k < j ==> (nodes + [x])[k] == nodes[k];
  }
}
