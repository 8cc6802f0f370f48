# Node graph, execution planner and wgpu context — a Dafny model

Imaginarium is an image-processing node editor. This project models three
parts of its core:

- **The node graph** (`Graph/src/graph.rs`). Nodes carry inputs that may be bound
  to another node's output. Subgraphs group nodes and expose inputs and outputs.
  `Graph.dfy` models the graph as a class whose node and subgraph lists are
  updated in place by `add_node`, `remove_node_by_id`, `add_subgraph` and
  `remove_subgraph_by_id`. It also has the lookups, `Node::new` and
  `Binding::new`. `GraphValidate.dfy` models `validate` and proves that it
  accepts exactly the well-formed graphs.
- **The execution planner** (`Graph/src/runtime_graph.rs`). `RuntimeGraph::run`
  decides which nodes must execute:
  - a backward worklist starts from the output nodes and collects every upstream
    node;
  - a first forward pass propagates incompleteness (an unbound required input,
    or an incomplete upstream node);
  - a second forward pass applies the execution rule against the previous run.

  `Runtime.dfy` holds the class `RuntimeGraph`, whose methods follow the source's
  loops. Each method is proved equal to a specification function (`Discover`,
  `Forward1`/`Settle`, `Forward2`, `Plan`), and the planner's guarantees are
  lemmas about those functions. `RuntimeExamples.dfy` traces two concrete graphs
  through the planner; they are the witnesses for the findings below.
- **The wgpu context** (`Imaginarium/src/wgpu/wgpu_context.rs`). `Wgpu.dfy` covers:
  - the uniform-size rounding;
  - the binding numbering of the shader layout and of the bind group;
  - the vertex-attribute offsets;
  - the descriptor checks of `Texture::write` and `Texture::read`;
  - the pending command encoder that `perform`, `sync` and `drop` pass around.

  The queue is modelled as the ordered log of texture writes and submitted
  command lists. The main property is that no recorded command is ever lost or
  reordered.

`Wrappers.dfy` holds `Option`. `Seqs.dfy` holds the iterator adapters the graph
code uses (`position`, `find`, `filter`/`retain`, and replace-or-push).

## Model

| member | source | states |
|---|---|---|
| Seqs.Upsert | Graph/src/graph.rs:111-114 | Replace-or-push by key: the first element with the same key is overwritten in place; with no such element the new one is appended. Other elements keep their index, and distinct keys stay distinct. |
| Graph.Graph.AddNode | Graph/src/graph.rs:110-115 | The node list becomes the replace-or-push of the node by id. Subgraphs are unchanged. |
| Graph.Graph.RemoveNodeById | Graph/src/graph.rs:116-128 | Requires a non-nil id (the `assert_ne!`). The node list becomes `WithoutNode`: the other nodes are retained, then bindings to the removed id are cleared. Subgraphs are unchanged. |
| Graph.UnbindAll | Graph/src/graph.rs:121-127 | The `iter_mut` loop clears, in every node, exactly the bindings that target the removed id. |
| Graph.UnbindInput | Graph/src/graph.rs:124-126 | An input bound to the removed id loses its binding. Any other input is unchanged. |
| Graph.RemovedNodeIsGone | Graph/src/graph.rs:116-128 | After removal, no node has the removed id and no binding targets it. |
| Graph.RemoveNodeKeepsOthers | Graph/src/graph.rs:119-127 | Every other node survives, with only its bindings to the removed id cleared. Every survivor comes from such a node, and node order is kept. Every copy is kept: each other id occurs exactly as often as before, and each copy of a surviving node is still there. |
| Graph.NodeByName | Graph/src/graph.rs:130-132 | None exactly when no node has the name. Otherwise the result is the first node with that name. |
| Graph.NodeById | Graph/src/graph.rs:137-143 | Requires a non-nil id. None exactly when no node has the id. Otherwise the result is the first node with that id. |
| Graph.NodesBySubgraphId | Graph/src/graph.rs:151-158 | Exactly the nodes of the subgraph, as a subsequence of the node list, each as many times as it occurs there. |
| Graph.Graph.AddSubgraph | Graph/src/graph.rs:241-246 | The subgraph list becomes the replace-or-push of the subgraph by id. Nodes are unchanged. |
| Graph.WithoutSubgraph | Graph/src/graph.rs:250-251 | `retain`: the subgraphs without the id, with every other subgraph kept in order and as many times as it occurs. |
| Graph.MemberIds | Graph/src/graph.rs:253-257 | The collected ids are exactly the ids of the subgraph's member nodes. |
| Graph.Graph.RemoveSubgraphById | Graph/src/graph.rs:247-263 | The subgraph is dropped, then `remove_node_by_id` runs for each collected member id in turn. Every member id must be non-nil, because that call asserts it. |
| Graph.RemovedNodesAreGone | Graph/src/graph.rs:258-262 | Every node left after the removals comes from a node whose id was not removed. None of its bindings targets a removed id. |
| Graph.RemoveSubgraphLeavesNoMembers | Graph/src/graph.rs:247-263 | Afterwards no node belongs to the subgraph, and no binding targets one of its former members. |
| Graph.SubgraphById | Graph/src/graph.rs:271-276 | Requires a non-nil id. None exactly when no subgraph has the id. Otherwise the result is the first subgraph with that id. |
| Graph.NewBinding | Graph/src/graph.rs:306-312 | The binding targets the given node and output index, with behaviour Always. |
| GraphValidate.AddFreshNodeKeepsWellFormed | Graph/src/graph.rs:280-291 | Adding `Node::new` with an unused non-nil id to a well-formed graph keeps it well formed. |
| GraphValidate.CheckAll | Graph/src/graph.rs:181-199 | A loop with early return is Ok exactly when every step is Ok. Otherwise it returns the outcome of the first failing step. |
| GraphValidate.CheckNodeOk | Graph/src/graph.rs:181-199 | The per-node check passes exactly when the id is non-nil, the subgraph exists and every binding names an existing node. |
| GraphValidate.CheckConnectionOk | Graph/src/graph.rs:204-216 | A subgraph input connection passes exactly when its node exists, belongs to the subgraph and has the input index, and the data types are assignable. |
| GraphValidate.CheckSubOutputOk | Graph/src/graph.rs:219-231 | A subgraph output passes exactly when its node exists, belongs to the subgraph and has the output index, and the data types are assignable. |
| GraphValidate.CheckSubgraphOk | Graph/src/graph.rs:201-232 | A subgraph passes exactly when all its input connections and outputs pass. |
| GraphValidate.SubInputsPanic | Graph/src/graph.rs:202-217 | The loop over subgraph inputs passes exactly when every connection passes. It panics exactly when the first failing connection names the nil id. |
| GraphValidate.SubOutputsPanic | Graph/src/graph.rs:219-231 | The loop over subgraph outputs panics exactly when the first failing output names the nil id. |
| GraphValidate.ValidateOkIffWellFormed | Graph/src/graph.rs:180-235 | `validate` returns Ok exactly when the graph is well formed. This holds whichever way nil lookups behave. |
| GraphValidate.ValidateAsWritten | Graph/src/graph.rs:180-235 | `validate` as written is Ok exactly when the graph is well formed. |
| GraphValidate.ValidateAsWrittenAgrees | Graph/src/graph.rs:180-235 | When `validate` as written does not panic, it returns what the corrected validator returns. When it panics, the corrected validator returns an error. |
| GraphValidate.CheckAllPanics | Graph/src/graph.rs:181-199 | A loop with early return panics exactly when its first failing step panics. |
| GraphValidate.CheckNodePanics | Graph/src/graph.rs:182-197 | The per-node check as written panics exactly when the node id is non-nil and the subgraph id is nil, or when the subgraph exists and the first input whose binding does not resolve is bound to the nil id. |
| GraphValidate.CheckSubgraphPanics | Graph/src/graph.rs:201-232 | The per-subgraph check as written panics exactly when its first failing input connection names the nil id, or when every input connection passes and its first failing output names the nil id. |
| GraphValidate.ValidateAsWrittenPanicsIff | Graph/src/graph.rs:180-235 | `validate` as written panics exactly when the first node that fails its check fails it on a nil lookup. With every node accepted, it panics exactly when the first subgraph that fails its check fails it on a nil lookup. A failure that is reached earlier and is not a nil lookup returns its error instead. |
| GraphValidate.NilBindingPanics | Graph/src/graph.rs:192-196 | A node bound to the nil id makes `validate` as written panic. The corrected validator returns "connected to a non-existent node" instead. |
| GraphValidate.Validate | Graph/src/graph.rs:180-235 | The corrected `validate` never panics, and it is Ok exactly when the graph is well formed. |
| GraphValidate.ValidateNeverPanics | Graph/src/graph.rs:194 | When nil lookups report "not found", no check panics. |
| Runtime.RuntimeGraph.constructor | Graph/src/runtime_graph.rs:23-28 | Both record lists start empty. |
| Runtime.RuntimeGraph.Run | Graph/src/runtime_graph.rs:30-37 | After `run`, `prev_run` holds the plan computed against the previous run, and the working list is empty (the swap and the `clear`). |
| Runtime.RuntimeGraph.TraverseBackward | Graph/src/runtime_graph.rs:39-98 | The working list becomes the reversed result of the seed-then-worklist discovery. |
| Runtime.VisitAll | Graph/src/runtime_graph.rs:60-91 | The inner input loop of the backward pass equals the fold `VisitInputs`. |
| Runtime.VisitOne | Graph/src/runtime_graph.rs:61-90 | For one input: an unbound input marks the node incomplete. Otherwise the upstream record is found, or appended with `has_outputs` copied from the previous run, and it is promoted to Always when both edges are Always. |
| Runtime.Advance | Graph/src/runtime_graph.rs:57-94 | One worklist iteration keeps the worklist made of distinct graph ids, and never shrinks it. |
| Runtime.DiscoverSeeds | Graph/src/runtime_graph.rs:42-53 | The first records are the output nodes, one per output node. Each is Active and Always, with no outputs, and not executing. |
| Runtime.DiscoverNoDuplicates | Graph/src/runtime_graph.rs:66-77 | The backward pass records each node at most once, and only nodes of the graph. |
| Runtime.DiscoverUpstream | Graph/src/runtime_graph.rs:69-81 | Every non-seed record is an upstream node of an earlier record. It has the node's behaviour and `has_outputs` from the previous run, and it does not execute. |
| Runtime.DiscoverAlways | Graph/src/runtime_graph.rs:84-87 | A discovered record is Always only when an Always record reaches it through an Always edge. |
| Runtime.AdvanceNeverDemotes | Graph/src/runtime_graph.rs:84-87 | A record once Always stays Always. |
| Runtime.DiscoverComplete | Graph/src/runtime_graph.rs:88-90 | After the backward pass, a record is complete exactly when all its node's inputs are bound. |
| Runtime.DiscoverClosed | Graph/src/runtime_graph.rs:56-95 | Every bound input of every recorded node has its upstream node recorded, so the forward pass's `find(..).unwrap()` succeeds. |
| Runtime.CheckInputs | Graph/src/runtime_graph.rs:105-117 | The inner loop of the first forward pass: true exactly when no bound input has an incomplete upstream record and no required input is unbound. |
| Runtime.RuntimeGraph.TraverseForward1 | Graph/src/runtime_graph.rs:100-121 | One pass in list order, where each record reads the partly updated list. It equals `Forward1`. |
| Runtime.Forward1 | Graph/src/runtime_graph.rs:101-120 | The pass changes only `is_complete`. |
| Runtime.Forward1Sound | Graph/src/runtime_graph.rs:105-117 | A record the pass leaves complete was complete before, and has no unbound required input. |
| Runtime.Forward1OnlyLoses | Graph/src/runtime_graph.rs:100-121 | The pass only ever turns complete records incomplete. |
| Runtime.Forward1Stable | Graph/src/runtime_graph.rs:100-121 | When a pass changes nothing, every complete record has complete upstream records and all its required inputs bound. |
| Runtime.Settle | Graph/src/runtime_graph.rs:100-121 | Repeating the pass until nothing changes terminates, keeps the list closed, and only loses completeness. |
| Runtime.SettleConsistent | Graph/src/runtime_graph.rs:105-111 | After settling, every complete record's bound inputs come from complete records. |
| Runtime.SettleUnboundOptional | Graph/src/runtime_graph.rs:153 | After settling, every unbound input of a complete record is optional, so the `assert_eq!` of the second pass holds. |
| Runtime.FindUpdatedInputs | Graph/src/runtime_graph.rs:138-155 | The inner loop of the second pass: true exactly when some Always edge comes from a node that executed in the previous run, or that has no record there. |
| Runtime.RuntimeGraph.TraverseForward2 | Graph/src/runtime_graph.rs:123-166 | Each record is decided independently by the execution rule. |
| Runtime.CheckedNotExecuted | Graph/src/runtime_graph.rs:44-76 | Before the second pass, no record is marked to execute. |
| Runtime.PlanExecutionRule | Graph/src/runtime_graph.rs:126-165 | A record executes exactly when it is complete and either has no outputs yet, or is Always and (Active, or Passive with an updated input). An executing record gains outputs. Other records are unchanged. |
| Runtime.PlanRunsCompleteOutputs | Graph/src/runtime_graph.rs:42-53 | Every output node has a planned record, and it executes exactly when it is complete. |
| Runtime.PlanSkipsUnbound | Graph/src/runtime_graph.rs:88-90 | A node with an unbound input never executes. |
| Runtime.PlanUpstreamComplete | Graph/src/runtime_graph.rs:105-111 | A node executes only when the record of every node its bound inputs read is complete. |
| Runtime.DecideAsWritten | Graph/src/runtime_graph.rs:142-146 | The second pass as written panics exactly for a complete Passive Always record with outputs that has either an Always upstream without a previous-run record or an unbound required input. Otherwise it agrees with the corrected rule. |
| RuntimeExamples.LateBindingPanics | Graph/src/runtime_graph.rs:142-146 | A passive node newly bound to a node absent from the previous run makes the second pass as written panic. The corrected plan executes it. |
| RuntimeExamples.DiamondForward1 | Graph/src/runtime_graph.rs:100-121 | On a diamond, one pass leaves node 3 complete while its upstream node 2 ends incomplete, and the second pass then executes node 3. |
| RuntimeExamples.DiamondPlan | Graph/src/runtime_graph.rs:100-121 | With the pass settled, node 3 of the diamond does not execute. |
| Wgpu.AlignedSizeOfUniform | Imaginarium/src/wgpu/wgpu_context.rs:13-19 | The padded size is a multiple of 256, at least the type size, and less than 256 above it. |
| Wgpu.AlignedIsSmallest | Imaginarium/src/wgpu/wgpu_context.rs:16 | No multiple of 256 that holds the type is smaller than the padded size. |
| Wgpu.AlignedKeepsMultiples | Imaginarium/src/wgpu/wgpu_context.rs:16 | A size that is already a multiple of 256 is returned unchanged. |
| Wgpu.LayoutEntries | Imaginarium/src/wgpu/wgpu_context.rs:218-239 | The layout loop builds `Layout(count)`. |
| Wgpu.LayoutNumbering | Imaginarium/src/wgpu/wgpu_context.rs:218-239 | The layout has count + 1 entries: binding 0 is the sampler and binding k + 1 is input texture k. |
| Wgpu.BindEntries | Imaginarium/src/wgpu/wgpu_context.rs:357-369 | The bind-entry loop builds `BindGroup(inputs)`. |
| Wgpu.BindGroupNumbering | Imaginarium/src/wgpu/wgpu_context.rs:357-369 | The bind group has one entry more than there are textures. Binding 0 is the default sampler and binding k + 1 is the view of input k. |
| Wgpu.RunShaderFitsLayout | Imaginarium/src/wgpu/wgpu_context.rs:352-375 | For a shader whose layout is the one `create_shader` builds, a render pass that passes `run_shader`'s checks binds a group that fits the shader's own layout. |
| Wgpu.BindGroupFitsLayout | Imaginarium/src/wgpu/wgpu_context.rs:352 | When the texture count check passes, the bind group matches the shader's layout entry for entry: same binding, matching resource kind, and no binding used twice. |
| Wgpu.VertexAttributes | Imaginarium/src/wgpu/wgpu_context.rs:257-268 | The attribute loop builds `Attributes(formats)`, and the accumulated stride is the summed size of the formats. |
| Wgpu.AttributesPacked | Imaginarium/src/wgpu/wgpu_context.rs:259-276 | Attribute i has shader location i. The first starts at 0, each ends where the next begins, none overlaps a later one, and the last ends at the array stride. |
| Wgpu.RectVertexAttributes | Imaginarium/src/wgpu/wgpu_context.rs:257-258 | For the two `Float32x2` attributes, the offsets are 0 and 8 and the stride is 16. |
| Wgpu.CreateShader | Imaginarium/src/wgpu/wgpu_context.rs:205-308 | The shader keeps its declared counts, the numbered layout, the rectangle vertex layout, its attributes and its stride. |
| Wgpu.TransfersCheckDesc | Imaginarium/src/wgpu/wgpu_context.rs:485-507 | Upload and readback fail exactly when the texture and image descriptors differ. A readback keeps the image's descriptor. |
| Wgpu.ReadbackAfterUpload | Imaginarium/src/wgpu/wgpu_context.rs:485-555 | Reading back what was just uploaded gives the image unchanged. |
| Wgpu.UploadAfterReadback | Imaginarium/src/wgpu/wgpu_context.rs:485-555 | Uploading what was just read back leaves the texture memory as it was. |
| Wgpu.Texture.Write | Imaginarium/src/wgpu/wgpu_context.rs:485-502 | An error with "image info mismatch" exactly when the descriptors differ, and then the texture is untouched. Otherwise the texture holds the image's bytes. |
| Wgpu.Texture.Read | Imaginarium/src/wgpu/wgpu_context.rs:504-555 | An error exactly when the descriptors differ, and then the image is untouched. Otherwise the image's bytes become the texture's contents. |
| Wgpu.Context.constructor | Imaginarium/src/wgpu/wgpu_context.rs:85-92 | A new context has no pending encoder and nothing queued. |
| Wgpu.Context.Perform | Imaginarium/src/wgpu/wgpu_context.rs:95-196 | The actions run in order. The method panics exactly when `PerformAll` does; otherwise the new state is `PerformAll` of the old one. |
| Wgpu.Context.Apply | Imaginarium/src/wgpu/wgpu_context.rs:97-194 | One action moves the state as `Step` does. |
| Wgpu.Context.EncodeRunShader | Imaginarium/src/wgpu/wgpu_context.rs:352-369 | Panics exactly when the texture count or the push-constant length differs from the shader's. Otherwise one render pass, with the numbered bind group, is appended to the pending encoder. |
| Wgpu.Context.WriteTextures | Imaginarium/src/wgpu/wgpu_context.rs:118-136 | The `ImgToTex` loop equals `Uploads`. |
| Wgpu.Context.ReadTextures | Imaginarium/src/wgpu/wgpu_context.rs:137-193 | The `TexToImg` loop equals `Readbacks`: each pair takes the pending encoder, or a fresh one, records the copy and submits it. |
| Wgpu.Context.Sync | Imaginarium/src/wgpu/wgpu_context.rs:198-203 | `sync` submits the pending encoder, if there is one, and leaves none. |
| Wgpu.Context.Drop | Imaginarium/src/wgpu/wgpu_context.rs:415-420 | Dropping panics exactly when an encoder is still pending. |
| Wgpu.UploadsEffect | Imaginarium/src/wgpu/wgpu_context.rs:118-136 | Uploads panic exactly at a mismatched pair. Otherwise the encoder is unchanged and no command is recorded. |
| Wgpu.ReadbacksEffect | Imaginarium/src/wgpu/wgpu_context.rs:137-193 | Readbacks panic exactly at a mismatched pair. Otherwise at least one readback leaves no encoder pending, and the recorded commands gain one copy per pair, in order. |
| Wgpu.StepEffect | Imaginarium/src/wgpu/wgpu_context.rs:97-194 | An action panics exactly when it is faulty. `RunShader` leaves an encoder pending that extends the previous one. `ImgToTex` leaves the encoder alone. A non-empty `TexToImg` leaves none. No command is lost, and the queue only grows. |
| Wgpu.PerformPanicsIff | Imaginarium/src/wgpu/wgpu_context.rs:95-196 | `perform` panics exactly when one of its actions is faulty. |
| Wgpu.PerformKeepsCommands | Imaginarium/src/wgpu/wgpu_context.rs:95-196 | Without a panic, the recorded commands (submitted, then pending) are the old ones followed by those the actions issued, in order. |
| Wgpu.SyncedEffect | Imaginarium/src/wgpu/wgpu_context.rs:198-203 | After `sync` no encoder is pending, so dropping cannot panic, and no recorded command is lost. |

## Left out

- **Graph file I/O and ids.** The YAML I/O of `Graph` (`to_yaml`, `from_yaml`, `from_yaml_file`) is not modelled. Neither is the randomness of `Uuid::new_v4`: `Node::new` takes the id as a parameter, and a UUID is opaque apart from the nil value.
- **Trivial accessors.** The `_mut` lookups (`node_by_id_mut`, `node_by_name_mut`, `subgraph_by_id_mut`, `nodes_mut`) return the same element as their shared counterparts, so they are not modelled separately. Neither are the plain accessors (`nodes`, `subgraphs`, `id`, `output_node_id`, `output_index`) or `SubGraph::new`.
- **Data types.** `DataType::can_assign` is not part of this model; validation takes assignability as a parameter.
- **The planner's graph accessors.** `inputs_by_node_id`, `edge_by_input_id`, `output_by_id` and `node_by_id` are not part of this model. The planner reads an abstract graph: nodes with an id, a behaviour, an output flag and inputs, each input possibly bound to an upstream node through an edge. Their `unwrap`s become the precondition `ValidInput`: node ids are distinct, and every edge starts at a node of the graph. Node ids are natural numbers.
- Runtime.RuntimeGraph.Run: repeats `traverse_forward1` until nothing changes, where the source runs it once; see the findings.
- Runtime.FindUpdatedInputs: an Always upstream with no record in the previous run counts as updated, where the source panics in `unwrap`; see the findings.
- Runtime.RuntimeGraph.TraverseForward2: an Always upstream with no record in the previous run counts as updated, where the source panics in `unwrap`; see the findings. The `assert_eq!` on unbound inputs is a precondition, and it is proved to hold after the settled first pass.
- **GPU plumbing in the wgpu context.** Device and queue creation, adapter limits, pipeline, texture and buffer creation, `map_async`/`poll` readback, `create_texture`, `VertexBuffer` and `Shader::get_pipeline` are not modelled. The queue is the ordered log of texture writes and submissions, and a command encoder is the list of commands recorded in it.
- Wgpu.Context.Perform: `ImgToTex` and `TexToImg` are modelled through the image and texture descriptors and the texture identity only. The pixel bytes they move are not followed; `Texture.Write`/`Texture.Read` model that data flow.
- Wgpu.Texture.Write: the upload through the queue is modelled as an immediate update of the texture's memory.
- Wgpu.AlignedSizeOfUniform: does not model `usize` overflow of `size + 255`, which only a type close to `usize::MAX` bytes would reach.
- Wgpu.Context.EncodeRunShader: does not model the `as u32` truncation of the texture count and the push-constant length in the two `assert_eq!` checks.
- **Vertex formats.** Only `Float32`, `Float32x2`, `Float32x3` and `Float32x4` are given sizes. The shader uses only `Float32x2`.

## Findings

| source | as written | input that shows it | evidently intended | confidence | as-written member | corrected member |
|---|---|---|---|---|---|---|
| Graph/src/graph.rs:192-196 | `validate` looks up a binding's target with `node_by_id`, which asserts that the id is not nil. | A node whose input is bound to the nil id. | Return the "Node input connected to a non-existent node" error. | high; not executed | GraphValidate.NilBindingPanics | GraphValidate.Validate |
| Graph/src/runtime_graph.rs:142-146 | The second pass unwraps `prev_run.find(..)` for every Always edge of a complete Passive node that has outputs. | Output 1 reads passive node 2. After the previous run, in which node 2 had no inputs, node 2 gained an input bound to a new node 3, which has no previous-run record. | An upstream absent from the previous run counts as updated, so the node runs. | medium; not executed | RuntimeExamples.LateBindingPanics | Runtime.PlanExecutionRule |
| Graph/src/runtime_graph.rs:100-121 | One first forward pass over the reversed discovery order, which is not topological. | A diamond: 1 reads 2 and 3, 3 reads 2, 2 reads 4, and 4 has an unbound required input. Node 3 is checked before node 2 turns incomplete. | Incompleteness reaches every downstream node: repeat the pass until nothing changes. | medium; not executed | RuntimeExamples.DiamondForward1 | Runtime.PlanUpstreamComplete |
