/** The shape-inference engine: it seeds a map from graph values to their
    records with the runtime inputs, runs each node's shape function in graph
    order and stores the results under the node's outputs, then collects the
    shapes of the graph outputs. */
module ShapeEngine {
  import opened Metadata
  import B = Broadcasting
  import MP = MatrixProducts
  import J = Joining
  import I = Indexing
  import V = Values
  import E = EmbeddingBags

  /** A value of the graph (a `torch::jit::Value*` in the source). */
  type Handle = nat

  /** The operator a node applies. Unsupported carries the symbol of any
      operator the engine has no shape function for. */
  datatype OpKind =
    | Constant | Tanh | Relu | Sigmoid | Sub | Pow | Mul | Add
    | Mm | Addmm | Bmm | FusedConcat | ConstantChunk | ListConstruct
    | Slice | Reshape | Permute | EmbeddingBag | FusedStack
    | EmbeddingBagByteRowwiseOffsets
    | Unsupported(symbol: string)

  /** A node with the attributes the shape functions read: `dim` and `chunks`
      for the joining operators; the output type, integer `value` and tensor
      sizes of a constant. */
  datatype Node = Node(kind: OpKind, inputs: seq<Handle>, outputs: seq<Handle>,
                       dim: int, chunks: int,
                       constType: V.ConstType, value: int, tensorSizes: Shape)

  datatype Graph = Graph(inputs: seq<Handle>, nodes: seq<Node>, outputs: seq<Handle>)

  /** The runtime values a graph can be run on. */
  datatype RuntimeInput =
    | TensorInput(sizes: Shape)
    | BoolInput(b: bool)
    | IntInput(v: int)
    | IntListInput(vs: seq<int>)
    | OtherInput

  /** The engine's map from values to their records. */
  type Store = map<Handle, VariableMeta>

  /** The store and outcome after a phase that stops at its first failure. */
  datatype Progress = Progress(store: Store, outcome: Outcome)

  /** The engine's state after a run: the store, the outcome and the list of
      graph output shapes. */
  datatype RunResult = RunResult(store: Store, outcome: Outcome, shapes: seq<Shape>)

  // ---------------------------------------------------------------------
  // Reading and writing the store
  // ---------------------------------------------------------------------

  /** The records of `hs`, in order; every one must be present. */
  function Lookup(m: Store, hs: seq<Handle>): (r: Result<MetaStack>)
    ensures r.Ok? <==> forall i :: 0 <= i < |hs| ==> hs[i] in m
    ensures r.Ok? ==> |r.value| == |hs| && forall i :: 0 <= i < |hs| ==> r.value[i] == m[hs[i]]
  {
    if forall i :: 0 <= i < |hs| ==> hs[i] in m
    then Ok(seq(|hs|, i requires 0 <= i < |hs| => m[hs[i]]))
    else Err(InvariantViolation)
  }

  /** Writing only the shape of a record: a record made on the spot has no
      known integers. */
  function SetShape(m: Store, h: Handle, s: Shape): Store
  {
    m[h := VariableMeta(s, if h in m then m[h].intValue else [])]
  }

  /** Setting the shape of each of `hs` in turn to the matching entry of `rs`. */
  function StoreAll(m: Store, hs: seq<Handle>, rs: seq<Shape>): Store
    requires |hs| <= |rs|
  {
    if hs == [] then m
    else SetShape(StoreAll(m, hs[..|hs| - 1], rs), hs[|hs| - 1], rs[|hs| - 1])
  }

  // ---------------------------------------------------------------------
  // One node
  // ---------------------------------------------------------------------

  function Single(r: Result<Shape>): (s: Result<seq<seq<int>>>)
  {
    match r
    case Ok(v) => Ok([v])
    case Err(e) => Err(e)
  }

  /** The shape function a node's operator selects, applied to its input
      records. Every operator yields one shape or value, except ConstantChunk
      which yields one shape per chunk. */
  function OpResults(node: Node, ms: MetaStack, hasEndOffset: bool): (r: Result<seq<seq<int>>>)
    ensures r.Ok? && !node.kind.ConstantChunk? ==> |r.value| == 1
  {
    match node.kind
    case FusedStack => Single(J.FusedStackSpec(ms, node.dim))
    case EmbeddingBagByteRowwiseOffsets => Single(E.EmbeddingBagByteRowwiseOffsets(ms, hasEndOffset))
    case Constant =>
      if |node.outputs| != 1 then Err(InvariantViolation)
      else Ok([V.PrimConstant(node.constType, node.value, node.tensorSizes)])
    case Tanh => if |ms| != 1 then Err(ArityError) else Ok([ms[0].shape])
    case Relu => if |ms| != 1 then Err(ArityError) else Ok([ms[0].shape])
    case Sigmoid => if |ms| != 1 then Err(ArityError) else Ok([ms[0].shape])
    case Sub => Single(B.BinaryOpSpec(ms))
    case Pow => Single(B.BinaryOpSpec(ms))
    case Mul => Single(B.BinaryOpSpec(ms))
    case Add => Single(B.BinaryOpSpec(ms))
    case Mm => Single(MP.Mm(ms))
    case Addmm => Single(MP.Addmm(ms))
    case Bmm => Single(MP.Bmm(ms))
    case FusedConcat => Single(J.FusedConcatSpec(ms, node.dim))
    case ConstantChunk => J.ConstantChunkSpec(ms, node.chunks, node.dim)
    case ListConstruct => Single(V.ListConstructSpec(ms))
    case Slice => Single(I.SliceSpec(ms))
    case Reshape => Single(I.ReshapeSpec(ms))
    case Permute => Single(I.PermuteSpec(ms))
    case EmbeddingBag => Single(E.EmbeddingBag(ms, hasEndOffset))
    case Unsupported(_) => Err(UnsupportedOperator)
  }

  /** The values of the store a node's results are written under: a constant
      and a list have exactly one output, an embedding bag records only its
      first, every other operator records all of its outputs. */
  function Written(node: Node): seq<Handle>
  {
    if node.kind.EmbeddingBag? && |node.outputs| > 0 then node.outputs[..1] else node.outputs
  }

  /** Storing a node's results. A non-tensor constant and a list record their
      integers with shape [1] and [n, 1]; a tensor constant and every other
      operator write shapes only. Writing more outputs than there are results
      reads past the results in the source. */
  function StoreResults(m: Store, node: Node, rs: seq<seq<int>>): Result<Store>
    requires node.kind.ConstantChunk? || |rs| == 1
  {
    if node.kind.Constant? then
      if |node.outputs| != 1 then Err(InvariantViolation)
      else if node.constType == V.TensorType then Ok(SetShape(m, node.outputs[0], rs[0]))
      else Ok(m[node.outputs[0] := VariableMeta([1], rs[0])])
    else if node.kind.ListConstruct? then
      if |node.outputs| != 1 then Err(InvariantViolation)
      else Ok(m[node.outputs[0] := ListMeta(rs[0])])
    else if node.kind.EmbeddingBag? then
      if |node.outputs| == 0 then Err(InvariantViolation)
      else Ok(SetShape(m, node.outputs[0], rs[0]))
    else if |node.outputs| > |rs| then Err(UndefinedBehaviour)
    else Ok(StoreAll(m, node.outputs, rs))
  }

  /** shapeOnNode: look up the inputs, apply the shape function, store. */
  function NodeStep(m: Store, node: Node, hasEndOffset: bool): Result<Store>
  {
    var ms :- Lookup(m, node.inputs);
    var rs :- OpResults(node, ms, hasEndOffset);
    StoreResults(m, node, rs)
  }

  // ---------------------------------------------------------------------
  // The whole graph
  // ---------------------------------------------------------------------

  /** The record a runtime input is seeded with. */
  function SeedRecord(x: RuntimeInput): Result<VariableMeta>
  {
    match x
    case TensorInput(sizes) => Ok(VariableMeta(sizes, []))
    case BoolInput(b) => Ok(ScalarMeta(if b then 1 else 0))
    case IntInput(v) => Ok(ScalarMeta(v))
    case IntListInput(vs) => Ok(ListMeta(vs))
    case OtherInput => Err(UnsupportedInputType)
  }

  /** getGraphIntputShape: each graph input's record is cleared and then
      seeded; an unsupported input stops the loop with its record cleared. */
  function SeedInputs(m: Store, hs: seq<Handle>, xs: seq<RuntimeInput>): Progress
    requires |hs| == |xs|
  {
    if hs == [] then Progress(m, Pass)
    else
      var n := |hs| - 1;
      var p := SeedInputs(m, hs[..n], xs[..n]);
      if p.outcome.Fail? then p
      else match SeedRecord(xs[n])
        case Ok(v) => Progress(p.store[hs[n] := v], Pass)
        case Err(e) => Progress(p.store[hs[n] := VariableMeta([], [])], Fail(e))
  }

  /** One node's effect on the store: none when it fails. */
  function NodeOutcome(m: Store, node: Node, hasEndOffset: bool): Progress
  {
    match NodeStep(m, node, hasEndOffset)
    case Ok(m') => Progress(m', Pass)
    case Err(e) => Progress(m, Fail(e))
  }

  /** The nodes in graph order, stopping at the first that fails. */
  function RunNodes(m: Store, nodes: seq<Node>, hasEndOffset: bool): Progress
  {
    if nodes == [] then Progress(m, Pass)
    else
      var n := |nodes| - 1;
      var p := RunNodes(m, nodes[..n], hasEndOffset);
      if p.outcome.Fail? then p
      else NodeOutcome(p.store, nodes[n], hasEndOffset)
  }

  /** generateGraphOutputShape: the shapes of the graph outputs, in order. */
  function Collect(m: Store, hs: seq<Handle>): Result<seq<Shape>>
  {
    var ms :- Lookup(m, hs);
    Ok(Shapes(ms))
  }

  /** run: check the input count, seed, run the nodes, append the output shapes. */
  function RunSpec(m: Store, shapes: seq<Shape>, g: Graph, xs: seq<RuntimeInput>, hasEndOffset: bool): RunResult
  {
    if |xs| != |g.inputs| then RunResult(m, Fail(InputCountMismatch), shapes)
    else
      var p := SeedInputs(m, g.inputs, xs);
      if p.outcome.Fail? then RunResult(p.store, p.outcome, shapes)
      else
        var q := RunNodes(p.store, g.nodes, hasEndOffset);
        if q.outcome.Fail? then RunResult(q.store, q.outcome, shapes)
        else match Collect(q.store, g.outputs)
          case Ok(ss) => RunResult(q.store, Pass, shapes + ss)
          case Err(e) => RunResult(q.store, Fail(e), shapes)
  }

  // ---------------------------------------------------------------------
  // The engine object
  // ---------------------------------------------------------------------

  class Engine {
    const graph: Graph
    const inputs: seq<RuntimeInput>
    /** Whether embedding-bag offsets end with an end offset. */
    const hasEndOffset: bool
    var shapeMap: Store
    var outputShape: seq<Shape>

    constructor(graph: Graph, inputs: seq<RuntimeInput>, hasEndOffset: bool)
      ensures this.graph == graph && this.inputs == inputs && this.hasEndOffset == hasEndOffset
      ensures shapeMap == map[] && outputShape == []
    {
      this.graph := graph;
      this.inputs := inputs;
      this.hasEndOffset := hasEndOffset;
      shapeMap := map[];
      outputShape := [];
    }

    /** The records of a node's inputs; a missing one fails a CHECK. */
    method GetNodeInputShape(node: Node) returns (r: Result<MetaStack>)
      ensures r == Lookup(shapeMap, node.inputs)
    {
      var inputMetas: MetaStack := [];
      for i := 0 to |node.inputs|
        invariant |inputMetas| == i
        invariant forall k :: 0 <= k < i ==> node.inputs[k] in shapeMap && inputMetas[k] == shapeMap[node.inputs[k]]
      {
        var input := node.inputs[i];
        if input !in shapeMap {
          return Err(InvariantViolation);
        }
        inputMetas := inputMetas + [shapeMap[input]];
      }
      assert inputMetas == Lookup(shapeMap, node.inputs).value;
      return Ok(inputMetas);
    }

    /** The dispatch of shapeOnNode. */
    method Dispatch(node: Node, ms: MetaStack) returns (r: Result<seq<seq<int>>>)
      ensures r == OpResults(node, ms, hasEndOffset)
    {
      match node.kind {
        case FusedStack =>
          var s := J.FusedStack(ms, node.dim);
          r := Single(s);
        case EmbeddingBagByteRowwiseOffsets =>
          r := Single(E.EmbeddingBagByteRowwiseOffsets(ms, hasEndOffset));
        case Constant =>
          if |node.outputs| != 1 {
            r := Err(InvariantViolation);
          } else {
            r := Ok([V.PrimConstant(node.constType, node.value, node.tensorSizes)]);
          }
        case Tanh =>
          r := if |ms| != 1 then Err(ArityError) else Ok([ms[0].shape]);
        case Relu =>
          r := if |ms| != 1 then Err(ArityError) else Ok([ms[0].shape]);
        case Sigmoid =>
          r := if |ms| != 1 then Err(ArityError) else Ok([ms[0].shape]);
        case Sub =>
          var s := B.BinaryOp(ms);
          r := Single(s);
        case Pow =>
          var s := B.BinaryOp(ms);
          r := Single(s);
        case Mul =>
          var s := B.BinaryOp(ms);
          r := Single(s);
        case Add =>
          var s := B.BinaryOp(ms);
          r := Single(s);
        case Mm =>
          r := Single(MP.Mm(ms));
        case Addmm =>
          r := Single(MP.Addmm(ms));
        case Bmm =>
          r := Single(MP.Bmm(ms));
        case FusedConcat =>
          var s := J.FusedConcat(ms, node.dim);
          r := Single(s);
        case ConstantChunk =>
          r := J.ConstantChunk(ms, node.chunks, node.dim);
        case ListConstruct =>
          var v := V.ListConstruct(ms);
          r := Single(v);
        case Slice =>
          var s := I.Slice(ms);
          r := Single(s);
        case Reshape =>
          var s := I.Reshape(ms);
          r := Single(s);
        case Permute =>
          var s := I.Permute(ms);
          r := Single(s);
        case EmbeddingBag =>
          r := Single(E.EmbeddingBag(ms, hasEndOffset));
        case Unsupported(_) =>
          r := Err(UnsupportedOperator);
      }
    }

    /** The store phase of shapeOnNode. */
    method StoreOutputs(node: Node, rs: seq<seq<int>>) returns (o: Outcome)
      requires node.kind.ConstantChunk? || |rs| == 1
      modifies this
      ensures outputShape == old(outputShape)
      ensures StoreResults(old(shapeMap), node, rs).Ok? ==> o == Pass && shapeMap == StoreResults(old(shapeMap), node, rs).value
      ensures StoreResults(old(shapeMap), node, rs).Err? ==> o == Fail(StoreResults(old(shapeMap), node, rs).error) && shapeMap == old(shapeMap)
    {
      if node.kind.Constant? {
        if |node.outputs| != 1 {
          return Fail(InvariantViolation);
        }
        if node.constType == V.TensorType {
          shapeMap := SetShape(shapeMap, node.outputs[0], rs[0]);
        } else {
          shapeMap := shapeMap[node.outputs[0] := VariableMeta([1], rs[0])];
        }
      } else if node.kind.ListConstruct? {
        if |node.outputs| != 1 {
          return Fail(InvariantViolation);
        }
        shapeMap := shapeMap[node.outputs[0] := ListMeta(rs[0])];
      } else if node.kind.EmbeddingBag? {
        if |node.outputs| == 0 {
          return Fail(InvariantViolation);
        }
        shapeMap := SetShape(shapeMap, node.outputs[0], rs[0]);
      } else {
        if |node.outputs| > |rs| {
          return Fail(UndefinedBehaviour);
        }
        for i := 0 to |node.outputs|
          invariant shapeMap == StoreAll(old(shapeMap), node.outputs[..i], rs)
          invariant outputShape == old(outputShape)
        {
          assert node.outputs[..i + 1][..i] == node.outputs[..i];
          shapeMap := SetShape(shapeMap, node.outputs[i], rs[i]);
        }
        assert node.outputs[..|node.outputs|] == node.outputs;
        assert StoreResults(old(shapeMap), node, rs) == Ok(StoreAll(old(shapeMap), node.outputs, rs));
      }
      return Pass;
    }

    /** shapeOnNode: the store changes exactly as NodeStep says, and not at all
        when the node fails. */
    method ShapeOnNode(node: Node) returns (o: Outcome)
      modifies this
      ensures outputShape == old(outputShape)
      ensures Progress(shapeMap, o) == NodeOutcome(old(shapeMap), node, hasEndOffset)
    {
      var inputMetas := GetNodeInputShape(node);
      if inputMetas.Err? {
        return Fail(inputMetas.error);
      }
      var outputShapesOrValues := Dispatch(node, inputMetas.value);
      if outputShapesOrValues.Err? {
        return Fail(outputShapesOrValues.error);
      }
      o := StoreOutputs(node, outputShapesOrValues.value);
    }

    /** getGraphIntputShape. The source's run checks the input count first. */
    method GetGraphInputShape() returns (o: Outcome)
      requires |inputs| == |graph.inputs|
      modifies this
      ensures Progress(shapeMap, o) == SeedInputs(old(shapeMap), graph.inputs, inputs)
      ensures outputShape == old(outputShape)
    {
      for i := 0 to |inputs|
        invariant SeedInputs(old(shapeMap), graph.inputs[..i], inputs[..i]) == Progress(shapeMap, Pass)
        invariant outputShape == old(outputShape)
      {
        assert graph.inputs[..i + 1][..i] == graph.inputs[..i] && inputs[..i + 1][..i] == inputs[..i];
        var gInName := graph.inputs[i];
        shapeMap := shapeMap[gInName := VariableMeta([], [])];
        match inputs[i] {
          case TensorInput(sizes) =>
            var shape: Shape := [];
            for j := 0 to |sizes|
              invariant shape == sizes[..j]
            {
              shape := shape + [sizes[j]];
            }
            assert sizes[..|sizes|] == sizes;
            shapeMap := shapeMap[gInName := VariableMeta(shape, [])];
          case BoolInput(b) =>
            shapeMap := shapeMap[gInName := VariableMeta([1], [if b then 1 else 0])];
          case IntInput(v) =>
            shapeMap := shapeMap[gInName := VariableMeta([1], [v])];
          case IntListInput(vs) =>
            shapeMap := shapeMap[gInName := VariableMeta([|vs|, 1], vs)];
          case OtherInput =>
            SeedFailureIsFinal(old(shapeMap), graph.inputs, inputs, i + 1);
            return Fail(UnsupportedInputType);
        }
      }
      assert graph.inputs[..|inputs|] == graph.inputs && inputs[..|inputs|] == inputs;
      assert SeedInputs(old(shapeMap), graph.inputs, inputs) == Progress(shapeMap, Pass);
      return Pass;
    }

    /** generateGraphOutputShape: a missing output fails a CHECK, which ends
        the process, so the shapes are appended only when all are present. */
    method GenerateGraphOutputShape() returns (o: Outcome)
      modifies this
      ensures shapeMap == old(shapeMap)
      ensures Collect(shapeMap, graph.outputs).Ok? ==> o == Pass && outputShape == old(outputShape) + Collect(shapeMap, graph.outputs).value
      ensures Collect(shapeMap, graph.outputs).Err? ==> o == Fail(InvariantViolation) && outputShape == old(outputShape)
    {
      var shapes: seq<Shape> := [];
      for i := 0 to |graph.outputs|
        invariant |shapes| == i
        invariant forall k :: 0 <= k < i ==> graph.outputs[k] in shapeMap && shapes[k] == shapeMap[graph.outputs[k]].shape
      {
        var output := graph.outputs[i];
        if output !in shapeMap {
          return Fail(InvariantViolation);
        }
        shapes := shapes + [shapeMap[output].shape];
      }
      assert shapes == Collect(shapeMap, graph.outputs).value;
      outputShape := outputShape + shapes;
      return Pass;
    }

    /** The node loop of run: shapeOnNode on each node in graph order,
        returning the first failure. */
    method ShapeOnNodes() returns (o: Outcome)
      modifies this
      ensures Progress(shapeMap, o) == RunNodes(old(shapeMap), graph.nodes, hasEndOffset)
      ensures outputShape == old(outputShape)
    {
      var nodes := graph.nodes;
      ghost var m0 := shapeMap;
      for i := 0 to |nodes|
        invariant RunNodes(m0, nodes[..i], hasEndOffset) == Progress(shapeMap, Pass)
        invariant outputShape == old(outputShape)
      {
        ghost var before := shapeMap;
        var r := ShapeOnNode(nodes[i]);
        RunNodesStep(m0, nodes, hasEndOffset, i, before);
        if r.Fail? {
          RunFailureIsFinal(m0, nodes, hasEndOffset, i + 1);
          return r;
        }
      }
      assert nodes[..|nodes|] == nodes;
      return Pass;
    }

    /** run: the new store, outcome and output list are those RunSpec gives. */
    method Run() returns (o: Outcome)
      modifies this
      ensures RunResult(shapeMap, o, outputShape) == RunSpec(old(shapeMap), old(outputShape), graph, inputs, hasEndOffset)
    {
      if |inputs| != |graph.inputs| {
        return Fail(InputCountMismatch);
      }
      o := GetGraphInputShape();
      if o.Fail? {
        return;
      }
      o := ShapeOnNodes();
      if o.Fail? {
        return;
      }
      o := GenerateGraphOutputShape();
    }
  }

  // ---------------------------------------------------------------------
  // Properties
  // ---------------------------------------------------------------------

  /** Once seeding fails on a prefix of the inputs, it ends there. */
  lemma {:induction false} SeedFailureIsFinal(m: Store, hs: seq<Handle>, xs: seq<RuntimeInput>, n: nat)
    requires |hs| == |xs| && n <= |hs| && SeedInputs(m, hs[..n], xs[..n]).outcome.Fail?
    ensures SeedInputs(m, hs, xs) == SeedInputs(m, hs[..n], xs[..n])
    decreases |hs|
  {
    if n == |hs| {
      assert hs[..n] == hs && xs[..n] == xs;
    } else {
      var k := |hs| - 1;
      assert hs[..k][..n] == hs[..n] && xs[..k][..n] == xs[..n];
      SeedFailureIsFinal(m, hs[..k], xs[..k], n);
    }
  }

  /** One more node after a prefix that passed. */
  lemma RunNodesStep(m: Store, nodes: seq<Node>, b: bool, i: nat, st: Store)
    requires i < |nodes| && RunNodes(m, nodes[..i], b) == Progress(st, Pass)
    ensures RunNodes(m, nodes[..i + 1], b) == NodeOutcome(st, nodes[i], b)
  {
    assert nodes[..i + 1][..i] == nodes[..i];
  }

  /** Once a node fails, the run ends there: later nodes neither run nor
      change the store. */
  lemma {:induction false} RunFailureIsFinal(m: Store, nodes: seq<Node>, b: bool, n: nat)
    requires n <= |nodes| && RunNodes(m, nodes[..n], b).outcome.Fail?
    ensures RunNodes(m, nodes, b) == RunNodes(m, nodes[..n], b)
    decreases |nodes|
  {
    if n == |nodes| {
      assert nodes[..n] == nodes;
    } else {
      var k := |nodes| - 1;
      var init := nodes[..k];
      assert init[..n] == nodes[..n];
      RunFailureIsFinal(m, init, b, n);
      RunNodesAfterFailure(m, nodes, b);
    }
  }

  /** A failed prefix is not extended by the next node. */
  lemma RunNodesAfterFailure(m: Store, nodes: seq<Node>, b: bool)
    requires nodes != [] && RunNodes(m, nodes[..|nodes| - 1], b).outcome.Fail?
    ensures RunNodes(m, nodes, b) == RunNodes(m, nodes[..|nodes| - 1], b)
  {
  }

  /** No value is written twice. */
  predicate Distinct(hs: seq<Handle>)
  {
    forall i, j :: 0 <= i < j < |hs| ==> hs[i] != hs[j]
  }

  /** Writing shapes under `hs` touches exactly the values in `hs`. */
  lemma {:induction false} StoreAllFrame(m: Store, hs: seq<Handle>, rs: seq<Shape>)
    requires |hs| <= |rs|
    ensures forall h :: h !in hs ==> (h in StoreAll(m, hs, rs) <==> h in m)
    ensures forall h :: h !in hs && h in m ==> StoreAll(m, hs, rs)[h] == m[h]
    ensures forall h :: h in hs ==> h in StoreAll(m, hs, rs)
  {
    if hs != [] {
      var n := |hs| - 1;
      StoreAllFrame(m, hs[..n], rs);
      assert forall h :: h in hs[..n] ==> h in hs;
      assert forall h :: h in hs ==> h in hs[..n] || h == hs[n];
    }
  }

  /** With distinct handles, the i-th handle gets the i-th shape and keeps its
      known integers. */
  lemma {:induction false} StoreAllAt(m: Store, hs: seq<Handle>, rs: seq<Shape>, i: nat)
    requires |hs| <= |rs| && i < |hs| && Distinct(hs)
    ensures hs[i] in StoreAll(m, hs, rs)
    ensures StoreAll(m, hs, rs)[hs[i]] == VariableMeta(rs[i], if hs[i] in m then m[hs[i]].intValue else [])
  {
    var n := |hs| - 1;
    var init := hs[..n];
    if i == n {
      assert hs[i] !in init;
      StoreAllFrame(m, init, rs);
    } else {
      assert hs[i] != hs[n];
      assert init[i] == hs[i];
      StoreAllAt(m, init, rs, i);
    }
  }

  /** A node that succeeds changes only the records it writes, and every one
      of those is present afterwards. An embedding bag writes its first output
      only, so later readers of its other outputs fail. */
  lemma NodeStepFrame(m: Store, node: Node, b: bool)
    requires NodeStep(m, node, b).Ok?
    ensures var m' := NodeStep(m, node, b).value;
            && (forall h :: h !in Written(node) ==> (h in m' <==> h in m))
            && (forall h :: h !in Written(node) && h in m ==> m'[h] == m[h])
            && (forall h :: h in Written(node) ==> h in m')
  {
    var ms := Lookup(m, node.inputs).value;
    var rs := OpResults(node, ms, b).value;
    if node.kind.Constant? || node.kind.ListConstruct? || node.kind.EmbeddingBag? {
      assert Written(node) == [node.outputs[0]];
    } else {
      StoreAllFrame(m, node.outputs, rs);
    }
  }

  /** Every operator but a constant, a list and an embedding bag writes its
      i-th result shape under its i-th output, in order, leaving the known
      integers of that output as they were; it needs at least as many results
      as outputs (a chunk node may name fewer outputs than chunks). */
  lemma ShapeOutputsInOrder(m: Store, node: Node, b: bool)
    requires !node.kind.Constant? && !node.kind.ListConstruct? && !node.kind.EmbeddingBag?
    requires NodeStep(m, node, b).Ok? && Distinct(node.outputs)
    ensures Lookup(m, node.inputs).Ok? && OpResults(node, Lookup(m, node.inputs).value, b).Ok?
    ensures var rs := OpResults(node, Lookup(m, node.inputs).value, b).value;
            && |node.outputs| <= |rs|
            && NodeStep(m, node, b).value == StoreAll(m, node.outputs, rs)
            && (forall i :: 0 <= i < |node.outputs| ==> node.outputs[i] in NodeStep(m, node, b).value)
            && forall i :: 0 <= i < |node.outputs| ==>
                 NodeStep(m, node, b).value[node.outputs[i]]
                 == VariableMeta(rs[i], if node.outputs[i] in m then m[node.outputs[i]].intValue else [])
  {
    var rs := OpResults(node, Lookup(m, node.inputs).value, b).value;
    StoreAllFrame(m, node.outputs, rs);
    forall i | 0 <= i < |node.outputs|
      ensures NodeStep(m, node, b).value[node.outputs[i]]
              == VariableMeta(rs[i], if node.outputs[i] in m then m[node.outputs[i]].intValue else [])
    {
      StoreAllAt(m, node.outputs, rs, i);
    }
  }

  /** tanh, relu and sigmoid take one input and give their output its shape. */
  lemma UnaryOpCopiesShape(m: Store, node: Node, b: bool)
    requires node.kind.Tanh? || node.kind.Relu? || node.kind.Sigmoid?
    requires NodeStep(m, node, b).Ok?
    ensures |node.inputs| == 1 && node.inputs[0] in m && |node.outputs| <= 1
    ensures forall y :: y in node.outputs ==> NodeStep(m, node, b).value[y].shape == m[node.inputs[0]].shape
  {
    if |node.outputs| == 1 {
      ShapeOutputsInOrder(m, node, b);
      assert forall y :: y in node.outputs ==> y == node.outputs[0];
    }
  }

  /** add, sub, mul and pow use the intended broadcast. Wherever the source's
      loop stays in bounds they give what the source gives; where it reads
      before the start of the second shape, they still yield a shape. */
  lemma BinaryNodeAgreesWithSource(node: Node, ms: MetaStack, b: bool)
    requires node.kind.Add? || node.kind.Sub? || node.kind.Mul? || node.kind.Pow?
    ensures B.BinaryOpAsWritten(ms) != Err(UndefinedBehaviour) ==> OpResults(node, ms, b) == Single(B.BinaryOpAsWritten(ms))
    ensures B.BinaryOpAsWritten(ms) == Err(UndefinedBehaviour) ==> OpResults(node, ms, b).Ok?
  {
    B.AsWrittenAgreesUnlessUndefined(ms);
    if B.BinaryOpAsWritten(ms) == Err(UndefinedBehaviour) {
      B.UndefinedOnlyWhereIntendedSucceeds(ms);
    }
  }

  /** ConstantChunk writes the i-th chunk's shape under its i-th output. */
  lemma ChunkOutputsInOrder(m: Store, node: Node, b: bool)
    requires node.kind.ConstantChunk? && NodeStep(m, node, b).Ok? && Distinct(node.outputs)
    ensures Lookup(m, node.inputs).Ok?
    ensures var chunks := J.ConstantChunkSpec(Lookup(m, node.inputs).value, node.chunks, node.dim);
            && chunks.Ok? && |node.outputs| <= |chunks.value|
            && (forall i :: 0 <= i < |node.outputs| ==> node.outputs[i] in NodeStep(m, node, b).value)
            && forall i :: 0 <= i < |node.outputs| ==> NodeStep(m, node, b).value[node.outputs[i]].shape == chunks.value[i]
  {
    var ms := Lookup(m, node.inputs).value;
    ChunkResults(node, ms, b);
    ShapeOutputsInOrder(m, node, b);
    var rs := OpResults(node, ms, b).value;
    var m' := NodeStep(m, node, b).value;
    assert forall i :: 0 <= i < |node.outputs| ==> m'[node.outputs[i]].shape == rs[i];
  }

  lemma ChunkResults(node: Node, ms: MetaStack, b: bool)
    requires node.kind.ConstantChunk?
    ensures OpResults(node, ms, b) == J.ConstantChunkSpec(ms, node.chunks, node.dim)
  {
  }

  /** A constant has one output. A tensor constant sets its shape to the
      tensor's sizes; an int or bool constant becomes the record of that
      scalar; a float is recorded as the scalar 1; None and other types as a
      shape [1] with no known integer. */
  lemma ConstantRecords(m: Store, node: Node, b: bool)
    requires node.kind.Constant? && NodeStep(m, node, b).Ok?
    ensures |node.outputs| == 1
    ensures var out, rec := node.outputs[0], NodeStep(m, node, b).value[node.outputs[0]];
            match node.constType
            case TensorType => rec.shape == node.tensorSizes
            case IntType => rec == ScalarMeta(node.value)
            case BoolType => rec == ScalarMeta(node.value)
            case FloatType => rec == ScalarMeta(1)
            case NoneType => rec == VariableMeta([1], [])
            case OtherType => rec == VariableMeta([1], [])
  {
  }

  /** A list construct has one output, recorded as the list of its inputs'
      known scalars with shape [n, 1]; it succeeds only when every input is a
      known scalar. */
  lemma ListConstructRecords(m: Store, node: Node, b: bool)
    requires node.kind.ListConstruct? && NodeStep(m, node, b).Ok?
    ensures |node.outputs| == 1 && |node.inputs| >= 1
    ensures forall i :: 0 <= i < |node.inputs| ==> node.inputs[i] in m && |m[node.inputs[i]].shape| == 1 && m[node.inputs[i]].intValue != []
    ensures var rec := NodeStep(m, node, b).value[node.outputs[0]];
            && rec.shape == [|node.inputs|, 1] && |rec.intValue| == |node.inputs|
            && forall i :: 0 <= i < |node.inputs| ==> rec.intValue[i] == m[node.inputs[i]].intValue[0]
  {
    var ms := Lookup(m, node.inputs).value;
    V.ListValuesOk(ms);
    assert forall i :: 0 <= i < |ms| ==> V.ElementCheck(ms[i]) == Pass;
  }

  /** An operator without a shape function fails its node: with
      UnsupportedOperator when its inputs are recorded. */
  lemma UnsupportedNodeFails(m: Store, node: Node, b: bool)
    requires node.kind.Unsupported?
    ensures NodeStep(m, node, b) == Err(if Lookup(m, node.inputs).Ok? then UnsupportedOperator else InvariantViolation)
  {
  }

  /** Seeding succeeds exactly when every runtime input is of a supported
      kind, and otherwise fails with UnsupportedInputType. */
  lemma {:induction false} SeedInputsOutcome(m: Store, hs: seq<Handle>, xs: seq<RuntimeInput>)
    requires |hs| == |xs|
    ensures SeedInputs(m, hs, xs).outcome == Pass <==> forall i :: 0 <= i < |xs| ==> !xs[i].OtherInput?
    ensures SeedInputs(m, hs, xs).outcome != Pass ==> SeedInputs(m, hs, xs).outcome == Fail(UnsupportedInputType)
  {
    if hs != [] {
      var n := |hs| - 1;
      SeedInputsOutcome(m, hs[..n], xs[..n]);
      assert forall i :: 0 <= i < n ==> xs[..n][i] == xs[i];
    }
  }

  /** Seeding after a prefix that passed, one input further. */
  lemma SeedInputsStep(m: Store, hs: seq<Handle>, xs: seq<RuntimeInput>)
    requires |hs| == |xs| && hs != [] && SeedInputs(m, hs, xs).outcome == Pass
    ensures var n := |hs| - 1;
            && SeedInputs(m, hs[..n], xs[..n]).outcome == Pass && SeedRecord(xs[n]).Ok?
            && SeedInputs(m, hs, xs).store == SeedInputs(m, hs[..n], xs[..n]).store[hs[n] := SeedRecord(xs[n]).value]
  {
  }

  /** After successful seeding each distinct graph input holds its runtime
      input's record. */
  lemma {:induction false} SeedInputsRecords(m: Store, hs: seq<Handle>, xs: seq<RuntimeInput>)
    requires |hs| == |xs| && Distinct(hs) && SeedInputs(m, hs, xs).outcome == Pass
    ensures forall i :: 0 <= i < |xs| ==> SeedRecord(xs[i]).Ok?
    ensures forall i :: 0 <= i < |hs| ==> hs[i] in SeedInputs(m, hs, xs).store
    ensures forall i :: 0 <= i < |hs| ==> SeedInputs(m, hs, xs).store[hs[i]] == SeedRecord(xs[i]).value
  {
    if hs != [] {
      var n := |hs| - 1;
      var hs', xs' := hs[..n], xs[..n];
      SeedInputsStep(m, hs, xs);
      SeedInputsRecords(m, hs', xs');
      var st := SeedInputs(m, hs, xs).store;
      var st' := SeedInputs(m, hs', xs').store;
      forall i | 0 <= i < |hs|
        ensures SeedRecord(xs[i]).Ok? && hs[i] in st && st[hs[i]] == SeedRecord(xs[i]).value
      {
        if i < n {
          assert hs'[i] == hs[i] && xs'[i] == xs[i] && hs[i] != hs[n];
        }
      }
    }
  }

  /** Seeding changes no record other than those of the graph inputs. */
  lemma {:induction false} SeedInputsFrame(m: Store, hs: seq<Handle>, xs: seq<RuntimeInput>, h: Handle)
    requires |hs| == |xs| && SeedInputs(m, hs, xs).outcome == Pass && h !in hs
    ensures h in SeedInputs(m, hs, xs).store <==> h in m
    ensures h in m ==> SeedInputs(m, hs, xs).store[h] == m[h]
  {
    if hs != [] {
      var n := |hs| - 1;
      SeedInputsStep(m, hs, xs);
      assert h !in hs[..n] by {
        assert forall k :: 0 <= k < n ==> hs[..n][k] == hs[k];
      }
      SeedInputsFrame(m, hs[..n], xs[..n], h);
    }
  }

  /** A run appends the graph output shapes, in graph-output order, exactly
      when it succeeds; a failed run leaves the output list as it was. */
  lemma RunAppendsOutputsOnSuccess(m: Store, shapes: seq<Shape>, g: Graph, xs: seq<RuntimeInput>, b: bool)
    ensures var r := RunSpec(m, shapes, g, xs, b);
            && (r.outcome.Fail? ==> r.shapes == shapes)
            && (r.outcome == Pass ==>
                  && |r.shapes| == |shapes| + |g.outputs| && r.shapes[..|shapes|] == shapes
                  && forall i :: 0 <= i < |g.outputs| ==>
                       g.outputs[i] in r.store && r.shapes[|shapes| + i] == r.store[g.outputs[i]].shape)
  {
    var r := RunSpec(m, shapes, g, xs, b);
    if r.outcome == Pass {
      assert r.shapes[..|shapes|] == shapes;
    }
  }

  /** A node without a shape function stops the run: the nodes after it never
      run and the store is the one left by the nodes before it. */
  lemma RunStopsAtUnsupported(m: Store, nodes: seq<Node>, b: bool, k: nat)
    requires k < |nodes| && nodes[k].kind.Unsupported? && RunNodes(m, nodes[..k], b).outcome == Pass
    ensures RunNodes(m, nodes, b).outcome.Fail?
    ensures RunNodes(m, nodes, b).store == RunNodes(m, nodes[..k], b).store
  {
    assert nodes[..k + 1][..k] == nodes[..k];
    UnsupportedNodeFails(RunNodes(m, nodes[..k], b).store, nodes[k], b);
    RunFailureIsFinal(m, nodes, b, k + 1);
  }

  /** A node without attributes. */
  function Op(kind: OpKind, ins: seq<Handle>, outs: seq<Handle>): Node
  {
    Node(kind, ins, outs, 0, 0, V.OtherType, 0, [])
  }

  /** An int constant. */
  function IntConstant(v: int, out: Handle): Node
  {
    Node(Constant, [], [out], 0, 0, V.IntType, v, [])
  }

  /** y = reshape(relu(x), [-1, 5]) with the list built from two constants. */
  function ExampleGraph(): Graph
  {
    Graph([0],
          [Op(Relu, [0], [1]), IntConstant(-1, 2), IntConstant(5, 3),
           Op(ListConstruct, [2, 3], [4]), Op(Reshape, [1, 4], [5])],
          [5])
  }

  /** The store after seeding the example graph and running its first k nodes. */
  function ExampleStore(k: nat): Store
  {
    if k == 0 then map[0 := TensorMeta([1, 10])]
    else if k == 1 then ExampleStore(0)[1 := TensorMeta([1, 10])]
    else if k == 2 then ExampleStore(1)[2 := ScalarMeta(-1)]
    else if k == 3 then ExampleStore(2)[3 := ScalarMeta(5)]
    else if k == 4 then ExampleStore(3)[4 := ListMeta([-1, 5])]
    else ExampleStore(4)[5 := TensorMeta([2, 5])]
  }

  lemma ExampleSeed()
    ensures SeedInputs(map[], ExampleGraph().inputs, [TensorInput([1, 10])]) == Progress(ExampleStore(0), Pass)
  {
    assert [0][..0] == [] && [TensorInput([1, 10])][..0] == [];
  }

  lemma ExampleRelu()
    ensures NodeStep(ExampleStore(0), ExampleGraph().nodes[0], true) == Ok(ExampleStore(1))
  {
    var m := ExampleStore(0);
    assert Lookup(m, [0]).value == [TensorMeta([1, 10])];
  }

  lemma ExampleConstants()
    ensures NodeStep(ExampleStore(1), ExampleGraph().nodes[1], true) == Ok(ExampleStore(2))
    ensures NodeStep(ExampleStore(2), ExampleGraph().nodes[2], true) == Ok(ExampleStore(3))
  {
    assert Lookup(ExampleStore(1), []) == Ok([]);
    assert Lookup(ExampleStore(2), []) == Ok([]);
  }

  lemma ExampleList()
    ensures NodeStep(ExampleStore(3), ExampleGraph().nodes[3], true) == Ok(ExampleStore(4))
  {
    var m := ExampleStore(3);
    assert 2 in m && m[2] == ScalarMeta(-1) && 3 in m && m[3] == ScalarMeta(5);
    var scalars := [ScalarMeta(-1), ScalarMeta(5)];
    var r := Lookup(m, [2, 3]).value;
    assert r[0] == scalars[0] && r[1] == scalars[1];
    assert r == scalars;
    V.ListOfScalars([-1, 5]);
    assert seq(2, i requires 0 <= i < 2 => ScalarMeta([-1, 5][i])) == scalars;
  }

  lemma ExampleReshapeInputs()
    ensures Lookup(ExampleStore(4), [1, 4]) == Ok([TensorMeta([1, 10]), ListMeta([-1, 5])])
  {
    var m := ExampleStore(4);
    assert 1 in m && m[1] == TensorMeta([1, 10]) && 4 in m && m[4] == ListMeta([-1, 5]);
    var ins := [TensorMeta([1, 10]), ListMeta([-1, 5])];
    var r := Lookup(m, [1, 4]).value;
    assert r[0] == ins[0] && r[1] == ins[1];
    assert r == ins;
  }

  lemma ExampleReshape()
    ensures NodeStep(ExampleStore(4), ExampleGraph().nodes[4], true) == Ok(ExampleStore(5))
  {
    var m := ExampleStore(4);
    var node := ExampleGraph().nodes[4];
    var ins := [TensorMeta([1, 10]), ListMeta([-1, 5])];
    ExampleReshapeInputs();
    I.ReshapeExamples();
    assert OpResults(node, ins, true) == Ok([[2, 5]]);
    assert 5 !in m;
    assert StoreResults(m, node, [[2, 5]]) == Ok(StoreAll(m, [5], [[2, 5]]));
    assert [5][..0] == [];
    assert StoreAll(m, [5], [[2, 5]]) == SetShape(m, 5, [2, 5]);
  }

  /** Node k of the example takes ExampleStore(k) to ExampleStore(k + 1). */
  lemma ExampleStep(k: nat)
    requires k < 5
    ensures NodeOutcome(ExampleStore(k), ExampleGraph().nodes[k], true) == Progress(ExampleStore(k + 1), Pass)
  {
    if k == 0 {
      ExampleRelu();
    } else if k <= 2 {
      ExampleConstants();
    } else if k == 3 {
      ExampleList();
    } else {
      ExampleReshape();
    }
  }

  /** The example's first k nodes take the seeded store to ExampleStore(k). */
  lemma {:induction false} ExamplePrefix(k: nat)
    requires k <= 5
    ensures RunNodes(ExampleStore(0), ExampleGraph().nodes[..k], true) == Progress(ExampleStore(k), Pass)
  {
    if k == 0 {
      assert ExampleGraph().nodes[..0] == [];
    } else {
      ExamplePrefix(k - 1);
      ExampleStep(k - 1);
      RunNodesStep(ExampleStore(0), ExampleGraph().nodes, true, k - 1, ExampleStore(k - 1));
    }
  }

  lemma ExampleCollect()
    ensures Collect(ExampleStore(5), [5]) == Ok([[2, 5]])
  {
    var s5 := ExampleStore(5);
    assert 5 in s5 && s5[5].shape == [2, 5];
    var r := Lookup(s5, [5]).value;
    assert r[0] == s5[5];
    assert r == [s5[5]];
    var ss := Shapes(r);
    assert ss[0] == [2, 5];
    assert ss == [[2, 5]];
  }

  /** The run of a graph whose three phases all pass. */
  lemma RunSpecPasses(m: Store, shapes: seq<Shape>, g: Graph, xs: seq<RuntimeInput>, b: bool, seeded: Store, ran: Store, ss: seq<Shape>)
    requires |xs| == |g.inputs| && SeedInputs(m, g.inputs, xs) == Progress(seeded, Pass)
    requires RunNodes(seeded, g.nodes, b) == Progress(ran, Pass) && Collect(ran, g.outputs) == Ok(ss)
    ensures RunSpec(m, shapes, g, xs, b) == RunResult(ran, Pass, shapes + ss)
  {
  }

  /** Running the example graph on a [1, 10] tensor yields one output of shape [2, 5]. */
  lemma RunExample()
    ensures RunSpec(map[], [], ExampleGraph(), [TensorInput([1, 10])], true).outcome == Pass
    ensures RunSpec(map[], [], ExampleGraph(), [TensorInput([1, 10])], true).shapes == [[2, 5]]
  {
    var g := ExampleGraph();
    ExampleSeed();
    ExamplePrefix(5);
    assert g.nodes[..5] == g.nodes;
    var s5 := ExampleStore(5);
    ExampleCollect();
    RunSpecPasses(map[], [], g, [TensorInput([1, 10])], true, ExampleStore(0), s5, [[2, 5]]);
  }
}
