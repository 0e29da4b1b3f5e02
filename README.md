# Shape inference for TorchScript graphs (torch_glow)

This project models the shape-inference engine of torch_glow
(`torch_glow/src/ShapeInferenceEngine.cpp`) in Dafny and proves properties of
the model.

The engine is built over a TorchScript graph and the runtime values of its
inputs. It keeps a map from each graph value to a `VariableMeta` record. A
record holds the value's shape and, for scalars and integer lists, the integers
known at inference time. `run` works in four steps:

1. It checks that the input count matches the graph.
2. It seeds the records of the graph inputs from the runtime values.
3. It calls a shape function for each node, in graph order, and stores the
   results under the node's outputs. It stops at the first error.
4. It appends the shapes of the graph outputs to `outputShape`.

The shape functions cover:

- constants
- tanh, relu and sigmoid
- the broadcasting binary operators
- mm, bmm and addmm
- constant chunking, fused concatenation and fused stacking
- list construction
- slice, reshape and permute
- the two embedding-bag operators

Modules, one per file:

- `Metadata` (`metadata.dfy`): shapes, `VariableMeta`, `ErrorKind`, `Result`
  and `Outcome`, element counts (`Product`) and sums along a dimension (`SumAt`).
- `CppArith` (`cpp_arith.dfy`): C++ `/` and `%`, which truncate toward zero.
  Dafny's own operators are Euclidean.
- `Broadcasting` (`broadcasting.dfy`): `binaryOp`.
- `MatrixProducts` (`matrix_products.dfy`): `mm`, `bmm` and `addmm`.
- `Joining` (`joining.dfy`): `constantChunk`, `fusedConcat` and `fusedStack`.
- `Indexing` (`indexing.dfy`): `slice`, `reshape` and `permute`.
- `Values` (`values.dfy`): `primConstant` and `listConstruct`.
- `EmbeddingBags` (`embedding_bags.dfy`): `embeddingBag` and
  `embeddingBagByteRowwiseOffsets`.
- `ShapeEngine` (`engine.dfy`): graphs, nodes, the store and the `Engine`
  class. The class's `shapeMap` and `outputShape` fields are updated in place
  by its methods.

How the source maps to Dafny:

- **Loops become methods.** Each shape function that loops is a method. Its
  `ensures` ties the result to a declarative function (`XSpec`), and the
  properties are proved as lemmas about that function. The loop-free shape
  functions are functions.
- **Source errors become `ErrorKind` values.** The source reports every error
  as a message. The model keeps only a category of its own choosing, such as
  `ArityError`, `ShapeMismatch`, `RangeError`, `NotScalar` or
  `UndeterminedDimension`.
- **`UndefinedBehaviour`** marks the places where the C++ code reads a vector
  out of bounds or divides by zero. The model returns this error there, with
  one exception: the out-of-bounds read in `binaryOp`'s loop (see
  "## Findings") is reported only by `Broadcasting.BinaryOpAsWritten`. The
  engine uses the corrected broadcast, which gives a shape on those inputs.
- **`InvariantViolation`** marks a failed `CHECK`, torch's assertion that a
  node has exactly one output, and the read of `node->output(0)` on an
  embedding-bag node that has no outputs. The `CHECK`s abort the process;
  the other two throw, and the exception leaves `run`.

Quirks of the code that the model keeps:

- A `None` constant is stored with shape `[1]` and no integers. A float
  constant is stored as the scalar 1, whatever its value.
- `addmm` tests the rank of mat2, not of the bias, and treats a rank-1 mat2
  as standing for mat1. PyTorch's `addmm` refuses a mat2 that is not a
  matrix.
- `slice` does not normalise `dim`: a negative `dim` reads the shape out of
  bounds. PyTorch's slice counts a negative `dim` from the end.
- `reshape` multiplies the `-1` placeholder into the target product and
  negates the quotient. So `reshape([2,6], [-1,4])` gives `[3, 4]`, as in
  PyTorch. A target without a placeholder, however, is accepted whenever the
  target's element count divides the input's. PyTorch's `reshape` demands
  equal element counts.
- The byte-rowwise embedding bag does not look at the rank of the indices,
  while the float embedding bag refuses indices that are not 1-D or 2-D.

## Model

| member | source | states |
|---|---|---|
| CppArith.Div | torch_glow/src/ShapeInferenceEngine.cpp:420 | The C++ quotient: the remainder is smaller than the divisor in magnitude and is zero or has the dividend's sign |
| CppArith.RemZeroIsExact | torch_glow/src/ShapeInferenceEngine.cpp:561 | A zero C++ remainder is exactly divisibility, and then the quotient times the divisor gives back the dividend |
| CppArith.DivRemOfNonNegative | torch_glow/src/ShapeInferenceEngine.cpp:523-524 | On a non-negative dividend and positive divisor C++ and Euclidean division agree |
| CppArith.DivNegate | torch_glow/src/ShapeInferenceEngine.cpp:566 | Negating the dividend negates the C++ quotient and remainder |
| Broadcasting.BinaryOp | torch_glow/src/ShapeInferenceEngine.cpp:271-310 | The loop computes BinaryOpSpec: two or three inputs, a rank-1 second operand returns the first shape, otherwise right-aligned broadcasting with ShapeMismatch on a clash |
| Broadcasting.BroadcastSizes | torch_glow/src/ShapeInferenceEngine.cpp:289-308 | Broadcasting fails exactly when two aligned sizes are both not 1 and differ; otherwise the result has the larger rank, takes the other side where one side is missing or 1, and agrees with both sides elsewhere |
| Broadcasting.BroadcastCommutes | torch_glow/src/ShapeInferenceEngine.cpp:292-308 | With neither operand of rank 1, swapping the operands gives the same result |
| Broadcasting.BroadcastAbsorbs | torch_glow/src/ShapeInferenceEngine.cpp:292-308 | An operand of no larger rank whose sizes are 1 or equal to the other's leaves the other shape as the result |
| Broadcasting.AsWrittenAgreesUnlessUndefined | torch_glow/src/ShapeInferenceEngine.cpp:292-308 | Wherever the loop as written does not read out of bounds, it returns the intended broadcast |
| Broadcasting.UndefinedOnlyWhereIntendedSucceeds | torch_glow/src/ShapeInferenceEngine.cpp:292-308 | Wherever the loop as written reads out of bounds, the intended broadcast succeeds |
| Broadcasting.AsWrittenReadsOutOfBounds | torch_glow/src/ShapeInferenceEngine.cpp:294-295 | On [1, 2, 3] and [2, 3] the loop as written reads before the start of the second shape, where [1, 2, 3] is intended |
| MatrixProducts.Mm | torch_glow/src/ShapeInferenceEngine.cpp:316-338 | Two inputs are required; the result is [m, n] exactly when both are rank 2 with matching inner sizes, and ShapeMismatch otherwise |
| MatrixProducts.Bmm | torch_glow/src/ShapeInferenceEngine.cpp:344-369 | Two inputs are required; the result is [b, m, n] exactly when both are rank 3 with equal batch and matching inner sizes |
| MatrixProducts.Addmm | torch_glow/src/ShapeInferenceEngine.cpp:376-397 | At least three inputs are required; with mat2 not of rank 1, an mm failure is the result |
| MatrixProducts.AddmmOfProduct | torch_glow/src/ShapeInferenceEngine.cpp:389-396 | With mat2 not of rank 1 and a defined product [m, n], the result is the bias broadcast against [m, n]: it fails, with ShapeMismatch, exactly when an aligned size of the bias is neither 1 nor the product's, and otherwise has rank max(rank of bias, 2) |
| MatrixProducts.AddmmAgreesWithSource | torch_glow/src/ShapeInferenceEngine.cpp:376-397 | addmm gives what the source's addmm gives wherever the source's broadcasting loop stays in bounds, and a shape where it does not |
| MatrixProducts.AddmmAsWrittenReadsOutOfBounds | torch_glow/src/ShapeInferenceEngine.cpp:396 | A bias [1, 2, 5] against [2, 4]·[4, 5] makes the source's loop read before the start of the product's shape, where [1, 2, 5] is intended |
| MatrixProducts.AddmmExamples | torch_glow/src/ShapeInferenceEngine.cpp:376-397 | A bias [3, 5] against [2, 4]·[4, 5] gives ShapeMismatch; a bias [7, 1, 5] widens the result to [7, 2, 5] |
| MatrixProducts.BmmIsBatchedMm | torch_glow/src/ShapeInferenceEngine.cpp:344-369 | bmm succeeds exactly when the batch sizes agree and mm of the trailing matrices succeeds, and is that product with the batch size in front |
| MatrixProducts.MmAssociates | torch_glow/src/ShapeInferenceEngine.cpp:316-338 | The shape of a chain of two products does not depend on which product is formed first |
| MatrixProducts.AddmmOfMatrices | torch_glow/src/ShapeInferenceEngine.cpp:389-396 | A bias of rank at most 2 whose sizes are 1 or those of the product gives the product's shape [m, n] |
| MatrixProducts.AddmmRankOneMat2 | torch_glow/src/ShapeInferenceEngine.cpp:389-390 | When mat2 has rank 1 the bias is broadcast against mat1's shape |
| Joining.ConstantChunk | torch_glow/src/ShapeInferenceEngine.cpp:403-431 | The loop computes ConstantChunkSpec: one input, a normalised in-range dimension, a zero count is undefined, `chunks` copies of the shape with ceiling-size chunks and the remainder last |
| Joining.ChunksPartitionDim | torch_glow/src/ShapeInferenceEngine.cpp:418-430 | A positive count gives exactly that many shapes, equal to the input off the dimension, whose sizes at the dimension add up to the input's |
| Joining.ChunkSizeIsCeiling | torch_glow/src/ShapeInferenceEngine.cpp:420-421 | On a non-negative size the chunk size is the rounded-up quotient and the last chunk is no larger |
| Joining.ChunkCanGoNegative | torch_glow/src/ShapeInferenceEngine.cpp:420-426 | Five elements in four chunks give chunks 2, 2, 2 and a last chunk of -1 |
| Joining.FusedConcat | torch_glow/src/ShapeInferenceEngine.cpp:437-472 | The loop computes FusedConcatSpec: at least one input, one passes through, a normalised in-range dimension, ShapeMismatch unless all ranks and off-dimension sizes agree, and the sizes at the dimension are summed |
| Joining.AddAlongDim | torch_glow/src/ShapeInferenceEngine.cpp:460-469 | The inner loop adds the next input's size at the dimension when every other size agrees, and fails with ShapeMismatch otherwise |
| Joining.ConcatSizes | torch_glow/src/ShapeInferenceEngine.cpp:448-471 | A successful concatenation keeps every input's size off the dimension and holds the sum of the inputs' sizes at it |
| Joining.FusedStack | torch_glow/src/ShapeInferenceEngine.cpp:626-654 | The loop computes FusedStackSpec: at least one input, one passes through, a position normalised against rank + 1, ShapeMismatch unless all shapes are equal, and the input count inserted at the position |
| Joining.StackInsertsCount | torch_glow/src/ShapeInferenceEngine.cpp:645-653 | The inserted size is the input count, and removing it gives back every input's shape |
| Joining.StackIsConcatOfUnsqueezed | torch_glow/src/ShapeInferenceEngine.cpp:437-472 | Stacking n equal shapes at d equals concatenating them at d after giving each a size-1 dimension there |
| Indexing.SliceSpec | torch_glow/src/ShapeInferenceEngine.cpp:478-528 | A successful slice takes five inputs, reads an in-range dim, and leaves every other size unchanged |
| Indexing.Slice | torch_glow/src/ShapeInferenceEngine.cpp:478-528 | The method computes SliceSpec, including the clamping of start and end and the truncating division with round-up |
| Indexing.SliceExtentIsStridedCount | torch_glow/src/ShapeInferenceEngine.cpp:499-527 | For a positive step the slice length is the number of indices Python slicing keeps between the clamped bounds, and lies between 0 and the size |
| Indexing.CountStridedIsCeiling | torch_glow/src/ShapeInferenceEngine.cpp:523-526 | Counting the kept indices one by one gives the ceiling of length over step |
| Indexing.SliceExample | torch_glow/src/ShapeInferenceEngine.cpp:478-528 | Slicing [10] from 2 to 8 by 2 gives [3]; a start past the end gives [0]; a start of -3 gives [3] |
| Indexing.ReshapeSpec | torch_glow/src/ShapeInferenceEngine.cpp:534-569 | A successful reshape takes two inputs, has the target's length, and keeps every entry of the target that is not -1 |
| Indexing.Reshape | torch_glow/src/ShapeInferenceEngine.cpp:534-569 | The two loops compute ReshapeSpec, including the refusal of a second placeholder and the divisibility check |
| Indexing.ReshapeKeepsElementCount | torch_glow/src/ShapeInferenceEngine.cpp:561-567 | With a placeholder, the result has exactly the input's element count |
| Indexing.ReshapeChecksOnlyDivisibility | torch_glow/src/ShapeInferenceEngine.cpp:561-568 | Without a placeholder, [2, 6] reshaped to [2, 3] is accepted although the counts differ |
| Indexing.ReshapeExamples | torch_glow/src/ShapeInferenceEngine.cpp:534-569 | [2, 6] to [-1, 4] is [3, 4]; two placeholders give UndeterminedDimension; [1, 10] to [-1, 5] is [2, 5] |
| Indexing.PermuteSpec | torch_glow/src/ShapeInferenceEngine.cpp:575-599 | Permute succeeds exactly when there are two inputs, the permutation has the input's rank and every entry indexes a dimension |
| Indexing.Permute | torch_glow/src/ShapeInferenceEngine.cpp:575-599 | The loop computes PermuteSpec: dimension i of the result is dimension p[i] of the input |
| Indexing.PermuteComposes | torch_glow/src/ShapeInferenceEngine.cpp:588-598 | Permuting by p and then by q is permuting once by their composite |
| Indexing.PermuteRoundTrip | torch_glow/src/ShapeInferenceEngine.cpp:588-598 | Permuting by p and then by an inverse of p restores the shape |
| Indexing.PermuteIdentity | torch_glow/src/ShapeInferenceEngine.cpp:588-598 | The identity permutation leaves the shape unchanged |
| Indexing.PermuteExamples | torch_glow/src/ShapeInferenceEngine.cpp:575-599 | [2, 3, 4] permuted by [2, 0, 1] is [4, 2, 3]; a negative entry gives RangeError |
| Values.PrimConstant | torch_glow/src/ShapeInferenceEngine.cpp:240-263 | A tensor constant gives its sizes; an int or bool gives its value alone; a float gives [1]; None and every other type give [] |
| Values.ListConstruct | torch_glow/src/ShapeInferenceEngine.cpp:606-620 | The loop computes ListConstructSpec: at least one input, and the first element that is not a known scalar decides the error |
| Values.ListValuesOk | torch_glow/src/ShapeInferenceEngine.cpp:613-619 | The list succeeds exactly when every element is a known scalar, and then holds their values in order |
| Values.ListValuesFirstError | torch_glow/src/ShapeInferenceEngine.cpp:614-618 | A failing list reports the error of its first bad element |
| Values.ErrorInPrefixIsFinal | torch_glow/src/ShapeInferenceEngine.cpp:614-618 | Once a prefix of the elements fails, the whole list fails with the same error |
| Values.ListOfScalars | torch_glow/src/ShapeInferenceEngine.cpp:606-620 | Listing the records of known scalars gives back the scalars; an empty list is refused |
| EmbeddingBags.EmbeddingBag | torch_glow/src/ShapeInferenceEngine.cpp:670-691 | Eight inputs are required; the result is [bags, width] exactly when the indices are 2-D, or 1-D with 1-D offsets, and the weight has rank 2 or more; other index ranks give RangeError |
| EmbeddingBags.EmbeddingBagByteRowwiseOffsets | torch_glow/src/ShapeInferenceEngine.cpp:705-719 | Eight inputs are required; the result is the offset count less the end offset, and the row width less 8 |
| EmbeddingBags.ByteRowwiseMatchesFloatBags | torch_glow/src/ShapeInferenceEngine.cpp:683-684 | On 1-D indices and offsets both operators count the same bags, and the quantised rows are 8 wider |
| EmbeddingBags.EndOffsetCountsBags | torch_glow/src/ShapeInferenceEngine.cpp:683-684 | n + 1 offsets give n bags with an end offset and n + 1 without |
| ShapeEngine.Lookup | torch_glow/src/ShapeInferenceEngine.cpp:20-27 | Looking up inputs succeeds exactly when all are recorded, and then yields their records in order |
| ShapeEngine.OpResults | torch_glow/src/ShapeInferenceEngine.cpp:44-129 | Every operator but ConstantChunk yields exactly one shape or value |
| ShapeEngine.Engine.constructor | torch_glow/src/ShapeInferenceEngine.cpp:16-18 | The engine holds the graph and inputs, with an empty store and output list |
| ShapeEngine.Engine.GetNodeInputShape | torch_glow/src/ShapeInferenceEngine.cpp:20-27 | The loop returns Lookup of the node's inputs, failing on a missing one |
| ShapeEngine.Engine.Dispatch | torch_glow/src/ShapeInferenceEngine.cpp:48-129 | The dispatch calls each operator's method and returns OpResults |
| ShapeEngine.Engine.StoreOutputs | torch_glow/src/ShapeInferenceEngine.cpp:143-161 | The store becomes StoreResults on success and is unchanged on failure; the output list is unchanged |
| ShapeEngine.Engine.ShapeOnNode | torch_glow/src/ShapeInferenceEngine.cpp:33-162 | The store and outcome are NodeOutcome: the node's records are written on success and nothing changes on failure |
| ShapeEngine.Engine.GetGraphInputShape | torch_glow/src/ShapeInferenceEngine.cpp:198-222 | The store and outcome are SeedInputs of the graph inputs and runtime values |
| ShapeEngine.Engine.GenerateGraphOutputShape | torch_glow/src/ShapeInferenceEngine.cpp:224-230 | The output shapes are appended in graph-output order when all are recorded; a missing one fails and appends nothing |
| ShapeEngine.Engine.ShapeOnNodes | torch_glow/src/ShapeInferenceEngine.cpp:173-176 | The store and outcome are RunNodes: the nodes in order, up to the first failure |
| ShapeEngine.Engine.Run | torch_glow/src/ShapeInferenceEngine.cpp:164-181 | The store, outcome and output list are those RunSpec gives |
| ShapeEngine.RunFailureIsFinal | torch_glow/src/ShapeInferenceEngine.cpp:174-176 | Once a node fails, the later nodes do not run and the store stays as it was |
| ShapeEngine.SeedFailureIsFinal | torch_glow/src/ShapeInferenceEngine.cpp:199-220 | Once an input is refused, seeding stops there |
| ShapeEngine.StoreAllFrame | torch_glow/src/ShapeInferenceEngine.cpp:157-159 | Storing shapes under outputs changes no other record, and every output is recorded afterwards |
| ShapeEngine.StoreAllAt | torch_glow/src/ShapeInferenceEngine.cpp:157-159 | With distinct outputs, the i-th output gets the i-th shape and keeps its known integers |
| ShapeEngine.NodeStepFrame | torch_glow/src/ShapeInferenceEngine.cpp:143-160 | A successful node changes only the records it writes, and all of those exist afterwards; an embedding bag writes only its first output |
| ShapeEngine.ShapeOutputsInOrder | torch_glow/src/ShapeInferenceEngine.cpp:156-160 | Every operator but a constant, a list and an embedding bag writes its i-th result under its i-th output |
| ShapeEngine.BinaryNodeAgreesWithSource | torch_glow/src/ShapeInferenceEngine.cpp:70-76 | add, sub, mul and pow give what the source's binaryOp gives wherever its loop stays in bounds, and a shape where it does not |
| ShapeEngine.UnaryOpCopiesShape | torch_glow/src/ShapeInferenceEngine.cpp:62-69 | tanh, relu and sigmoid take one recorded input and give their output its shape |
| ShapeEngine.ChunkOutputsInOrder | torch_glow/src/ShapeInferenceEngine.cpp:95-101 | A chunk node writes the i-th chunk's shape under its i-th output |
| ShapeEngine.ConstantRecords | torch_glow/src/ShapeInferenceEngine.cpp:240-263 | A constant has one output, recorded according to its type: tensor sizes, an int or bool scalar, the scalar 1 for a float, shape [1] with no integer for None and other types |
| ShapeEngine.ListConstructRecords | torch_glow/src/ShapeInferenceEngine.cpp:150-154 | A list node's output holds shape [n, 1] and its inputs' scalars in order; every input is a known scalar |
| ShapeEngine.UnsupportedNodeFails | torch_glow/src/ShapeInferenceEngine.cpp:124-127 | An operator without a shape function fails its node |
| ShapeEngine.SeedInputsOutcome | torch_glow/src/ShapeInferenceEngine.cpp:198-222 | Seeding succeeds exactly when every runtime value is a tensor, bool, int or int list, and fails with UnsupportedInputType otherwise |
| ShapeEngine.SeedInputsRecords | torch_glow/src/ShapeInferenceEngine.cpp:199-216 | After successful seeding, each distinct graph input holds its runtime value's record |
| ShapeEngine.SeedInputsFrame | torch_glow/src/ShapeInferenceEngine.cpp:199-220 | Seeding changes no record other than those of the graph inputs |
| ShapeEngine.RunAppendsOutputsOnSuccess | torch_glow/src/ShapeInferenceEngine.cpp:164-181 | A run appends the graph outputs' shapes in order exactly when it succeeds, and a failed run leaves the output list as it was |
| ShapeEngine.RunStopsAtUnsupported | torch_glow/src/ShapeInferenceEngine.cpp:174-176 | A node without a shape function stops the run, leaving the store as the earlier nodes made it |
| ShapeEngine.RunExample | torch_glow/src/ShapeInferenceEngine.cpp:164-181 | reshape(relu(x), [-1, 5]) on x: [1, 10], with the list built from two constants, succeeds with the single output shape [2, 5] |

## Left out

- printShapeMap (lines 183-191) writes to standard output. It is not modelled.
- getGraphOutputShape (lines 29-31) returns the `outputShape` field. The model reads the field directly.
- Integers are unbounded. The model does not capture int64 overflow in element counts, `static_cast` narrowing, or `int i` loop counters compared with `size_t`.
- Floating-point constant values are not modelled. Only their effect on the record, the scalar 1, is kept.
- `hasEndOffset_` is declared in ShapeInferenceEngine.h, which is not part of this model. The model takes it as a constructor argument.
- The torch JIT graph is abstracted:
  - Values are natural-number handles.
  - A node carries its operator, input and output handles, `dim` and `chunks` attributes, constant type, integer value and tensor sizes.
  - Runtime inputs are tensors (their sizes), bools, ints, int lists and "other".
- A bool graph input is recorded as 0 or 1. How torch converts a bool with `toInt` is not modelled.
- The tensor constant's size-copying loop (lines 257-260) is the function `Values.PrimConstant`.
- The graph-input tensor size loop (lines 207-209) is copied inside `Engine.GetGraphInputShape`.
- After a `CHECK` aborts or torch throws, the engine's state is not modelled:
  - The `CHECK` in getNodeInputShape or generateGraphOutputShape.
  - torch's assertion that a constant or list node has one output.
  - The read of `node->output(0)` on an embedding-bag node with no outputs.
  - The model instead returns `InvariantViolation` and leaves the store unchanged.
- ShapeEngine.Engine.StoreOutputs: when a node names more outputs than its shape function returned, the source writes the earlier outputs and then reads past the results. The model reports `UndefinedBehaviour` before writing anything.
- ShapeEngine.Engine.GenerateGraphOutputShape: the source appends shapes one by one until a missing output aborts the process. The model appends all of them or none.
- Undefined behaviour (reads out of bounds, division by zero) is reported as the error `UndefinedBehaviour`. Whatever the compiled code would then do is not modelled.
- ShapeEngine.OpResults: add, sub, mul, pow and the last step of addmm use the corrected broadcast `Broadcasting.BinaryOpSpec`. Where the source's loop reads before the start of the second shape, the engine therefore yields the intended shape instead of `UndefinedBehaviour`. `ShapeEngine.BinaryNodeAgreesWithSource` (add, sub, mul and pow) and `MatrixProducts.AddmmAgreesWithSource` (addmm) show these are the only inputs where the engine and the source differ. The behaviour as written is `Broadcasting.BinaryOpAsWritten`.
- Error messages are reduced to the categories of `ErrorKind`.

## Findings

| source | as written | input that shows it | evidently intended | confidence | as-written member | corrected member |
|---|---|---|---|---|---|---|
| torch_glow/src/ShapeInferenceEngine.cpp:294-295 | When the first operand is longer and has a size 1 among its extra leading dimensions, the loop takes the size from the second operand at a position before its start | `add` on shapes [1, 2, 3] and [2, 3]: at i = 2 the loop reads `t1[-1]` | The leading size passes through from the first operand, giving [1, 2, 3] | high; not executed | Broadcasting.BinaryOpAsWritten, exhibited by Broadcasting.AsWrittenReadsOutOfBounds | Broadcasting.BinaryOpSpec, computed by Broadcasting.BinaryOp, proved by Broadcasting.BroadcastSizes |
