/** The records that flow through shape inference: shapes, the per-value
    metadata the engine keeps, and the error kinds its operations return. */
module Metadata {

  /** Dimension sizes of a tensor, outermost first (int64 in the source). */
  type Shape = seq<int>

  /** VariableMeta: the shape a value has when materialised as a tensor, and
      the integers known for it at inference time (scalars and int lists). */
  datatype VariableMeta = VariableMeta(shape: Shape, intValue: seq<int>)

  /** The record of a tensor value. */
  function TensorMeta(s: Shape): VariableMeta { VariableMeta(s, []) }

  /** The record of an integer known at inference time: shape [1]. */
  function ScalarMeta(v: int): VariableMeta { VariableMeta([1], [v]) }

  /** The record of an integer list known at inference time: shape [n, 1]. */
  function ListMeta(vs: seq<int>): VariableMeta { VariableMeta([|vs|, 1], vs) }

  /** The input records of one operator, in declared input order. */
  type MetaStack = seq<VariableMeta>

  /** The source reports every failure as one error type with a message; the
      model keeps only the kind. UndefinedBehaviour marks the places where the
      C++ code would read a vector out of bounds or divide by zero. */
  datatype ErrorKind =
    | InputCountMismatch
    | UnsupportedInputType
    | UnsupportedOperator
    | ArityError
    | ShapeMismatch
    | RangeError
    | UndeterminedDimension
    | NotScalar
    | InvariantViolation
    | UndefinedBehaviour

  datatype Result<T> = Ok(value: T) | Err(error: ErrorKind) {
    predicate IsFailure() { Err? }

    function PropagateFailure<U>(): Result<U>
      requires Err?
    {
      Err(error)
    }

    function Extract(): T
      requires Ok?
    {
      value
    }
  }

  /** The outcome of an operation that returns no value (`Error` in the source). */
  datatype Outcome = Pass | Fail(error: ErrorKind)

  function Max(a: int, b: int): int { if a < b then b else a }

  /** A possibly negative dimension index counted against `rank` dimensions. */
  function NormalizeDim(dim: int, rank: int): int { if dim < 0 then dim + rank else dim }

  /** The shapes of a stack of records. */
  function Shapes(ms: MetaStack): (ss: seq<Shape>)
    ensures |ss| == |ms| && forall i :: 0 <= i < |ms| ==> ss[i] == ms[i].shape
  {
    seq(|ms|, i requires 0 <= i < |ms| => ms[i].shape)
  }

  /** Product of all entries; the number of elements of a tensor of that shape. */
  function Product(s: seq<int>): int
  {
    if s == [] then 1 else Product(s[..|s| - 1]) * s[|s| - 1]
  }

  /** Sum, over the shapes that have a dimension `d`, of their size there. */
  function SumAt(ss: seq<Shape>, d: nat): int
  {
    if ss == [] then 0
    else SumAt(ss[..|ss| - 1], d) + (if d < |ss[|ss| - 1]| then ss[|ss| - 1][d] else 0)
  }

  /** Replacing one entry scales the product by the ratio of the new entry to the old. */
  lemma {:induction false} ProductUpdate(s: seq<int>, k: nat, v: int)
    requires k < |s|
    ensures Product(s[k := v]) * s[k] == Product(s) * v
  {
    var n := |s|;
    var u := s[k := v];
    if k == n - 1 {
      assert u[..n - 1] == s[..n - 1];
      MulRotate(Product(s[..n - 1]), v, s[k]);
    } else {
      assert u[..n - 1] == s[..n - 1][k := v];
      ProductUpdate(s[..n - 1], k, v);
      MulRotate(Product(u[..n - 1]), s[n - 1], s[k]);
      MulRotate(Product(s[..n - 1]), s[n - 1], v);
    }
  }

  lemma MulRotate(a: int, b: int, c: int)
    ensures a * b * c == a * c * b
  {
  }

  /** SumAt over a prefix extended by one shape. */
  lemma SumAtSnoc(ss: seq<Shape>, t: Shape, d: nat)
    ensures SumAt(ss + [t], d) == SumAt(ss, d) + (if d < |t| then t[d] else 0)
  {
    assert (ss + [t])[..|ss|] == ss;
  }
}
