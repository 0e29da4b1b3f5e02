/** Operators that split or join tensors along one dimension:
    prim::ConstantChunk, prim::FusedConcat and glow::fused_stack. */
module Joining {
  import opened Metadata
  import opened CppArith

  // ---------------------------------------------------------------------------
  // prim::ConstantChunk

  /** The size of each chunk but the last: the dimension size divided by the
      chunk count, rounded up (C++ division). */
  function ChunkSize(n: int, chunks: int): int
    requires chunks != 0
  {
    Div(n + chunks - 1, chunks)
  }

  /** The size of the last chunk: what the others leave of the dimension. */
  function LastChunkSize(n: int, chunks: int): int
    requires chunks != 0
  {
    n - ChunkSize(n, chunks) * (chunks - 1)
  }

  /** constantChunk: `chunks` copies of the input shape, differing at `dim`.
      A count of zero divides by zero in the source; a negative count yields
      no chunks. */
  function ConstantChunkSpec(ms: MetaStack, chunks: int, dim: int): Result<seq<Shape>>
  {
    if |ms| != 1 then Err(ArityError)
    else
      var s := ms[0].shape;
      var d := NormalizeDim(dim, |s|);
      if !(0 <= d < |s|) then Err(RangeError)
      else if chunks == 0 then Err(UndefinedBehaviour)
      else
        var c, r := ChunkSize(s[d], chunks), LastChunkSize(s[d], chunks);
        var count := if chunks > 0 then chunks else 0;
        Ok(seq(count, i requires 0 <= i < count => s[d := if i == chunks - 1 then r else c]))
  }

  method ConstantChunk(ms: MetaStack, chunks: int, dim: int) returns (r: Result<seq<Shape>>)
    ensures r == ConstantChunkSpec(ms, chunks, dim)
  {
    if |ms| != 1 {
      return Err(ArityError);
    }
    var d := dim;
    if d < 0 {
      d := d + |ms[0].shape|;
    }
    if !(d < |ms[0].shape| && d >= 0) {
      return Err(RangeError);
    }
    if chunks == 0 {
      return Err(UndefinedBehaviour);
    }
    var c := Div(ms[0].shape[d] + chunks - 1, chunks);
    var last := ms[0].shape[d] - c * (chunks - 1);
    ghost var s := ms[0].shape;
    ghost var count := if chunks > 0 then chunks else 0;
    assert d == NormalizeDim(dim, |s|);
    assert c == ChunkSize(s[d], chunks) && last == LastChunkSize(s[d], chunks);
    var outShapes: seq<Shape> := [];
    var i := 0;
    while i < chunks
      invariant 0 <= i <= count
      invariant outShapes == seq(i, k requires 0 <= k < i => s[d := if k == chunks - 1 then last else c])
    {
      var shape := ms[0].shape;
      shape := shape[d := if i == chunks - 1 then last else c];
      outShapes := outShapes + [shape];
      i := i + 1;
    }
    return Ok(outShapes);
  }

  /** Sizes along `d` of the first `k` chunks. */
  function ChunkTotal(c: int, last: int, chunks: int, k: nat): int
  {
    if k == 0 then 0 else ChunkTotal(c, last, chunks, k - 1) + (if k - 1 == chunks - 1 then last else c)
  }

  lemma {:induction false} ChunkTotalBeforeLast(c: int, last: int, chunks: int, k: nat)
    requires k < chunks
    ensures ChunkTotal(c, last, chunks, k) == c * k
  {
    if k > 0 {
      ChunkTotalBeforeLast(c, last, chunks, k - 1);
    }
  }

  lemma {:induction false} SumAtChunks(ss: seq<Shape>, d: nat, c: int, last: int, chunks: int, k: nat)
    requires k <= |ss|
    requires forall i :: 0 <= i < |ss| ==> d < |ss[i]| && ss[i][d] == (if i == chunks - 1 then last else c)
    ensures SumAt(ss[..k], d) == ChunkTotal(c, last, chunks, k)
  {
    if k > 0 {
      SumAtChunks(ss, d, c, last, chunks, k - 1);
      assert ss[..k][..k - 1] == ss[..k - 1];
    }
  }

  /** A positive count yields exactly `chunks` shapes, each the input shape
      except at the (normalised) dimension, whose sizes there add up to the
      input's size. */
  lemma ChunksPartitionDim(ms: MetaStack, chunks: int, dim: int)
    requires chunks > 0 && ConstantChunkSpec(ms, chunks, dim).Ok?
    ensures var outs, s, d := ConstantChunkSpec(ms, chunks, dim).value, ms[0].shape, NormalizeDim(dim, |ms[0].shape|);
      && |outs| == chunks
      && (forall i :: 0 <= i < chunks ==> |outs[i]| == |s| && forall j :: 0 <= j < |s| && j != d ==> outs[i][j] == s[j])
      && SumAt(outs, d) == s[d]
  {
    var outs, s := ConstantChunkSpec(ms, chunks, dim).value, ms[0].shape;
    var d := NormalizeDim(dim, |s|);
    var c, last := ChunkSize(s[d], chunks), LastChunkSize(s[d], chunks);
    SumAtChunks(outs, d, c, last, chunks, chunks);
    assert outs[..chunks] == outs;
    ChunkTotalBeforeLast(c, last, chunks, chunks - 1);
  }

  /** On a non-negative size the chunk size is the size divided by the count,
      rounded up, and the last chunk is at most that size. */
  lemma ChunkSizeIsCeiling(n: int, chunks: int)
    requires n >= 0 && chunks > 0
    ensures ChunkSize(n, chunks) * chunks >= n
    ensures (ChunkSize(n, chunks) - 1) * chunks < n || n == 0
    ensures LastChunkSize(n, chunks) <= ChunkSize(n, chunks)
  {
    var c := ChunkSize(n, chunks);
    DivRemOfNonNegative(n + chunks - 1, chunks);
    var m := (n + chunks - 1) % chunks;
    assert n + chunks - 1 == c * chunks + m;
    MulSub(c, 1, chunks);
    assert LastChunkSize(n, chunks) == n - c * chunks + c by {
      assert c * (chunks - 1) == c * chunks - c;
    }
  }

  /** Five elements in four chunks: chunks of 2, 2, 2 and a last one of size -1. */
  lemma ChunkCanGoNegative()
    ensures ConstantChunkSpec([VariableMeta([5], [])], 4, 0) == Ok([[2], [2], [2], [-1]])
  {
    assert ChunkSize(5, 4) == 2 by { DivRemOfNonNegative(8, 4); }
    assert LastChunkSize(5, 4) == -1;
    var outs := ConstantChunkSpec([VariableMeta([5], [])], 4, 0).value;
    assert |outs| == 4 && outs[0] == [2] && outs[1] == [2] && outs[2] == [2] && outs[3] == [-1];
    assert outs == [[2], [2], [2], [-1]];
  }

  // ---------------------------------------------------------------------------
  // prim::FusedConcat

  /** `t` may be concatenated to `s` along `d`: same rank, same sizes elsewhere. */
  predicate ConcatCompatible(s: Shape, t: Shape, d: int)
  {
    |t| == |s| && forall j :: 0 <= j < |s| && j != d ==> t[j] == s[j]
  }

  /** fusedConcat: the first shape with its size at `dim` replaced by the sum
      over all inputs. */
  function FusedConcatSpec(ms: MetaStack, dim: int): Result<Shape>
  {
    if |ms| < 1 then Err(ArityError)
    else if |ms| == 1 then Ok(ms[0].shape)
    else
      var s := ms[0].shape;
      var d := NormalizeDim(dim, |s|);
      if !(0 <= d < |s|) then Err(RangeError)
      else if exists i :: 1 <= i < |ms| && !ConcatCompatible(s, ms[i].shape, d) then Err(ShapeMismatch)
      else Ok(s[d := SumAt(Shapes(ms), d)])
  }

  /** The sum at `d` over the shapes of a prefix one record longer. */
  lemma SumAtPrefixStep(ms: MetaStack, i: nat, d: nat)
    requires i < |ms| && d < |ms[i].shape|
    ensures SumAt(Shapes(ms[..0]), d) == 0
    ensures SumAt(Shapes(ms[..i + 1]), d) == SumAt(Shapes(ms[..i]), d) + ms[i].shape[d]
  {
    assert Shapes(ms[..0]) == [];
    assert Shapes(ms[..i + 1]) == Shapes(ms[..i]) + [ms[i].shape];
    SumAtSnoc(Shapes(ms[..i]), ms[i].shape, d);
  }

  /** Compatibility ignores the concatenation dimension itself. */
  lemma CompatibleIgnoresDim(s: Shape, v: int, t: Shape, d: int)
    requires 0 <= d < |s|
    ensures ConcatCompatible(s[d := v], t, d) <==> ConcatCompatible(s, t, d)
  {
  }

  method FusedConcat(ms: MetaStack, dim: int) returns (r: Result<Shape>)
    ensures r == FusedConcatSpec(ms, dim)
  {
    if |ms| < 1 {
      return Err(ArityError);
    }
    if |ms| == 1 {
      return Ok(ms[0].shape);
    }
    var shape := ms[0].shape;
    var inDims := |ms[0].shape|;
    var d := dim;
    if d < 0 {
      d := d + inDims;
    }
    if !(d < inDims && d >= 0) {
      return Err(RangeError);
    }
    ghost var s := ms[0].shape;
    SumAtPrefixStep(ms, 0, d);
    var i := 1;
    while i < |ms|
      invariant 1 <= i <= |ms|
      invariant forall k :: 1 <= k < i ==> ConcatCompatible(s, ms[k].shape, d)
      invariant shape == s[d := SumAt(Shapes(ms[..i]), d)]
    {
      if inDims != |ms[i].shape| {
        return Err(ShapeMismatch);
      }
      var next := AddAlongDim(shape, ms[i].shape, d);
      CompatibleIgnoresDim(s, SumAt(Shapes(ms[..i]), d), ms[i].shape, d);
      if next.Err? {
        return next;
      }
      shape := next.value;
      SumAtPrefixStep(ms, i, d);
      i := i + 1;
    }
    assert ms[..i] == ms;
    return Ok(shape);
  }

  /** The inner loop of fusedConcat: adds `t`'s size at `d` to the running
      shape, checking that the two agree everywhere else. */
  method AddAlongDim(shape: Shape, t: Shape, d: int) returns (r: Result<Shape>)
    requires |t| == |shape| && 0 <= d < |shape|
    ensures ConcatCompatible(shape, t, d) ==> r == Ok(shape[d := shape[d] + t[d]])
    ensures !ConcatCompatible(shape, t, d) ==> r == Err(ShapeMismatch)
  {
    var acc := shape;
    var j := 0;
    while j < |shape|
      invariant 0 <= j <= |shape|
      invariant forall k :: 0 <= k < j && k != d ==> t[k] == shape[k]
      invariant acc == if d < j then shape[d := shape[d] + t[d]] else shape
    {
      if j == d {
        acc := acc[d := acc[d] + t[d]];
      } else {
        if acc[j] != t[j] {
          return Err(ShapeMismatch);
        }
      }
      j := j + 1;
    }
    return Ok(acc);
  }

  /** Concatenating compatible shapes keeps every size but the one at the
      (normalised) dimension, where the sizes of all inputs add up. */
  lemma ConcatSizes(ms: MetaStack, dim: int)
    requires |ms| >= 2 && FusedConcatSpec(ms, dim).Ok?
    ensures var r, d := FusedConcatSpec(ms, dim).value, NormalizeDim(dim, |ms[0].shape|);
      && |r| == |ms[0].shape|
      && (forall i, j :: 0 <= i < |ms| && 0 <= j < |r| && j != d ==> |ms[i].shape| == |r| && r[j] == ms[i].shape[j])
      && r[d] == SumAt(Shapes(ms), d)
  {
  }

  // ---------------------------------------------------------------------------
  // glow::fused_stack

  /** fusedStack: all inputs share one shape, and a new dimension holding the
      input count is inserted at `dim` (normalised against rank + 1). */
  function FusedStackSpec(ms: MetaStack, dim: int): Result<Shape>
  {
    if |ms| < 1 then Err(ArityError)
    else if |ms| == 1 then Ok(ms[0].shape)
    else
      var s := ms[0].shape;
      var d := NormalizeDim(dim, |s| + 1);
      if !(0 <= d < |s| + 1) then Err(RangeError)
      else if exists i :: 0 <= i < |ms| && ms[i].shape != s then Err(ShapeMismatch)
      else Ok(s[..d] + [|ms|] + s[d..])
  }

  method FusedStack(ms: MetaStack, dim: int) returns (r: Result<Shape>)
    ensures r == FusedStackSpec(ms, dim)
  {
    if |ms| < 1 {
      return Err(ArityError);
    }
    if |ms| == 1 {
      return Ok(ms[0].shape);
    }
    var inDims := |ms[0].shape|;
    var d := dim;
    if d < 0 {
      d := d + inDims + 1;
    }
    if !(d < inDims + 1 && d >= 0) {
      return Err(RangeError);
    }
    var shape := ms[0].shape;
    var i := 0;
    while i < |ms|
      invariant 0 <= i <= |ms|
      invariant forall k :: 0 <= k < i ==> ms[k].shape == shape
    {
      if ms[i].shape != shape {
        return Err(ShapeMismatch);
      }
      i := i + 1;
    }
    shape := shape[..d] + [|ms| as int] + shape[d..];
    return Ok(shape);
  }

  /** Removing the inserted dimension gives back the common input shape, and
      the inserted size is the number of inputs. */
  lemma StackInsertsCount(ms: MetaStack, dim: int)
    requires |ms| >= 2 && FusedStackSpec(ms, dim).Ok?
    ensures var r, d := FusedStackSpec(ms, dim).value, NormalizeDim(dim, |ms[0].shape| + 1);
      && 0 <= d < |r| && r[d] == |ms|
      && forall i :: 0 <= i < |ms| ==> r[..d] + r[d + 1..] == ms[i].shape
  {
    var s := ms[0].shape;
    var r, d := FusedStackSpec(ms, dim).value, NormalizeDim(dim, |s| + 1);
    assert r[..d] == s[..d] && r[d + 1..] == s[d..];
    assert s[..d] + s[d..] == s;
  }

  /** `s` with a dimension of size 1 inserted at `d`. */
  function Unsqueeze(s: Shape, d: nat): (u: Shape)
    requires d <= |s|
    ensures |u| == |s| + 1 && u[d] == 1
  {
    s[..d] + [1] + s[d..]
  }

  lemma {:induction false} SumAtOnes(ss: seq<Shape>, d: nat)
    requires forall i :: 0 <= i < |ss| ==> d < |ss[i]| && ss[i][d] == 1
    ensures SumAt(ss, d) == |ss|
  {
    if ss != [] {
      SumAtOnes(ss[..|ss| - 1], d);
    }
  }

  /** Stacking n >= 2 equal shapes at `d` is concatenating, along `d`, the same
      shapes each given a dimension of size 1 there. */
  lemma StackIsConcatOfUnsqueezed(s: Shape, n: nat, d: nat)
    requires n >= 2 && d <= |s|
    ensures FusedConcatSpec(seq(n, _ => VariableMeta(Unsqueeze(s, d), [])), d)
         == FusedStackSpec(seq(n, _ => VariableMeta(s, [])), d)
  {
    var u := Unsqueeze(s, d);
    var cs := seq(n, _ => VariableMeta(u, []));
    var ss := seq(n, _ => VariableMeta(s, []));
    assert forall i :: 1 <= i < n ==> ConcatCompatible(u, cs[i].shape, d);
    assert !exists i :: 0 <= i < n && ss[i].shape != s;
    SumAtOnes(Shapes(cs), d);
    assert u[d := n] == s[..d] + [n] + s[d..];
  }
}
