/** Operators that select or rearrange dimensions: aten::slice, aten::reshape
    and aten::permute. */
module Indexing {
  import opened Metadata
  import opened CppArith

  // ---------------------------------------------------------------------
  // aten::slice(self, dim, start, end, step)
  // ---------------------------------------------------------------------

  /** The size along the sliced dimension, as the source computes it from the
      input size and the (unclamped) start, end and step. A zero step divides
      by zero in C++. */
  function SliceExtent(size: int, start: int, end: int, step: int): Result<int>
  {
    if start >= size || end <= -size then Ok(0)
    else
      var st := if start <= -size then 0 else if start < 0 then start + size else start;
      var en := if end > size then size else if -size < end < 0 then end + size else end;
      if st >= en then Ok(0)
      else if step == 0 then Err(UndefinedBehaviour)
      else Ok(Div(en - st, step) + (if Rem(en - st, step) != 0 then 1 else 0))
  }

  /** The four arguments after `self` must be scalars (shape [1]); their values
      are read without checking that they are known, and `dim` indexes the
      input shape without being normalised or range-checked. */
  function SliceSpec(ms: MetaStack): (r: Result<Shape>)
    ensures r.Ok? ==> |ms| == 5 && |r.value| == |ms[0].shape| && ms[1].intValue != []
                      && 0 <= ms[1].intValue[0] < |ms[0].shape|
                      && forall k :: 0 <= k < |ms[0].shape| && k != ms[1].intValue[0] ==> r.value[k] == ms[0].shape[k]
  {
    if |ms| != 5 then Err(ArityError)
    else if exists i :: 1 <= i < 5 && |ms[i].shape| != 1 then Err(NotScalar)
    else if exists i :: 1 <= i < 5 && ms[i].intValue == [] then Err(UndefinedBehaviour)
    else
      var s, dim := ms[0].shape, ms[1].intValue[0];
      if !(0 <= dim < |s|) then Err(UndefinedBehaviour)
      else
        var e :- SliceExtent(s[dim], ms[2].intValue[0], ms[3].intValue[0], ms[4].intValue[0]);
        Ok(s[dim := e])
  }

  method Slice(ms: MetaStack) returns (r: Result<Shape>)
    ensures r == SliceSpec(ms)
  {
    if |ms| != 5 {
      return Err(ArityError);
    }
    for i := 1 to 5
      invariant forall k :: 1 <= k < i ==> |ms[k].shape| == 1
    {
      if |ms[i].shape| != 1 {
        return Err(NotScalar);
      }
    }
    if ms[1].intValue == [] || ms[2].intValue == [] || ms[3].intValue == [] || ms[4].intValue == [] {
      return Err(UndefinedBehaviour);
    }
    var dim, start, end, step := ms[1].intValue[0], ms[2].intValue[0], ms[3].intValue[0], ms[4].intValue[0];
    if !(0 <= dim < |ms[0].shape|) {
      return Err(UndefinedBehaviour);
    }
    var inDims := ms[0].shape[dim];
    var shape := ms[0].shape;
    if start >= inDims || end <= -inDims {
      shape := shape[dim := 0];
      return Ok(shape);
    }
    if start <= -inDims {
      start := 0;
    } else if start > -inDims && start < 0 {
      start := start + inDims;
    }
    if end > inDims {
      end := inDims;
    } else if end > -inDims && end < 0 {
      end := end + inDims;
    }
    if start >= end {
      shape := shape[dim := 0];
      return Ok(shape);
    }
    if step == 0 {
      return Err(UndefinedBehaviour);
    }
    var len := Div(end - start, step);
    if Rem(end - start, step) != 0 {
      len := len + 1;
    }
    shape := shape[dim := len];
    return Ok(shape);
  }

  /** Reference semantics of Python slicing: a bound is counted from the end
      when negative and then clamped into [0, size]. */
  function PyBound(i: int, size: nat): (b: nat)
    ensures b <= size
  {
    if i < 0 then (if i + size < 0 then 0 else i + size)
    else if i > size then size else i
  }

  /** The number of indices 0 <= k < len with k a multiple of `step`: the
      elements a slice of length `len` with that step keeps. */
  function CountStrided(len: int, step: int): (c: nat)
    requires step > 0
    ensures c <= Max(len, 0)
    decreases len
  {
    if len <= 0 then 0
    else CountStrided(len - 1, step) + (if (len - 1) % step == 0 then 1 else 0)
  }

  /** Stepping the length by one moves the Euclidean quotient and remainder. */
  lemma DivModSucc(n: int, step: int)
    requires n >= 0 && step > 0
    ensures n % step == step - 1 ==> (n + 1) / step == n / step + 1 && (n + 1) % step == 0
    ensures n % step != step - 1 ==> (n + 1) / step == n / step && (n + 1) % step == n % step + 1
  {
    var q, m := n / step, n % step;
    assert n == q * step + m;
    if m == step - 1 {
      assert n + 1 == (q + 1) * step + 0;
      EuclidUnique(n + 1, step, q + 1, 0);
    } else {
      EuclidUnique(n + 1, step, q, m + 1);
    }
  }

  /** Counting the kept indices one by one gives the ceiling of len / step. */
  lemma {:induction false} CountStridedIsCeiling(len: int, step: int)
    requires len >= 0 && step > 0
    ensures CountStrided(len, step) == len / step + (if len % step != 0 then 1 else 0)
  {
    if len == 0 {
      EuclidUnique(0, step, 0, 0);
    } else {
      CountStridedIsCeiling(len - 1, step);
      DivModSucc(len - 1, step);
    }
  }

  /** For a non-negative size and a positive step the source's extent is the
      number of elements Python slicing keeps between the clamped bounds, so it
      lies in [0, size]. */
  lemma SliceExtentIsStridedCount(size: int, start: int, end: int, step: int)
    requires size >= 0 && step > 0
    ensures var a, b := PyBound(start, size), PyBound(end, size);
            SliceExtent(size, start, end, step) == Ok(if a < b then CountStrided(b - a, step) else 0)
    ensures SliceExtent(size, start, end, step).Ok?
            && 0 <= SliceExtent(size, start, end, step).value <= size
  {
    var a, b := PyBound(start, size), PyBound(end, size);
    if start >= size || end <= -size {
      assert a >= b;
    } else {
      var st := if start <= -size then 0 else if start < 0 then start + size else start;
      var en := if end > size then size else if -size < end < 0 then end + size else end;
      assert st == a && en == b;
      if a < b {
        StridedExtent(b - a, step);
      }
    }
  }

  lemma StridedExtent(len: int, step: int)
    requires len > 0 && step > 0
    ensures Div(len, step) + (if Rem(len, step) != 0 then 1 else 0) == CountStrided(len, step)
  {
    DivRemOfNonNegative(len, step);
    CountStridedIsCeiling(len, step);
  }

  /** slice(x: [10], dim 0, start 2, end 8, step 2) keeps indices 2, 4, 6. */
  lemma SliceExample()
    ensures SliceSpec([TensorMeta([10]), ScalarMeta(0), ScalarMeta(2), ScalarMeta(8), ScalarMeta(2)]) == Ok([3])
    ensures SliceSpec([TensorMeta([10]), ScalarMeta(0), ScalarMeta(12), ScalarMeta(20), ScalarMeta(1)]) == Ok([0])
    ensures SliceSpec([TensorMeta([10]), ScalarMeta(0), ScalarMeta(-3), ScalarMeta(100), ScalarMeta(1)]) == Ok([3])
  {
    DivRemOfNonNegative(6, 2);
    assert SliceExtent(10, 2, 8, 2) == Ok(3);
    assert [10][0 := 3] == [3] && [10][0 := 0] == [0];
    assert SliceExtent(10, 12, 20, 1) == Ok(0);
    DivRemOfNonNegative(3, 1);
    assert SliceExtent(10, -3, 100, 1) == Ok(3);
  }

  // ---------------------------------------------------------------------
  // aten::reshape(self, shape)
  // ---------------------------------------------------------------------

  /** The target may hold one -1 placeholder; the source accepts any target
      whose element count divides the input's and fills the placeholder with
      the quotient. A target whose product is zero divides by zero. */
  function ReshapeSpec(ms: MetaStack): (r: Result<Shape>)
    ensures r.Ok? ==> |ms| == 2 && |r.value| == |ms[1].intValue|
                      && forall k :: 0 <= k < |r.value| && ms[1].intValue[k] != -1 ==> r.value[k] == ms[1].intValue[k]
  {
    if |ms| != 2 then Err(ArityError)
    else
      var t := ms[1].intValue;
      if TwoPlaceholders(t) then Err(UndeterminedDimension)
      else
        var s0, s1 := Product(ms[0].shape), Product(t);
        if s1 == 0 then Err(UndefinedBehaviour)
        else if Rem(s0, s1) != 0 then Err(ShapeMismatch)
        else Ok(Filled(t, Div(-s0, s1)))
  }

  /** The target holds the placeholder -1 at two positions. */
  predicate TwoPlaceholders(t: seq<int>)
  {
    exists i, j :: 0 <= i < j < |t| && t[i] == -1 && t[j] == -1
  }

  /** The target with every placeholder replaced by `v`. */
  function Filled(t: seq<int>, v: int): (f: seq<int>)
    ensures |f| == |t| && forall k :: 0 <= k < |t| && t[k] != -1 ==> f[k] == t[k]
  {
    seq(|t|, k requires 0 <= k < |t| => if t[k] == -1 then v else t[k])
  }

  /** With a single placeholder, filling it is updating that one entry. */
  lemma FilledOne(t: seq<int>, n: int, v: int)
    requires 0 <= n < |t| && t[n] == -1 && forall k :: 0 <= k < |t| && k != n ==> t[k] != -1
    ensures Filled(t, v) == t[n := v]
  {
    assert forall k :: 0 <= k < |t| ==> Filled(t, v)[k] == t[n := v][k];
  }

  /** Without a placeholder, filling changes nothing. */
  lemma FilledNone(t: seq<int>, v: int)
    requires forall k :: 0 <= k < |t| ==> t[k] != -1
    ensures Filled(t, v) == t
  {
    assert forall k :: 0 <= k < |t| ==> Filled(t, v)[k] == t[k];
  }

  lemma ProductSnoc(s: seq<int>, i: int)
    requires 0 <= i < |s|
    ensures Product(s[..i + 1]) == Product(s[..i]) * s[i]
  {
    assert s[..i + 1][..i] == s[..i];
  }

  method Reshape(ms: MetaStack) returns (r: Result<Shape>)
    ensures r == ReshapeSpec(ms)
  {
    if |ms| != 2 {
      return Err(ArityError);
    }
    var s0, s1 := 1, 1;
    var negIndex := -1;
    var shape0 := ms[0].shape;
    var i := 0;
    while i < |shape0|
      invariant 0 <= i <= |shape0|
      invariant s0 == Product(shape0[..i])
    {
      ProductSnoc(shape0, i);
      s0 := s0 * shape0[i];
      i := i + 1;
    }
    assert shape0[..i] == shape0;
    var t := ms[1].intValue;
    i := 0;
    while i < |t|
      invariant 0 <= i <= |t|
      invariant s1 == Product(t[..i])
      invariant -1 <= negIndex < i
      invariant negIndex >= 0 ==> t[negIndex] == -1
      invariant forall k :: 0 <= k < i && k != negIndex ==> t[k] != -1
    {
      ProductSnoc(t, i);
      s1 := s1 * t[i];
      if t[i] == -1 {
        if negIndex == -1 {
          negIndex := i;
        } else {
          assert t[negIndex] == -1 && t[i] == -1;
          return Err(UndeterminedDimension);
        }
      }
      i := i + 1;
    }
    assert t[..i] == t;
    if s1 == 0 {
      return Err(UndefinedBehaviour);
    }
    if Rem(s0, s1) != 0 {
      return Err(ShapeMismatch);
    }
    var shape := t;
    if negIndex != -1 {
      shape := shape[negIndex := Div(-s0, s1)];
      FilledOne(t, negIndex, Div(-s0, s1));
    } else {
      FilledNone(t, Div(-s0, s1));
    }
    return Ok(shape);
  }

  /** With a placeholder the result has exactly the input's element count. */
  lemma ReshapeKeepsElementCount(ms: MetaStack)
    requires ReshapeSpec(ms).Ok? && -1 in ms[1].intValue
    ensures Product(ReshapeSpec(ms).value) == Product(ms[0].shape)
  {
    var t := ms[1].intValue;
    var r := ReshapeSpec(ms).value;
    var s0, s1 := Product(ms[0].shape), Product(t);
    assert s1 != 0 && Rem(s0, s1) == 0 && !TwoPlaceholders(t);
    assert r == Filled(t, Div(-s0, s1));
    FilledKeepsCount(t, s0, s1);
  }

  lemma FilledKeepsCount(t: seq<int>, s0: int, s1: int)
    requires s1 == Product(t) && s1 != 0 && Rem(s0, s1) == 0
    requires !TwoPlaceholders(t) && -1 in t
    ensures Product(Filled(t, Div(-s0, s1))) == s0
  {
    var k :| 0 <= k < |t| && t[k] == -1;
    OnlyPlaceholder(t, k);
    var q := Div(-s0, s1);
    FilledOne(t, k, q);
    NegatedQuotientIsExact(s0, s1);
    ProductUpdate(t, k, q);
    assert Product(t[k := q]) * -1 == s1 * q;
  }

  lemma OnlyPlaceholder(t: seq<int>, k: int)
    requires !TwoPlaceholders(t) && 0 <= k < |t| && t[k] == -1
    ensures forall j :: 0 <= j < |t| && j != k ==> t[j] != -1
  {
    forall j | 0 <= j < |t| && j != k
      ensures t[j] != -1
    {
      if j < k {
        assert 0 <= j < k < |t|;
      } else {
        assert 0 <= k < j < |t|;
      }
    }
  }

  lemma NegatedQuotientIsExact(s0: int, s1: int)
    requires s1 != 0 && Rem(s0, s1) == 0
    ensures Div(-s0, s1) * s1 == -s0
  {
    DivNegate(s0, s1);
    RemZeroIsExact(-s0, s1);
  }

  /** Without a placeholder the target is returned as given whenever the
      element counts divide, even when they differ. */
  lemma ReshapeChecksOnlyDivisibility()
    ensures ReshapeSpec([TensorMeta([2, 6]), ListMeta([2, 3])]) == Ok([2, 3])
    ensures Product([2, 6]) != Product([2, 3])
  {
    assert [2, 6][..1] == [2] && [2, 3][..1] == [2] && [2][..0] == [];
    DivRemOfNonNegative(12, 6);
    FilledNone([2, 3], Div(-12, 6));
  }

  /** [2, 6] reshaped to [-1, 4] is [3, 4]; two placeholders are refused. */
  lemma ReshapeExamples()
    ensures ReshapeSpec([TensorMeta([2, 6]), ListMeta([-1, 4])]) == Ok([3, 4])
    ensures ReshapeSpec([TensorMeta([2, 6]), ListMeta([-1, -1, 3])]) == Err(UndeterminedDimension)
    ensures ReshapeSpec([TensorMeta([1, 10]), ListMeta([-1, 5])]) == Ok([2, 5])
  {
    assert [1, 10][..1] == [1] && [-1, 5][..1] == [-1] && [1][..0] == [];
    assert Product([1, 10]) == 10 && Product([-1, 5]) == -5;
    assert Div(10, -5) == -2 && Rem(10, -5) == 0;
    assert Div(-10, -5) == 2;
    assert Filled([-1, 5], 2) == [2, 5];
    assert [2, 6][..1] == [2] && [-1, 4][..1] == [-1] && [2][..0] == [] && [-1][..0] == [];
    assert Product([2, 6]) == 12 && Product([-1, 4]) == -4;
    assert Div(12, -4) == -3 && Rem(12, -4) == 0;
    assert Div(-12, -4) == 3;
    assert Filled([-1, 4], 3) == [3, 4];
    var t := [-1, -1, 3];
    assert t[0] == -1 && t[1] == -1;
  }

  // ---------------------------------------------------------------------
  // aten::permute(self, dims)
  // ---------------------------------------------------------------------

  /** Every entry of `p` indexes a dimension of a rank-`n` tensor. */
  predicate InRange(p: seq<int>, n: int)
  {
    forall i :: 0 <= i < |p| ==> 0 <= p[i] < n
  }

  /** Dimension i of the result is dimension p[i] of the input. The source
      rejects negative entries rather than normalising them. */
  function PermuteSpec(ms: MetaStack): (r: Result<Shape>)
    ensures r.Ok? <==> |ms| == 2 && |ms[1].intValue| == |ms[0].shape| && InRange(ms[1].intValue, |ms[0].shape|)
  {
    if |ms| != 2 then Err(ArityError)
    else
      var s, p := ms[0].shape, ms[1].intValue;
      if |p| != |s| then Err(ShapeMismatch)
      else if !InRange(p, |s|) then Err(RangeError)
      else Ok(seq(|p|, i requires 0 <= i < |p| => s[p[i]]))
  }

  method Permute(ms: MetaStack) returns (r: Result<Shape>)
    ensures r == PermuteSpec(ms)
  {
    if |ms| != 2 {
      return Err(ArityError);
    }
    var s, p := ms[0].shape, ms[1].intValue;
    if |s| != |p| {
      return Err(ShapeMismatch);
    }
    var shape: Shape := [];
    for i := 0 to |p|
      invariant |shape| == i && forall k :: 0 <= k < i ==> 0 <= p[k] < |s| && shape[k] == s[p[k]]
    {
      if p[i] < 0 {
        return Err(RangeError);
      }
      if p[i] >= |s| {
        return Err(RangeError);
      }
      shape := shape + [s[p[i]]];
    }
    assert InRange(p, |s|);
    assert shape == seq(|p|, i requires 0 <= i < |p| => s[p[i]]);
    return Ok(shape);
  }

  /** The composite permutation: entry i is p[q[i]]. */
  function Compose(p: seq<int>, q: seq<int>): (c: seq<int>)
    requires InRange(q, |p|)
    ensures |c| == |q|
  {
    seq(|q|, i requires 0 <= i < |q| => p[q[i]])
  }

  /** Permuting by p and then by q is permuting once by their composite. */
  lemma PermuteComposes(s: Shape, p: seq<int>, q: seq<int>)
    requires PermuteSpec([TensorMeta(s), ListMeta(p)]).Ok?
    requires PermuteSpec([TensorMeta(PermuteSpec([TensorMeta(s), ListMeta(p)]).value), ListMeta(q)]).Ok?
    ensures InRange(q, |p|)
    ensures PermuteSpec([TensorMeta(PermuteSpec([TensorMeta(s), ListMeta(p)]).value), ListMeta(q)])
         == PermuteSpec([TensorMeta(s), ListMeta(Compose(p, q))])
  {
    var a := PermuteSpec([TensorMeta(s), ListMeta(p)]).value;
    assert |q| == |a| == |p| == |s|;
    var c := Compose(p, q);
    assert InRange(c, |s|);
    var lhs := PermuteSpec([TensorMeta(a), ListMeta(q)]).value;
    var rhs := PermuteSpec([TensorMeta(s), ListMeta(c)]).value;
    assert forall i :: 0 <= i < |q| ==> lhs[i] == a[q[i]] == s[p[q[i]]] == rhs[i];
    assert lhs == rhs;
  }

  /** Permuting by p and then by an inverse q of p restores the shape. */
  lemma PermuteRoundTrip(s: Shape, p: seq<int>, q: seq<int>)
    requires |p| == |s| && |q| == |s| && InRange(p, |s|) && InRange(q, |s|)
    requires forall i :: 0 <= i < |q| ==> p[q[i]] == i
    ensures PermuteSpec([TensorMeta(s), ListMeta(p)]).Ok?
    ensures PermuteSpec([TensorMeta(PermuteSpec([TensorMeta(s), ListMeta(p)]).value), ListMeta(q)]) == Ok(s)
  {
    var a := PermuteSpec([TensorMeta(s), ListMeta(p)]).value;
    var b := PermuteSpec([TensorMeta(a), ListMeta(q)]).value;
    assert forall i :: 0 <= i < |q| ==> b[i] == a[q[i]] == s[p[q[i]]] == s[i];
    assert b == s;
  }

  /** The identity permutation leaves the shape unchanged. */
  lemma PermuteIdentity(s: Shape)
    ensures PermuteSpec([TensorMeta(s), ListMeta(seq(|s|, i => i))]) == Ok(s)
  {
    var id := seq(|s|, i => i);
    assert InRange(id, |s|);
    var r := PermuteSpec([TensorMeta(s), ListMeta(id)]).value;
    assert forall i :: 0 <= i < |s| ==> r[i] == s[i];
    assert r == s;
  }

  /** permute([2, 3, 4], [2, 0, 1]) is [4, 2, 3]; a negative entry is refused. */
  lemma PermuteExamples()
    ensures PermuteSpec([TensorMeta([2, 3, 4]), ListMeta([2, 0, 1])]) == Ok([4, 2, 3])
    ensures PermuteSpec([TensorMeta([2, 3]), ListMeta([-1, 0])]) == Err(RangeError)
  {
    assert [-1, 0][0] == -1;
    assert InRange([2, 0, 1], 3);
    assert PermuteSpec([TensorMeta([2, 3, 4]), ListMeta([2, 0, 1])]).value == [4, 2, 3];
  }
}
