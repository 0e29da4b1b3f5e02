/** Elementwise binary operators (aten::add, sub, mul, pow): right-aligned
    broadcasting of two shapes. */
module Broadcasting {
  import opened Metadata

  /** The size `i` places from the end of `t` (the source's `t[d + j]`, `j = -1 - i`). */
  function Trailing(t: Shape, i: nat): int
    requires i < |t|
  {
    t[|t| - 1 - i]
  }

  /** Both shapes have a dimension `i` places from the end, neither is 1, and they differ. */
  predicate Clash(t0: Shape, t1: Shape, i: nat)
  {
    i < |t0| && i < |t1| && Trailing(t0, i) != 1 && Trailing(t1, i) != 1 && Trailing(t0, i) != Trailing(t1, i)
  }

  /** The broadcast size `i` places from the end: a side that is missing or is 1
      gives way to the other side. */
  function BroadcastAt(t0: Shape, t1: Shape, i: nat): int
    requires i < |t0| || i < |t1|
  {
    if i >= |t0| then Trailing(t1, i)
    else if i >= |t1| then Trailing(t0, i)
    else if Trailing(t0, i) == 1 then Trailing(t1, i)
    else Trailing(t0, i)
  }

  /** Broadcasting as the operators intend it. A second operand of rank 1 is
      treated as a scalar and the first shape is returned unchanged. */
  function Broadcast(t0: Shape, t1: Shape): Result<Shape>
  {
    if |t1| == 1 then Ok(t0)
    else
      var n := Max(|t0|, |t1|);
      if exists i :: 0 <= i < n && Clash(t0, t1, i) then Err(ShapeMismatch)
      else Ok(seq(n, k requires 0 <= k < n => BroadcastAt(t0, t1, n - 1 - k)))
  }

  /** binaryOp: two or three inputs (the third is a scale factor and has no shape effect). */
  function BinaryOpSpec(ms: MetaStack): Result<Shape>
  {
    if |ms| != 2 && |ms| != 3 then Err(ArityError) else Broadcast(ms[0].shape, ms[1].shape)
  }

  /** binaryOp with its broadcasting loop; the out-of-bounds read of the
      second operand is replaced by taking the first operand's size. */
  method BinaryOp(ms: MetaStack) returns (r: Result<Shape>)
    ensures r == BinaryOpSpec(ms)
  {
    if |ms| != 2 && |ms| != 3 {
      return Err(ArityError);
    }
    var t0, t1 := ms[0].shape, ms[1].shape;
    var d0, d1 := |t0|, |t1|;
    if d1 == 1 {
      return Ok(t0);
    }
    var dim := Max(d0, d1);
    var shape: Shape := seq(dim, _ => 0);
    var i := 0;
    while i < dim
      invariant 0 <= i <= dim && |shape| == dim
      invariant forall k :: 0 <= k < i ==> !Clash(t0, t1, k)
      invariant forall k :: 0 <= k < i ==> shape[dim - 1 - k] == BroadcastAt(t0, t1, k)
    {
      var j := -1 - i;
      if i >= d0 || (i < d1 && t0[d0 + j] == 1) {
        shape := shape[dim + j := t1[d1 + j]];
      } else if i >= d1 || t1[d1 + j] == 1 {
        shape := shape[dim + j := t0[d0 + j]];
      } else {
        if t1[d1 + j] != t0[d0 + j] {
          assert Clash(t0, t1, i);
          return Err(ShapeMismatch);
        }
        shape := shape[dim + j := t1[d1 + j]];
      }
      i := i + 1;
    }
    assert forall k :: 0 <= k < dim ==> shape[k] == BroadcastAt(t0, t1, dim - 1 - k) by {
      forall k | 0 <= k < dim ensures shape[k] == BroadcastAt(t0, t1, dim - 1 - k) {
        assert shape[dim - 1 - (dim - 1 - k)] == BroadcastAt(t0, t1, dim - 1 - k);
      }
    }
    assert shape == seq(dim, k requires 0 <= k < dim => BroadcastAt(t0, t1, dim - 1 - k));
    assert !exists k :: 0 <= k < dim && Clash(t0, t1, k);
    return Ok(shape);
  }

  // ---------------------------------------------------------------------------
  // The loop of the source as written: when the first operand is longer and
  // has a size 1 among its leading dimensions, it reads the second operand
  // before its start.

  /** The source's loop from step `i` on; `acc` holds the sizes of the last
      `i` dimensions. The out-of-bounds read is reported as UndefinedBehaviour. */
  function BroadcastLoopAsWritten(t0: Shape, t1: Shape, i: nat, acc: Shape): Result<Shape>
    requires i <= Max(|t0|, |t1|)
    decreases Max(|t0|, |t1|) - i
  {
    if i == Max(|t0|, |t1|) then Ok(acc)
    else if i >= |t0| || Trailing(t0, i) == 1 then
      if i >= |t1| then Err(UndefinedBehaviour)
      else BroadcastLoopAsWritten(t0, t1, i + 1, [Trailing(t1, i)] + acc)
    else if i >= |t1| || Trailing(t1, i) == 1 then
      BroadcastLoopAsWritten(t0, t1, i + 1, [Trailing(t0, i)] + acc)
    else if Trailing(t1, i) != Trailing(t0, i) then Err(ShapeMismatch)
    else BroadcastLoopAsWritten(t0, t1, i + 1, [Trailing(t1, i)] + acc)
  }

  /** binaryOp exactly as the source writes it. */
  function BinaryOpAsWritten(ms: MetaStack): Result<Shape>
  {
    if |ms| != 2 && |ms| != 3 then Err(ArityError)
    else if |ms[1].shape| == 1 then Ok(ms[0].shape)
    else BroadcastLoopAsWritten(ms[0].shape, ms[1].shape, 0, [])
  }

  /** The sizes of the last `i` broadcast dimensions, outermost first. */
  function BroadcastSuffix(t0: Shape, t1: Shape, i: nat): (s: Shape)
    requires i <= Max(|t0|, |t1|)
    ensures |s| == i
  {
    seq(i, k requires 0 <= k < i => BroadcastAt(t0, t1, i - 1 - k))
  }

  lemma {:induction false} LoopAgreesUnlessUndefined(t0: Shape, t1: Shape, i: nat)
    requires |t1| != 1 && i <= Max(|t0|, |t1|)
    requires forall k :: 0 <= k < i ==> !Clash(t0, t1, k)
    ensures var w := BroadcastLoopAsWritten(t0, t1, i, BroadcastSuffix(t0, t1, i));
            w != Err(UndefinedBehaviour) ==> w == Broadcast(t0, t1)
    decreases Max(|t0|, |t1|) - i
  {
    var n := Max(|t0|, |t1|);
    var acc := BroadcastSuffix(t0, t1, i);
    if i == n {
      assert acc == seq(n, k requires 0 <= k < n => BroadcastAt(t0, t1, n - 1 - k));
    } else if Clash(t0, t1, i) {
    } else {
      var next := [BroadcastAt(t0, t1, i)] + acc;
      assert next == BroadcastSuffix(t0, t1, i + 1);
      LoopAgreesUnlessUndefined(t0, t1, i + 1);
    }
  }

  /** Where the source's loop does not read out of bounds, it computes the
      intended broadcast. */
  lemma AsWrittenAgreesUnlessUndefined(ms: MetaStack)
    ensures BinaryOpAsWritten(ms) != Err(UndefinedBehaviour) ==> BinaryOpAsWritten(ms) == BinaryOpSpec(ms)
  {
    if (|ms| == 2 || |ms| == 3) && |ms[1].shape| != 1 {
      assert BroadcastSuffix(ms[0].shape, ms[1].shape, 0) == [];
      LoopAgreesUnlessUndefined(ms[0].shape, ms[1].shape, 0);
    }
  }

  /** The loop as written reads out of bounds only at a step past the second
      shape's start, so no step from `i` on is a clash. */
  lemma {:induction false} UndefinedLoopHasNoClash(t0: Shape, t1: Shape, i: nat, acc: Shape)
    requires i <= Max(|t0|, |t1|)
    requires BroadcastLoopAsWritten(t0, t1, i, acc) == Err(UndefinedBehaviour)
    ensures forall k :: i <= k < Max(|t0|, |t1|) ==> !Clash(t0, t1, k)
    decreases Max(|t0|, |t1|) - i
  {
    if i >= |t0| || Trailing(t0, i) == 1 {
      if i < |t1| {
        UndefinedLoopHasNoClash(t0, t1, i + 1, [Trailing(t1, i)] + acc);
      }
    } else if i >= |t1| || Trailing(t1, i) == 1 {
      UndefinedLoopHasNoClash(t0, t1, i + 1, [Trailing(t0, i)] + acc);
    } else {
      UndefinedLoopHasNoClash(t0, t1, i + 1, [Trailing(t1, i)] + acc);
    }
  }

  /** Wherever the loop as written reads out of bounds, the intended broadcast
      succeeds: the source's undefined case is never an intended error. */
  lemma UndefinedOnlyWhereIntendedSucceeds(ms: MetaStack)
    ensures BinaryOpAsWritten(ms) == Err(UndefinedBehaviour) ==> BinaryOpSpec(ms).Ok?
  {
    if BinaryOpAsWritten(ms) == Err(UndefinedBehaviour) {
      UndefinedLoopHasNoClash(ms[0].shape, ms[1].shape, 0, []);
    }
  }

  /** [1, 2, 3] + [2, 3]: the source reads before the start of the second
      shape, where [1, 2, 3] is intended. */
  lemma AsWrittenReadsOutOfBounds()
    ensures BinaryOpAsWritten([VariableMeta([1, 2, 3], []), VariableMeta([2, 3], [])]) == Err(UndefinedBehaviour)
    ensures BinaryOpSpec([VariableMeta([1, 2, 3], []), VariableMeta([2, 3], [])]) == Ok([1, 2, 3])
  {
    var t0, t1: Shape := [1, 2, 3], [2, 3];
    assert BroadcastLoopAsWritten(t0, t1, 0, []) == BroadcastLoopAsWritten(t0, t1, 1, [3]);
    assert BroadcastLoopAsWritten(t0, t1, 1, [3]) == BroadcastLoopAsWritten(t0, t1, 2, [2, 3]);
    assert !Clash(t0, t1, 0) && !Clash(t0, t1, 1) && !Clash(t0, t1, 2);
    assert seq(3, k requires 0 <= k < 3 => BroadcastAt(t0, t1, 2 - k)) == [1, 2, 3];
  }

  // ---------------------------------------------------------------------------
  // Properties of broadcasting.

  /** Aligned from the last dimension, each result size takes the other side's
      size where one side is 1 or missing; two sizes that are not 1 must agree,
      and the operation fails exactly when some pair does not. */
  lemma BroadcastSizes(t0: Shape, t1: Shape)
    requires |t1| != 1
    ensures Broadcast(t0, t1).Err? <==> exists i :: 0 <= i < Max(|t0|, |t1|) && Clash(t0, t1, i)
    ensures Broadcast(t0, t1).Ok? ==>
      var r := Broadcast(t0, t1).value;
      && |r| == Max(|t0|, |t1|)
      && (forall i :: |t0| <= i < |r| ==> Trailing(r, i) == Trailing(t1, i))
      && (forall i :: |t1| <= i < |r| ==> Trailing(r, i) == Trailing(t0, i))
      && (forall i :: 0 <= i < |t0| && i < |t1| && Trailing(t0, i) == 1 ==> Trailing(r, i) == Trailing(t1, i))
      && (forall i :: 0 <= i < |t0| && i < |t1| && Trailing(t1, i) == 1 ==> Trailing(r, i) == Trailing(t0, i))
      && (forall i :: 0 <= i < |t0| && i < |t1| ==>
            Trailing(t0, i) == 1 || Trailing(t1, i) == 1 || Trailing(t0, i) == Trailing(t1, i) == Trailing(r, i))
  {
    if Broadcast(t0, t1).Ok? {
      var r, n := Broadcast(t0, t1).value, Max(|t0|, |t1|);
      forall i | 0 <= i < n ensures Trailing(r, i) == BroadcastAt(t0, t1, i) && !Clash(t0, t1, i) {
        assert r[n - 1 - i] == BroadcastAt(t0, t1, n - 1 - (n - 1 - i));
      }
      forall i | 0 <= i < |t0| && i < |t1|
        ensures Trailing(t0, i) == 1 || Trailing(t1, i) == 1 || Trailing(t0, i) == Trailing(t1, i) == Trailing(r, i)
      {
        assert !Clash(t0, t1, i);
      }
    }
  }

  /** Broadcasting is symmetric when neither operand has rank 1. */
  lemma BroadcastCommutes(t0: Shape, t1: Shape)
    requires |t0| != 1 && |t1| != 1
    ensures Broadcast(t0, t1) == Broadcast(t1, t0)
  {
    var n := Max(|t0|, |t1|);
    assert Max(|t1|, |t0|) == n;
    assert forall i :: Clash(t0, t1, i) <==> Clash(t1, t0, i);
    if !exists i :: 0 <= i < n && Clash(t0, t1, i) {
      forall i | 0 <= i < n ensures BroadcastAt(t0, t1, i) == BroadcastAt(t1, t0, i) {
        assert !Clash(t0, t1, i);
      }
      var a := seq(n, k requires 0 <= k < n => BroadcastAt(t0, t1, n - 1 - k));
      var b := seq(n, k requires 0 <= k < n => BroadcastAt(t1, t0, n - 1 - k));
      assert forall k :: 0 <= k < n ==> a[k] == b[k];
      assert a == b;
    }
  }

  /** An operand whose every size is 1 or matches the other operand, and whose
      rank is no larger, leaves the other operand's shape as the result. */
  lemma BroadcastAbsorbs(t0: Shape, t1: Shape)
    requires |t1| != 1 && |t0| <= |t1|
    requires forall i :: 0 <= i < |t0| ==> Trailing(t0, i) == 1 || Trailing(t0, i) == Trailing(t1, i)
    ensures Broadcast(t0, t1) == Ok(t1)
  {
    var n := |t1|;
    assert Max(|t0|, |t1|) == n;
    assert forall i :: 0 <= i < n ==> !Clash(t0, t1, i);
    var r := seq(n, k requires 0 <= k < n => BroadcastAt(t0, t1, n - 1 - k));
    forall k | 0 <= k < n ensures r[k] == t1[k] {
      assert Trailing(t1, n - 1 - k) == t1[k];
    }
    assert r == t1;
  }
}
