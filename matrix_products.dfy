/** Matrix products: aten::mm, aten::bmm and aten::addmm. */
module MatrixProducts {
  import opened Metadata
  import opened Broadcasting

  /** mm: [m, k] x [k, n] = [m, n]. */
  function Mm(ms: MetaStack): (r: Result<Shape>)
    ensures |ms| != 2 ==> r == Err(ArityError)
    ensures r.Ok? <==> |ms| == 2 && |ms[0].shape| == 2 && |ms[1].shape| == 2 && ms[0].shape[1] == ms[1].shape[0]
    ensures r.Ok? ==> r.value == [ms[0].shape[0], ms[1].shape[1]]
    ensures |ms| == 2 && r.Err? ==> r.error == ShapeMismatch
  {
    if |ms| != 2 then Err(ArityError)
    else
      var t0, t1 := ms[0].shape, ms[1].shape;
      if !(|t1| == 2 && |t0| == 2) then Err(ShapeMismatch)
      else if t0[1] != t1[0] then Err(ShapeMismatch)
      else Ok([t0[0], t1[1]])
  }

  /** bmm: [b, m, k] x [b, k, n] = [b, m, n]. */
  function Bmm(ms: MetaStack): (r: Result<Shape>)
    ensures |ms| != 2 ==> r == Err(ArityError)
    ensures r.Ok? <==> |ms| == 2 && |ms[0].shape| == 3 && |ms[1].shape| == 3
                       && ms[0].shape[0] == ms[1].shape[0] && ms[0].shape[2] == ms[1].shape[1]
    ensures r.Ok? ==> r.value == [ms[0].shape[0], ms[0].shape[1], ms[1].shape[2]]
  {
    if |ms| != 2 then Err(ArityError)
    else
      var t0, t1 := ms[0].shape, ms[1].shape;
      if !(|t0| == 3 && |t1| == 3) then Err(ShapeMismatch)
      else if t0[0] != t1[0] then Err(ShapeMismatch)
      else if t0[2] != t1[1] then Err(ShapeMismatch)
      else Ok([t0[0], t0[1], t1[2]])
  }

  /** addmm(self, mat1, mat2, ...): broadcasts `self` against mat1 x mat2. The
      source tests the rank of mat2, not of `self`: when mat2 has rank 1, mat1's
      record stands in for the product. */
  function Addmm(ms: MetaStack): (r: Result<Shape>)
    ensures |ms| < 3 ==> r == Err(ArityError)
    ensures |ms| >= 3 && |ms[2].shape| != 1 && Mm([ms[1], ms[2]]).Err? ==> r == Mm([ms[1], ms[2]])
  {
    if |ms| < 3 then Err(ArityError)
    else
      var t :- if |ms[2].shape| == 1 then Ok(ms[1])
               else var s :- Mm([ms[1], ms[2]]); Ok(VariableMeta(s, []));
      BinaryOpSpec([ms[0], t])
  }

  /** A batched product is a product of the last two dimensions under a common batch size. */
  lemma BmmIsBatchedMm(a: Shape, b: Shape)
    requires |a| == 3 && |b| == 3
    ensures var mm := Mm([VariableMeta(a[1..], []), VariableMeta(b[1..], [])]);
            var bmm := Bmm([VariableMeta(a, []), VariableMeta(b, [])]);
            && (bmm.Ok? <==> a[0] == b[0] && mm.Ok?)
            && (bmm.Ok? ==> bmm.value == [a[0]] + mm.value)
  {
  }

  /** The shapes of a chain of two products agree whichever pair is multiplied first. */
  lemma MmAssociates(a: Shape, b: Shape, c: Shape)
    requires Mm([VariableMeta(a, []), VariableMeta(b, [])]).Ok?
    requires Mm([VariableMeta(Mm([VariableMeta(a, []), VariableMeta(b, [])]).value, []), VariableMeta(c, [])]).Ok?
    ensures Mm([VariableMeta(b, []), VariableMeta(c, [])]).Ok?
    ensures Mm([VariableMeta(a, []), VariableMeta(Mm([VariableMeta(b, []), VariableMeta(c, [])]).value, [])])
         == Mm([VariableMeta(Mm([VariableMeta(a, []), VariableMeta(b, [])]).value, []), VariableMeta(c, [])])
  {
  }

  /** With matrices mat1 = [m, k] and mat2 = [k, n], a bias of rank at most 2
      whose sizes are each 1 or the matching size of [m, n] gives [m, n]. */
  lemma AddmmOfMatrices(ms: MetaStack)
    requires |ms| >= 3 && |ms[2].shape| != 1 && Mm([ms[1], ms[2]]).Ok?
    requires var bias, prod := ms[0].shape, Mm([ms[1], ms[2]]).value;
             |bias| <= 2 && forall i :: 0 <= i < |bias| ==> Trailing(bias, i) == 1 || Trailing(bias, i) == Trailing(prod, i)
    ensures Addmm(ms) == Ok([ms[1].shape[0], ms[2].shape[1]])
  {
    var prod := Mm([ms[1], ms[2]]).value;
    BroadcastAbsorbs(ms[0].shape, prod);
  }

  /** When mat2 has rank 1 the product is never formed: the bias is broadcast
      against mat1 alone. */
  lemma AddmmRankOneMat2(ms: MetaStack)
    requires |ms| >= 3 && |ms[2].shape| == 1
    ensures Addmm(ms) == Broadcast(ms[0].shape, ms[1].shape)
  {
  }

  /** With mat2 not of rank 1 and a defined product [m, n], addmm broadcasts the
      bias against [m, n]: it fails with ShapeMismatch exactly when some size of
      the bias, aligned from the end, is neither 1 nor the product's size. */
  lemma AddmmOfProduct(ms: MetaStack)
    requires |ms| >= 3 && |ms[2].shape| != 1 && Mm([ms[1], ms[2]]).Ok?
    ensures var bias, prod := ms[0].shape, Mm([ms[1], ms[2]]).value;
            && Addmm(ms) == Broadcast(bias, prod)
            && (Addmm(ms).Err? <==> Addmm(ms) == Err(ShapeMismatch))
            && (Addmm(ms).Err? <==> exists i :: 0 <= i < Max(|bias|, 2) && Clash(bias, prod, i))
            && (Addmm(ms).Ok? ==> |Addmm(ms).value| == Max(|bias|, 2))
  {
    BroadcastSizes(ms[0].shape, Mm([ms[1], ms[2]]).value);
  }

  /** addmm exactly as the source writes it: its last step is the source's
      broadcasting loop, which can read out of bounds. */
  function AddmmAsWritten(ms: MetaStack): Result<Shape>
  {
    if |ms| < 3 then Err(ArityError)
    else
      var t :- if |ms[2].shape| == 1 then Ok(ms[1])
               else var s :- Mm([ms[1], ms[2]]); Ok(VariableMeta(s, []));
      BinaryOpAsWritten([ms[0], t])
  }

  /** addmm with the corrected broadcast gives what the source gives wherever
      the source's loop stays in bounds, and a shape where it does not. */
  lemma AddmmAgreesWithSource(ms: MetaStack)
    ensures AddmmAsWritten(ms) != Err(UndefinedBehaviour) ==> Addmm(ms) == AddmmAsWritten(ms)
    ensures AddmmAsWritten(ms) == Err(UndefinedBehaviour) ==> Addmm(ms).Ok?
  {
    if |ms| >= 3 && (|ms[2].shape| == 1 || Mm([ms[1], ms[2]]).Ok?) {
      var t := if |ms[2].shape| == 1 then ms[1] else VariableMeta(Mm([ms[1], ms[2]]).value, []);
      AsWrittenAgreesUnlessUndefined([ms[0], t]);
      UndefinedOnlyWhereIntendedSucceeds([ms[0], t]);
    }
  }

  /** Bias [1, 2, 5] against [2, 4]·[4, 5]: the source's loop reads before the
      start of the product's shape, where [1, 2, 5] is intended. */
  lemma AddmmAsWrittenReadsOutOfBounds()
    ensures AddmmAsWritten([VariableMeta([1, 2, 5], []), VariableMeta([2, 4], []), VariableMeta([4, 5], [])]) == Err(UndefinedBehaviour)
    ensures Addmm([VariableMeta([1, 2, 5], []), VariableMeta([2, 4], []), VariableMeta([4, 5], [])]) == Ok([1, 2, 5])
  {
    var t0, t1: Shape := [1, 2, 5], [2, 5];
    assert BroadcastLoopAsWritten(t0, t1, 0, []) == BroadcastLoopAsWritten(t0, t1, 1, [5]);
    assert BroadcastLoopAsWritten(t0, t1, 1, [5]) == BroadcastLoopAsWritten(t0, t1, 2, [2, 5]);
    assert !Clash(t0, t1, 0) && !Clash(t0, t1, 1) && !Clash(t0, t1, 2);
    assert seq(3, k requires 0 <= k < 3 => BroadcastAt(t0, t1, 2 - k)) == [1, 2, 5];
  }

  /** A bias that clashes with the product fails; a bias of larger rank widens it. */
  lemma AddmmExamples()
    ensures Addmm([VariableMeta([3, 5], []), VariableMeta([2, 4], []), VariableMeta([4, 5], [])]) == Err(ShapeMismatch)
    ensures Addmm([VariableMeta([7, 1, 5], []), VariableMeta([2, 4], []), VariableMeta([4, 5], [])]) == Ok([7, 2, 5])
  {
    var p: Shape := [2, 5];
    assert Clash([3, 5], p, 1);
    var b: Shape := [7, 1, 5];
    assert !Clash(b, p, 0) && !Clash(b, p, 1) && !Clash(b, p, 2);
    assert seq(3, k requires 0 <= k < 3 => BroadcastAt(b, p, 2 - k)) == [7, 2, 5];
  }
}
