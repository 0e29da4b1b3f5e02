/** Operators whose result is a value known at inference time rather than a
    tensor shape: prim::Constant and prim::ListConstruct. */
module Values {
  import opened Metadata

  /** The output type of a prim::Constant node. OtherType stands for every type
      the source does not test for (strings, devices, ...). */
  datatype ConstType = FloatType | IntType | BoolType | NoneType | TensorType | OtherType

  /** primConstant: a tensor constant yields its sizes; an int or bool constant
      yields its value as a one-element list; a float yields [1]; None and any
      other type yield the empty list. `value` is the node's integer `value`
      attribute and `sizes` the sizes of its tensor attribute. */
  function PrimConstant(ty: ConstType, value: int, sizes: Shape): (r: seq<int>)
    ensures ty == TensorType ==> r == sizes
    ensures ty != TensorType ==> |r| <= 1
    ensures ty != TensorType ==> (r == [] <==> ty == NoneType || ty == OtherType)
    ensures ty == IntType || ty == BoolType ==> r == [value]
    ensures ty == FloatType ==> r == [1]
  {
    match ty
    case FloatType => [1]
    case IntType => [value]
    case BoolType => [value]
    case NoneType => []
    case TensorType => sizes
    case OtherType => []
  }

  /** The check listConstruct makes of one element before reading its value:
      it must be a scalar record, and its value is read unchecked. */
  function ElementCheck(m: VariableMeta): Outcome
  {
    if |m.shape| != 1 then Fail(NotScalar)
    else if m.intValue == [] then Fail(UndefinedBehaviour)
    else Pass
  }

  /** The values of a list of scalar records, or the error of the first element
      that is not one. */
  function ListValues(ms: MetaStack): Result<seq<int>>
  {
    if ms == [] then Ok([])
    else
      var pre :- ListValues(ms[..|ms| - 1]);
      var m := ms[|ms| - 1];
      match ElementCheck(m)
      case Fail(e) => Err(e)
      case Pass => Ok(pre + [m.intValue[0]])
  }

  /** listConstruct needs at least one element. */
  function ListConstructSpec(ms: MetaStack): Result<seq<int>>
  {
    if |ms| == 0 then Err(ArityError) else ListValues(ms)
  }

  method ListConstruct(ms: MetaStack) returns (r: Result<seq<int>>)
    ensures r == ListConstructSpec(ms)
  {
    if |ms| < 1 {
      return Err(ArityError);
    }
    var intValueList: seq<int> := [];
    for i := 0 to |ms|
      invariant ListValues(ms[..i]) == Ok(intValueList)
    {
      var ele := ms[i];
      assert ms[..i + 1][..i] == ms[..i];
      if |ele.shape| != 1 {
        ErrorInPrefixIsFinal(ms, i + 1);
        return Err(NotScalar);
      }
      if ele.intValue == [] {
        ErrorInPrefixIsFinal(ms, i + 1);
        return Err(UndefinedBehaviour);
      }
      intValueList := intValueList + [ele.intValue[0]];
    }
    assert ms[..|ms|] == ms;
    return Ok(intValueList);
  }

  /** Once a prefix fails, the whole list fails with the same error. */
  lemma {:induction false} ErrorInPrefixIsFinal(ms: MetaStack, n: nat)
    requires n <= |ms| && ListValues(ms[..n]).Err?
    ensures ListValues(ms) == ListValues(ms[..n])
    decreases |ms|
  {
    if n == |ms| {
      assert ms[..n] == ms;
    } else {
      var init := ms[..|ms| - 1];
      assert init[..n] == ms[..n];
      ErrorInPrefixIsFinal(init, n);
    }
  }

  /** The list succeeds exactly when every element is a known scalar, and then
      holds their values in order. */
  lemma {:induction false} ListValuesOk(ms: MetaStack)
    ensures ListValues(ms).Ok? <==> forall i :: 0 <= i < |ms| ==> ElementCheck(ms[i]) == Pass
    ensures ListValues(ms).Ok? ==> ListValues(ms).value == seq(|ms|, i requires 0 <= i < |ms| && ms[i].intValue != [] => ms[i].intValue[0])
  {
    if ms != [] {
      var init := ms[..|ms| - 1];
      ListValuesOk(init);
      assert forall i :: 0 <= i < |init| ==> init[i] == ms[i];
      if ListValues(ms).Ok? {
        var v := ListValues(ms).value;
        assert v == ListValues(init).value + [ms[|ms| - 1].intValue[0]];
        assert forall i :: 0 <= i < |ms| ==> v[i] == ms[i].intValue[0];
      }
    }
  }

  /** A failing list reports the error of its first element that is not a
      known scalar. */
  lemma {:induction false} ListValuesFirstError(ms: MetaStack, i: nat, e: ErrorKind)
    requires i < |ms| && ElementCheck(ms[i]) == Fail(e)
    requires forall j :: 0 <= j < i ==> ElementCheck(ms[j]) == Pass
    ensures ListValues(ms) == Err(e)
  {
    var pre := ms[..i];
    ListValuesOk(pre);
    assert ms[..i + 1][..i] == pre;
    assert ListValues(ms[..i + 1]) == Err(e);
    ErrorInPrefixIsFinal(ms, i + 1);
  }

  /** Listing the records of known scalars gives back the scalars. */
  lemma ListOfScalars(vs: seq<int>)
    ensures ListConstructSpec(seq(|vs|, i requires 0 <= i < |vs| => ScalarMeta(vs[i]))) == if vs == [] then Err(ArityError) else Ok(vs)
  {
    var ms := seq(|vs|, i requires 0 <= i < |vs| => ScalarMeta(vs[i]));
    ListValuesOk(ms);
    if vs != [] {
      assert ListValues(ms).value == vs;
    }
  }
}
