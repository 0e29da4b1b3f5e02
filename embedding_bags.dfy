/** The embedding-bag operators: aten::embedding_bag and
    fb::embedding_bag_byte_rowwise_offsets. Inputs are weight, indices,
    offsets and five flags; only the first output (the pooled rows) is shaped.
    `hasEndOffset` says whether the offsets carry a final end offset, in which
    case there is one bag fewer than offsets. */
module EmbeddingBags {
  import opened Metadata

  function Bit(b: bool): int { if b then 1 else 0 }

  /** aten::embedding_bag: one row per bag, each as wide as an embedding. With
      1-D indices the bags are delimited by 1-D offsets; with 2-D indices each
      row of indices is a bag. The embedding width is read unchecked from
      dimension 1 of the weight. */
  function EmbeddingBag(ms: MetaStack, hasEndOffset: bool): (r: Result<Shape>)
    ensures |ms| != 8 ==> r == Err(ArityError)
    ensures r.Ok? <==> |ms| == 8 && |ms[0].shape| >= 2
                       && (|ms[1].shape| == 2 || (|ms[1].shape| == 1 && |ms[2].shape| == 1))
    ensures r.Ok? ==> |r.value| == 2 && r.value[1] == ms[0].shape[1]
    ensures r.Ok? && |ms[1].shape| == 1 ==> r.value[0] == ms[2].shape[0] - Bit(hasEndOffset)
    ensures r.Ok? && |ms[1].shape| == 2 ==> r.value[0] == ms[1].shape[0]
    ensures |ms| == 8 && |ms[1].shape| != 1 && |ms[1].shape| != 2 ==> r == Err(RangeError)
  {
    if |ms| != 8 then Err(ArityError)
    else
      var weight, indices, offsets := ms[0].shape, ms[1].shape, ms[2].shape;
      if |indices| == 1 then
        if |offsets| != 1 then Err(ShapeMismatch)
        else if |weight| < 2 then Err(UndefinedBehaviour)
        else Ok([offsets[0] - Bit(hasEndOffset), weight[1]])
      else if |indices| == 2 then
        if |weight| < 2 then Err(UndefinedBehaviour)
        else Ok([indices[0], weight[1]])
      else Err(RangeError)
  }

  /** fb::embedding_bag_byte_rowwise_offsets: the weight rows are quantised
      bytes whose last 8 bytes hold a 4-byte scale and a 4-byte zero offset,
      so the embedding is 8 narrower than a weight row. Offsets and weight are
      indexed unchecked. */
  function EmbeddingBagByteRowwiseOffsets(ms: MetaStack, hasEndOffset: bool): (r: Result<Shape>)
    ensures |ms| != 8 ==> r == Err(ArityError)
    ensures r.Ok? <==> |ms| == 8 && |ms[2].shape| >= 1 && |ms[0].shape| >= 2
    ensures r.Ok? ==> r.value == [ms[2].shape[0] - Bit(hasEndOffset), ms[0].shape[1] - 8]
  {
    if |ms| != 8 then Err(ArityError)
    else
      var weight, offsets := ms[0].shape, ms[2].shape;
      if |offsets| < 1 || |weight| < 2 then Err(UndefinedBehaviour)
      else Ok([offsets[0] - Bit(hasEndOffset), weight[1] - 8])
  }

  /** On 1-D indices and offsets the two operators count the same bags, and the
      quantised rows are 8 bytes wider than the embeddings they decode to. */
  lemma ByteRowwiseMatchesFloatBags(ms: MetaStack, hasEndOffset: bool)
    requires |ms| == 8 && |ms[1].shape| == 1 && |ms[2].shape| == 1 && |ms[0].shape| >= 2
    ensures EmbeddingBag(ms, hasEndOffset).Ok? && EmbeddingBagByteRowwiseOffsets(ms, hasEndOffset).Ok?
    ensures EmbeddingBagByteRowwiseOffsets(ms, hasEndOffset).value
         == [EmbeddingBag(ms, hasEndOffset).value[0], EmbeddingBag(ms, hasEndOffset).value[1] - 8]
  {
  }

  /** With a final end offset, n + 1 offsets delimit n bags. */
  lemma EndOffsetCountsBags(ms: MetaStack, n: int)
    requires |ms| == 8 && |ms[1].shape| == 1 && ms[2].shape == [n + 1] && |ms[0].shape| >= 2
    ensures EmbeddingBag(ms, true) == Ok([n, ms[0].shape[1]])
    ensures EmbeddingBag(ms, false) == Ok([n + 1, ms[0].shape[1]])
  {
  }
}
