/**
 * The static configuration of the demo: the model's input resolution, how
 * many predictions are ranked, and the table from class index to label.
 */
module Labels {
  import opened Wrappers

  /**
   * Side of the square image the classifier takes (pixels). The resize to
   * IMAGE_SIZE x IMAGE_SIZE happens inside the classifier parameter of
   * `Pipeline.Predict`; the constant records that size.
   */
  const IMAGE_SIZE: nat := 224

  /** How many ranked predictions are requested from the score vector. */
  const TOPK_PREDICTIONS: nat := 2

  const HAND: string := "hand"
  const FACE: string := "face"

  /** Number of keys in the label table. */
  const CLASS_COUNT: nat := 2

  /**
   * Looks an index up in the label table. The table is an object literal
   * with the keys 0 and 1; any other index reads as `undefined`, modelled
   * as `None`.
   */
  function ClassName(index: nat): (name: Option<string>)
    ensures name.Some? <==> index < CLASS_COUNT
    ensures name == Some(HAND) <==> index == 0
    ensures name == Some(FACE) <==> index == 1
  {
    if index == 0 then Some(HAND)
    else if index == 1 then Some(FACE)
    else None
  }
}
