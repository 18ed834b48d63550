/**
 * One click of the button: `run` grabs a frame, `predict` crops it and asks
 * the classifier for scores, the scores are ranked, and `process` updates
 * the emoji. The classifier (with the resize that feeds it) is a parameter:
 * a function from the crop box of the current frame to its score vector.
 */
module Pipeline {
  import opened Wrappers
  import opened Labels
  import opened Crop
  import opened TopK
  import opened Emoji

  /**
   * `predict`: the crop box of an `imgHeight` x `imgWidth` frame is handed
   * to the classifier, and the best `TOPK_PREDICTIONS` classes of its
   * scores come back.
   */
  method Predict(imgHeight: nat, imgWidth: nat, classify: Box -> seq<real>)
    returns (classes: seq<Prediction>, ghost indices: seq<nat>)
    requires Croppable(imgHeight, imgWidth)
    requires TOPK_PREDICTIONS <= |classify(CropBox(imgHeight, imgWidth))|
    ensures IsTopK(classify(CropBox(imgHeight, imgWidth)), TOPK_PREDICTIONS, indices)
    ensures classes == Labelled(classify(CropBox(imgHeight, imgWidth)), indices)
    ensures |classes| == TOPK_PREDICTIONS
    ensures classes[0].probability >= classes[1].probability
    ensures forall k :: 0 <= k < |classes| ==>
      classes[k].probability in classify(CropBox(imgHeight, imgWidth))
  {
    var box := CropBox(imgHeight, imgWidth);
    var logits := classify(box);
    classes, indices := GetTopKClasses(logits, TOPK_PREDICTIONS);
    forall k | 0 <= k < |classes|
      ensures classes[k].probability in logits
    {
      assert classes[k].probability == logits[indices[k]];
    }
  }

  /**
   * `run`: predict on the current frame, then update the emoji. For the
   * two-class model the winner is the strictly higher score; a tie leaves
   * the emoji as it was.
   */
  method Run(emoji: EmojiElement, imgHeight: nat, imgWidth: nat, classify: Box -> seq<real>)
    returns (ghost indices: seq<nat>)
    requires Croppable(imgHeight, imgWidth)
    requires TOPK_PREDICTIONS <= |classify(CropBox(imgHeight, imgWidth))|
    modifies emoji
    ensures var scores := classify(CropBox(imgHeight, imgWidth));
      && IsTopK(scores, TOPK_PREDICTIONS, indices)
      && emoji.View() == After(old(emoji.View()), Labelled(scores, indices))
    ensures var scores := classify(CropBox(imgHeight, imgWidth));
      |scores| == CLASS_COUNT ==>
        emoji.View() == TwoClassOutcome(old(emoji.View()), scores[0], scores[1])
  {
    var result;
    result, indices := Predict(imgHeight, imgWidth, classify);
    emoji.Process(result);
    TwoClassRun(classify(CropBox(imgHeight, imgWidth)), indices, old(emoji.View()));
  }

  /**
   * What the two-class demo shows after scoring `hand` and `face`: the
   * hand glyph on the left, the face glyph on the right, or the previous
   * display on a tie.
   */
  function TwoClassOutcome(shown: Display, hand: real, face: real): Display
  {
    if hand > face then Display(HAND_GLYPH, true, false)
    else if face > hand then Display(FACE_GLYPH, false, true)
    else shown
  }

  /** Ranking two scores and processing them yields the two-class outcome. */
  lemma TwoClassRun(scores: seq<real>, indices: seq<nat>, shown: Display)
    requires IsTopK(scores, TOPK_PREDICTIONS, indices)
    ensures |scores| == CLASS_COUNT ==>
      After(shown, Labelled(scores, indices)) == TwoClassOutcome(shown, scores[0], scores[1])
  {
    if |scores| == CLASS_COUNT {
      TopTwoOfTwo(scores, indices);
    }
  }

  /** Scores [0.9, 0.1] rank as hand 0.9, then face 0.1. */
  lemma HandFirstRanking(indices: seq<nat>)
    requires IsTopK([0.9, 0.1], TOPK_PREDICTIONS, indices)
    ensures Labelled([0.9, 0.1], indices) ==
      [Prediction(Some(HAND), 0.9), Prediction(Some(FACE), 0.1)]
  {
    TopTwoOfTwo([0.9, 0.1], indices);
  }

  /** Scores [0.3, 0.3] tie, and the emoji is left as it was. */
  lemma TieKeepsDisplay(indices: seq<nat>, shown: Display)
    requires IsTopK([0.3, 0.3], TOPK_PREDICTIONS, indices)
    ensures After(shown, Labelled([0.3, 0.3], indices)) == shown
  {
    TopTwoOfTwo([0.3, 0.3], indices);
  }

  /** Scores [0.2, 0.8] show the face glyph on the right. */
  lemma FaceWinsDisplay(indices: seq<nat>, shown: Display)
    requires IsTopK([0.2, 0.8], TOPK_PREDICTIONS, indices)
    ensures After(shown, Labelled([0.2, 0.8], indices)) == Display(FACE_GLYPH, false, true)
  {
    TopTwoOfTwo([0.2, 0.8], indices);
  }
}
