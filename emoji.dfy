/**
 * `process`: reads the two best predictions and, on a strict win, shows the
 * winner's glyph on the emoji element and moves it to the left (hand) or
 * the right (face).
 */
module Emoji {
  import opened Wrappers
  import opened Labels
  import opened TopK

  /** U+1F590, raised hand with fingers splayed. */
  const HAND_GLYPH: string := "\U{1F590}"

  /** U+1F468, man. */
  const FACE_GLYPH: string := "\U{1F468}"

  /** What the emoji element shows: its text and its two style classes. */
  datatype Display = Display(text: string, left: bool, right: bool)

  /** Exactly one of the two placement classes is set. */
  predicate Placed(d: Display)
  {
    d.left != d.right
  }

  /**
   * The display the result asks for, or `None` when the first prediction
   * does not strictly beat the second (a tie changes nothing).
   */
  function Decide(result: seq<Prediction>): (d: Option<Display>)
    requires |result| >= 2
    ensures d.Some? <==> result[0].probability > result[1].probability
    ensures d.Some? ==> Placed(d.value)
    ensures d.Some? ==> (d.value.left <==> result[0].className == Some(HAND))
    ensures d.Some? ==> d.value.text == (if d.value.left then HAND_GLYPH else FACE_GLYPH)
  {
    var a, b := result[0], result[1];
    if a.probability > b.probability then
      if a.className == Some(HAND) then Some(Display(HAND_GLYPH, true, false))
      else Some(Display(FACE_GLYPH, false, true))
    else None
  }

  /** The display after `process` has run on `result`. */
  function After(shown: Display, result: seq<Prediction>): Display
    requires |result| >= 2
  {
    match Decide(result)
    case Some(d) => d
    case None => shown
  }

  /** The emoji element of the page: its text and its `left`/`right` classes. */
  class EmojiElement {
    var text: string
    var left: bool
    var right: bool

    function View(): Display
      reads this
    {
      Display(text, left, right)
    }

    /** The element as the page's markup sets it up. */
    constructor (text: string, left: bool, right: bool)
      ensures View() == Display(text, left, right)
    {
      this.text, this.left, this.right := text, left, right;
    }

    /**
     * `process`. The two class toggles with a forced state set one class
     * and clear the other.
     */
    method Process(result: seq<Prediction>)
      requires |result| >= 2
      modifies this
      ensures View() == After(old(View()), result)
      ensures result[0].probability <= result[1].probability ==> View() == old(View())
      ensures old(Placed(View())) ==> Placed(View())
    {
      var a, b := result[0], result[1];
      if a.probability > b.probability {
        if a.className == Some(HAND) {
          text := HAND_GLYPH;
          left := true;
          right := false;
        } else {
          text := FACE_GLYPH;
          left := false;
          right := true;
        }
      }
    }
  }
}
