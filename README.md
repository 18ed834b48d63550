# Hand/face webcam classifier: verified model of the decision logic

The demo captures webcam video, runs one frame through a pretrained
two-class image classifier (`hand`, `face`) and shows the winning class as
an emoji. Everything numeric around the classifier call lives in
`src/script.js`, and that is what this project models:

- **Playback readiness** (`isVideoPlaying`): the video element is playing
  when it is past the start, neither paused nor ended, and has data beyond
  the current frame buffered (`readyState` 3 or 4, as the HTML Living
  Standard numbers its media ready states).
- **Centre crop** (inside `predict`): the box handed to the crop-and-resize
  call, `[top, left, bottom, right]` as fractions of the frame. A square
  frame keeps the whole image; otherwise the box is the largest centred
  square, of side `min(height, width)` pixels.
- **Top-K ranking** (`getTopKClasses`): scores are paired with their class
  index, sorted in place by descending score with a stable sort, the first
  `topK` are copied into fixed-size arrays and labelled through the class
  table (`0 -> "hand"`, `1 -> "face"`, anything else `undefined`).
- **Result interpretation** (`process`): only when the first prediction
  strictly beats the second does the emoji change, to the hand glyph
  (U+1F590) with the `left` class or, for any other winner, the face glyph
  (U+1F468) with the `right` class.
- **One click** (`run` and `predict` without the tensor work): crop box ->
  classifier -> ranking -> emoji.

Files and modules: `wrappers.dfy` (`Option`, standing for JavaScript's
`undefined`), `labels.dfy` (constants and the class table), `video.dfy`,
`crop.dfy`, `topk.dfy`, `emoji.dfy` (the emoji element as a class with
`text`, `left` and `right` fields) and `pipeline.dfy`.

Scores are exact `real` numbers and the crop arithmetic uses `real`
division, so every equation below holds exactly. Ranking is specified by
`TopK.IsTopK`: the returned classes are valid, each is ranked ahead of the
later ones and of every class left out, where "ahead" means a higher score
or an equal score with a smaller index. `TopK.TopKIsUnique` shows this
determines the answer, so the stable sort's tie-break (first-seen index
wins) is part of the proved behaviour.

## Model

| member | source | states |
|---|---|---|
| `Video.IsVideoPlaying` | src/script.js:45-47 | true exactly when currentTime > 0, not paused, not ended and readyState is HAVE_FUTURE_DATA or HAVE_ENOUGH_DATA; false whenever currentTime is 0 |
| `Labels.ClassName` | src/script.js:13-16 | index 0 is "hand", index 1 is "face", and every other index is undefined |
| `Crop.CropBox` | src/script.js:82-96 | a square frame, the empty 0 x 0 one included, gives (0,0,1,1); any frame gives a box centred on both axes (left+right = top+bottom = 1), inside [0,1], spanning min(h,w) pixels on each axis, and covering the whole of the shorter axis |
| `Crop.CropBoxIsLargest` | src/script.js:89-96 | no box inside the frame that is square in pixels has a side longer than min(h,w), so the crop is the largest square |
| `Crop.CentredSquareIsUnique` | src/script.js:89-96 | two centred boxes that both span min(h,w) pixels on each axis are equal; since CropBox is such a box, it is the only one |
| `Crop.SquareShortcutAgrees` | src/script.js:85-96 | the general formula of the non-square branch, applied to a square frame, already gives (0,0,1,1): the square test is a shortcut, not a different answer |
| `Crop.CropBoxIsGeneralBox` | src/script.js:85-96 | for every frame with both sides above zero, square or not, the crop box equals the general formula of the non-square branch |
| `TopK.SortByScoreDescending` | src/script.js:123-125 | sorting entries that arrive in index order by score alone, stably, leaves them a permutation of the input in which each is ranked ahead of the next (higher score, or equal score and smaller index) |
| `TopK.InsertIntoRanked` | src/script.js:123-125 | one insertion step extends the ranked prefix by one entry, keeps the rest in place and keeps the multiset of entries |
| `TopK.RankScores` | src/script.js:119-125 | the sorted `valuesAndIndices` is a permutation of the (score, index) pairs and is ranked |
| `TopK.GetTopKClasses` | src/script.js:116-141 | with topK <= number of scores: exactly topK predictions, the topK best classes best first (IsTopK), each labelled through the class table with its own score, probabilities non-increasing, indices pairwise distinct |
| `TopK.RankedEntries` | src/script.js:119-122 | every entry of a ranking carries a valid class index with that class's score, and every class appears |
| `TopK.TopOfRanking` | src/script.js:126-131 | the first topK entries of a ranking are the topK best classes |
| `TopK.TopKIsUnique` | src/script.js:123-131 | two answers that both satisfy IsTopK are equal: the ranking, tie-break included, is determined by the scores |
| `TopK.TopKIsDistinct` | src/script.js:126-131 | the returned class indices are pairwise distinct |
| `TopK.FullRankingIsPermutation` | src/script.js:119-131 | with topK equal to the number of scores, the indices are a permutation of 0 .. n-1 |
| `TopK.TopTwoOfTwo` | src/script.js:116-131 | with two scores and topK = 2 the order is [1, 0] when score 1 is strictly higher, else [0, 1] |
| `Emoji.Decide` | src/script.js:143-160 | an update happens exactly on a strict win of the first prediction; it sets exactly one of left/right, left exactly when the winner is "hand", with the hand glyph on the left and the face glyph on the right |
| `Emoji.EmojiElement.Process` | src/script.js:143-160 | the element becomes what Decide asks for, and is unchanged unless the first probability strictly exceeds the second; once exactly one placement class is set, that stays so |
| `Pipeline.Predict` | src/script.js:78-108 | the classifier sees the crop box of the frame; the result is the TOPK_PREDICTIONS best classes of its scores, labelled, exactly two of them, the first at least as probable as the second, each probability one of the classifier's scores |
| `Pipeline.Run` | src/script.js:168-172 | after one click the emoji is what process makes of the ranking; with two scores, hand shows on the left on a strict hand win, face on the right on a strict face win, and a tie leaves it unchanged |
| `Pipeline.TwoClassRun` | src/script.js:143-160 | ranking two scores and processing them gives the two-class outcome (higher score wins, tie keeps the display) |
| `Pipeline.HandFirstRanking` | src/script.js:133-140 | scores [0.9, 0.1] rank as hand 0.9 then face 0.1 |
| `Pipeline.TieKeepsDisplay` | src/script.js:143-145 | scores [0.3, 0.3] leave the emoji as it was |
| `Pipeline.FaceWinsDisplay` | src/script.js:143-158 | scores [0.2, 0.8] show the face glyph with left unset and right set |

## Left out

- Camera start and stop (`initCam`, `stopCam`): browser media I/O driven by promises.
- Model loading and the warm-up prediction (`loadModel`): network fetch and calls into the tensor library.
- The tensor work in `predict` (dividing by 255, adding the batch dimension, `cropAndResize`, the classifier itself, `tf.tidy`): foreign numeric code; the classifier and resize are one function parameter from crop box to scores.
- Status text and `performance.now()` timings: DOM and wall-clock side effects.
- `console.log` calls in `process`: logging only.
- Float32 rounding of scores and the comparator's NaN behaviour: scores are exact reals.
- `main` and the `onclick` wiring: event glue with no logic.
- Crop.CropBox: requires the frame to be square or to have both sides above zero. A 0 x w or h x 0 frame with w, h > 0 makes the source divide 0 by 0 and yields NaN edges, which exact reals cannot represent; a playing video never yields such a frame.
- TopK.GetTopKClasses: requires topK <= number of scores; a larger topK makes the source read past the end of `valuesAndIndices` and throw.
- Emoji.EmojiElement.Process: requires at least two predictions; with fewer, the source reads a property of `undefined` and throws.
- `valuesAndIndices` is filled in a preallocated array rather than grown with `push`; the contents are the same.
- The sort is an insertion sort: JavaScript's stable `Array.prototype.sort` promises the order, not the algorithm, so only the resulting order is modelled.
