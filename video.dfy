/**
 * The playback-readiness check on the camera's video element.
 */
module Video {

  /**
   * The `readyState` of a media element, as the HTML Living Standard
   * defines it (section 4.8.11.7, "Ready states"), in increasing order of
   * how much data is buffered.
   */
  datatype ReadyState =
    | HaveNothing      // 0: no data at all
    | HaveMetadata     // 1: duration and dimensions known
    | HaveCurrentData  // 2: the current frame only
    | HaveFutureData   // 3: the current frame and at least a little beyond it
    | HaveEnoughData   // 4: enough to play through

  /** The numeric value the DOM reports for each ready state. */
  function Code(s: ReadyState): (c: nat)
    ensures c <= 4
    ensures c > 2 <==> s == HaveFutureData || s == HaveEnoughData
    ensures s == HaveNothing <==> c == 0
    ensures s == HaveEnoughData <==> c == 4
  {
    match s
    case HaveNothing => 0
    case HaveMetadata => 1
    case HaveCurrentData => 2
    case HaveFutureData => 3
    case HaveEnoughData => 4
  }

  /** The four fields of the video element that the check reads. */
  datatype VideoState = VideoState(
    currentTime: real,
    paused: bool,
    ended: bool,
    readyState: ReadyState)

  /**
   * The element is playing: past the start, neither paused nor ended, and
   * with data beyond the current frame buffered.
   */
  function IsVideoPlaying(video: VideoState): (playing: bool)
    ensures playing <==>
      && video.currentTime > 0.0
      && !video.paused
      && !video.ended
      && (video.readyState == HaveFutureData || video.readyState == HaveEnoughData)
    ensures video.currentTime <= 0.0 ==> !playing
  {
    video.currentTime > 0.0 && !video.paused && !video.ended && Code(video.readyState) > 2
  }
}
