/**
 * The playback widget wrapper (`VideoPlayer` in the browser): it learns the
 * video's duration, forwards playback progress, and projects each
 * significant frame onto the progress bar as a percentage offset.
 */
module Player {
  import opened Wrappers
  import opened Records

  /** `frame.timestamp / duration * 100`: the marker's `left` offset, in percent. */
  function MarkerOffset(timestamp: real, duration: real): (r: real)
    requires duration > 0.0
    ensures r * duration == timestamp * 100.0
  {
    timestamp / duration * 100.0
  }

  /** One marker offset per frame, in frame-list order. */
  function Markers(frames: seq<Frame>, duration: real): (r: seq<real>)
    requires duration > 0.0
    ensures |r| == |frames|
    ensures forall i :: 0 <= i < |r| ==> r[i] * duration / 100.0 == frames[i].timestamp
  {
    seq(|frames|, i requires 0 <= i < |frames| => MarkerOffset(frames[i].timestamp, duration))
  }

  /**
   * The offset is 0% at the start, 100% at the end, above 100% past the end
   * (there is no clamping), and grows with the timestamp.
   */
  lemma MarkerOffsetScale(t: real, u: real, duration: real)
    requires duration > 0.0
    ensures MarkerOffset(0.0, duration) == 0.0
    ensures MarkerOffset(duration, duration) == 100.0
    ensures t > duration ==> MarkerOffset(t, duration) > 100.0
    ensures t <= u ==> MarkerOffset(t, duration) <= MarkerOffset(u, duration)
  {
    if t > duration {
      assert t / duration > 1.0;
    }
    if t <= u {
      assert t / duration <= u / duration;
    }
  }

  /** A list sorted by timestamp gives non-decreasing offsets. */
  lemma MarkersMonotone(frames: seq<Frame>, duration: real)
    requires duration > 0.0 && SortedByTime(frames)
    ensures forall i, j :: 0 <= i < j < |frames| ==> Markers(frames, duration)[i] <= Markers(frames, duration)[j]
  {
    forall i, j | 0 <= i < j < |frames|
      ensures Markers(frames, duration)[i] <= Markers(frames, duration)[j]
    {
      MarkerOffsetScale(frames[i].timestamp, frames[j].timestamp, duration);
    }
  }

  /** What the wrapper renders: a spinner, or the player with markers once the duration is known. */
  datatype PlayerView = Loading | Playing(url: string, markers: Option<seq<real>>)

  class VideoPlayer {
    var duration: real

    constructor ()
      ensures duration == 0.0
    {
      duration := 0.0;
    }

    /** The player's `onDuration` callback. */
    method OnDuration(dur: real)
      modifies this
      ensures duration == dur
    {
      duration := dur;
    }

    /** The render for the record `analysisData`. */
    function Render(analysisData: Option<Record>): (v: PlayerView)
      reads this
      ensures analysisData.None? || analysisData.value.videoUrl == "" <==> v.Loading?
      ensures v.Playing? ==> (v.markers.Some? <==> duration > 0.0)
      ensures v.Playing? && v.markers.Some? ==>
        |v.markers.value| == |analysisData.value.frames|
        && forall i :: 0 <= i < |v.markers.value| ==>
             v.markers.value[i] * duration / 100.0 == analysisData.value.frames[i].timestamp
    {
      if analysisData.None? || analysisData.value.videoUrl == "" then Loading
      else Playing(
        analysisData.value.videoUrl,
        if duration > 0.0 then Some(Markers(analysisData.value.frames, duration)) else None)
    }
  }

  /** `handleProgress`: the played seconds reach `onTimeUpdate` unchanged, when one is supplied. */
  function HandleProgress(playedSeconds: real, hasOnTimeUpdate: bool): (forwarded: Option<real>)
    ensures forwarded.Some? <==> hasOnTimeUpdate
    ensures forwarded.Some? ==> forwarded.value == playedSeconds
  {
    if hasOnTimeUpdate then Some(playedSeconds) else None
  }
}
