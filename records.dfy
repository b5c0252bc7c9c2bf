/**
 * The analysis record exchanged between the browser and the server, and the
 * significant frames it holds.
 */
module Records {
  import opened Wrappers
  import opened Decimal

  /** One entry of `significant_frames`. */
  datatype Frame = Frame(id: int, timestamp: real, segmentType: string, frameUrl: string, labelText: string)

  /**
   * The analysis record (`analysis.json` on the server, `data` in the
   * browser). `categories` is absent until labels are saved, and the server
   * stores whatever the request carried there, `null` included.
   */
  datatype Record = Record(
    videoId: string,
    ease: string,
    duration: real,
    timestamps: seq<real>,
    frames: seq<Frame>,
    plotUrl: Option<string>,
    videoUrl: string,
    categories: Option<seq<string>>)

  /** The outcome of one HTTP round trip whose success body carries `analysis_data`. */
  datatype Reply = Success(analysisData: Record) | Failure

  /** The proximity that makes a new frame a duplicate of an existing one, in seconds. */
  const Tolerance: real := 0.5

  function Abs(x: real): real
  {
    if x < 0.0 then -x else x
  }

  /** `Math.abs(a - b) < 0.5`. */
  predicate Near(a: real, b: real)
  {
    Abs(a - b) < Tolerance
  }

  predicate Apart(f: Frame, g: Frame)
  {
    !Near(f.timestamp, g.timestamp)
  }

  /** No two frames of the list are within the tolerance of each other. */
  predicate Separated(s: seq<Frame>)
  {
    forall i, j :: 0 <= i < j < |s| ==> Apart(s[i], s[j])
  }

  predicate SortedByTime(s: seq<Frame>)
  {
    forall i, j :: 0 <= i < j < |s| ==> s[i].timestamp <= s[j].timestamp
  }

  /** The file name the server gives the image of the frame at position `k`. */
  function SignificantFrameName(k: nat): string
  {
    "significant_frame_" + NatToString(k) + ".png"
  }

  /** Different positions never share an image file name. */
  lemma SignificantFrameNameInjective(j: nat, k: nat)
    requires SignificantFrameName(j) == SignificantFrameName(k)
    ensures j == k
  {
    var a, b := SignificantFrameName(j), SignificantFrameName(k);
    assert a[18..|a| - 4] == NatToString(j);
    assert b[18..|b| - 4] == NatToString(k);
    NatToStringInjective(j, k);
  }
}
