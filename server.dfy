/**
 * The analysis server's record endpoints (`backend/app.py`): the upload
 * filter, and the frame-list and label updates of the stored analysis
 * record. The `analysis.json` files are a map from video id to record.
 */
module Server {
  import opened Wrappers
  import opened Decimal
  import opened Records

  const AllowedExtensions: set<string> := {"mp4", "mov", "avi"}

  /** The text after the last `c`, or all of `s` when it has none. */
  function AfterLast(s: string, c: char): (r: string)
    ensures |r| <= |s| && c !in r
    ensures r == s[|s| - |r|..]
  {
    if |s| == 0 || s[|s| - 1] == c then []
    else
      var r := AfterLast(s[..|s| - 1], c);
      assert (s[..|s| - 1])[|s| - 1 - |r|..] + [s[|s| - 1]] == s[|s| - 1 - |r|..];
      r + [s[|s| - 1]]
  }

  /** When `s` holds a `c`, the text after the last one is preceded by it. */
  lemma {:induction false} AfterLastPrecededBy(s: string, c: char)
    requires c in s
    ensures |AfterLast(s, c)| < |s| && s[|s| - |AfterLast(s, c)| - 1] == c
    decreases |s|
  {
    if s[|s| - 1] != c {
      assert c in s[..|s| - 1] by {
        var k :| 0 <= k < |s| && s[k] == c;
        assert s[..|s| - 1][k] == c;
      }
      AfterLastPrecededBy(s[..|s| - 1], c);
    }
  }

  /** Whatever precedes the last separator, the text after it is what follows it. */
  lemma {:induction false} AfterLastOfJoin(stem: string, c: char, tail: string)
    requires c !in tail
    ensures AfterLast(stem + [c] + tail, c) == tail
    decreases |tail|
  {
    var s := stem + [c] + tail;
    if |tail| == 0 {
      assert s[|s| - 1] == c;
    } else {
      assert s[..|s| - 1] == stem + [c] + tail[..|tail| - 1];
      AfterLastOfJoin(stem, c, tail[..|tail| - 1]);
      assert tail == tail[..|tail| - 1] + [tail[|tail| - 1]];
    }
  }

  /** Python's `str.lower` on ASCII letters. */
  function Lower(s: string): (r: string)
    ensures |r| == |s|
  {
    seq(|s|, i requires 0 <= i < |s| => if 'A' <= s[i] <= 'Z' then (s[i] as int + 32) as char else s[i])
  }

  /**
   * `allowed_file`: a dot, and an allowed extension after the last dot, in
   * any letter case; that is, the name ends in a dot and three characters
   * that lower-case to `mp4`, `mov` or `avi`.
   */
  predicate AllowedFile(filename: string)
  {
    '.' in filename && Lower(AfterLast(filename, '.')) in AllowedExtensions
  }

  /** No allowed extension contains a dot, and each has three characters. */
  lemma AllowedExtensionShape(ext: string)
    requires Lower(ext) in AllowedExtensions
    ensures |ext| == 3 && '.' !in ext
  {
    var e := Lower(ext);
    assert e == "mp4" || e == "mov" || e == "avi";
    assert forall k :: 0 <= k < |ext| ==> ext[k] == '.' ==> e[k] == '.';
  }

  /** A name is accepted exactly when it ends in a dot and three characters that lower-case to an allowed extension. */
  lemma AllowedFileIffSuffix(filename: string)
    ensures AllowedFile(filename) <==>
      |filename| >= 4 && filename[|filename| - 4] == '.' && Lower(filename[|filename| - 3..]) in AllowedExtensions
  {
    var r := AfterLast(filename, '.');
    if AllowedFile(filename) {
      AllowedExtensionShape(r);
      AfterLastPrecededBy(filename, '.');
    }
    if |filename| >= 4 && filename[|filename| - 4] == '.' && Lower(filename[|filename| - 3..]) in AllowedExtensions {
      var n := |filename|;
      AllowedExtensionShape(filename[n - 3..]);
      assert filename == filename[..n - 4] + ['.'] + filename[n - 3..];
      AfterLastOfJoin(filename[..n - 4], '.', filename[n - 3..]);
    }
  }

  /** A name is accepted exactly when the extension after its last dot lower-cases to an allowed one. */
  lemma AllowedFileOfExtension(stem: string, ext: string)
    requires '.' !in ext
    ensures AllowedFile(stem + "." + ext) <==> Lower(ext) in AllowedExtensions
  {
    AfterLastOfJoin(stem, '.', ext);
    assert (stem + "." + ext)[|stem|] == '.';
  }

  /** Upper-case extensions are accepted too. */
  lemma UpperCaseExtensionAllowed(stem: string)
    ensures AllowedFile(stem + ".MP4") && AllowedFile(stem + ".Mov")
  {
    assert AllowedFile(stem + ".MP4") by {
      assert stem + ".MP4" == stem + "." + "MP4";
      AllowedFileOfExtension(stem, "MP4");
      assert Lower("MP4") == "mp4";
    }
    assert stem + ".Mov" == stem + "." + "Mov";
    AllowedFileOfExtension(stem, "Mov");
    assert Lower("Mov") == "mov";
  }

  /** Other extensions, and names without a dot, are refused. */
  lemma OtherFilesRefused(stem: string)
    ensures !AllowedFile(stem + ".mkv")
    ensures !AllowedFile("mp4")
  {
    assert stem + ".mkv" == stem + "." + "mkv";
    AllowedFileOfExtension(stem, "mkv");
    assert Lower("mkv") == "mkv";
  }

  /** `os.path.basename` of a URL path. */
  function Basename(path: string): string
  {
    AfterLast(path, '/')
  }

  /** The URL under which the image of the frame at position `k` is served. */
  function FrameUrl(videoId: string, k: nat): string
  {
    "/results/" + videoId + "/" + SignificantFrameName(k)
  }

  lemma BasenameOfFrameUrl(videoId: string, k: nat)
    ensures Basename(FrameUrl(videoId, k)) == SignificantFrameName(k)
  {
    var name := SignificantFrameName(k);
    assert '/' !in name by {
      assert forall i :: 18 <= i < |name| - 4 ==> IsDigit(name[i]);
    }
    AfterLastOfJoin("/results/" + videoId, '/', name);
    assert FrameUrl(videoId, k) == ("/results/" + videoId) + ['/'] + name;
  }

  /** The frames as the server renumbers them: ids from 1 and image URLs by position. */
  function Renumbered(videoId: string, frames: seq<Frame>): seq<Frame>
  {
    seq(|frames|, i requires 0 <= i < |frames| => frames[i].(id := i + 1, frameUrl := FrameUrl(videoId, i)))
  }

  /** The image files a frame list refers to. */
  function FrameFiles(frames: seq<Frame>): set<string>
  {
    set f | f in frames :: Basename(f.frameUrl)
  }

  /** The image files that the frame list at positions `0..n` refers to after renumbering. */
  function PositionFiles(n: nat): set<string>
  {
    set k | 0 <= k < n :: SignificantFrameName(k)
  }

  /** One more frame adds its own image to the files of a prefix. */
  lemma FrameFilesOfLonger(frames: seq<Frame>, i: nat)
    requires i < |frames|
    ensures FrameFiles(frames[..i + 1]) == FrameFiles(frames[..i]) + {Basename(frames[i].frameUrl)}
  {
    var longer, shorter := frames[..i + 1], frames[..i];
    assert longer == shorter + [frames[i]];
    forall name | name in FrameFiles(longer) ensures name in FrameFiles(shorter) + {Basename(frames[i].frameUrl)} {
      var f :| f in longer && name == Basename(f.frameUrl);
    }
    assert frames[i] in longer;
  }

  /** `for frame in ...: existing_frame_files.add(os.path.basename(frame['frame_url']))`. */
  method CollectFrameFiles(frames: seq<Frame>) returns (names: set<string>)
    ensures names == FrameFiles(frames)
  {
    names := {};
    var i := 0;
    while i < |frames|
      invariant 0 <= i <= |frames|
      invariant names == FrameFiles(frames[..i])
    {
      FrameFilesOfLonger(frames, i);
      names := names + {Basename(frames[i].frameUrl)};
      i := i + 1;
    }
    assert frames[..i] == frames;
  }

  /** Every renumbered frame refers to the image of its own position, and to no other. */
  lemma RenumberedFiles(videoId: string, frames: seq<Frame>)
    ensures forall i :: 0 <= i < |frames| ==> Basename(Renumbered(videoId, frames)[i].frameUrl) == SignificantFrameName(i)
    ensures FrameFiles(Renumbered(videoId, frames)) == PositionFiles(|frames|)
  {
    var out := Renumbered(videoId, frames);
    forall i | 0 <= i < |out| ensures Basename(out[i].frameUrl) == SignificantFrameName(i) {
      BasenameOfFrameUrl(videoId, i);
    }
    forall name | name in PositionFiles(|frames|) ensures name in FrameFiles(out) {
      var k :| 0 <= k < |frames| && name == SignificantFrameName(k);
      assert out[k] in out;
    }
  }

  /**
   * The renumbering loop of `update_timestamps`: frame `i` gets id `i + 1`
   * and the URL of `significant_frame_<i>.png`, and that name joins the set
   * of files still in use. Timestamps, segment types and labels are kept.
   */
  method RenumberFrames(videoId: string, frames: seq<Frame>) returns (out: seq<Frame>, updated: set<string>)
    ensures |out| == |frames|
    ensures forall i :: 0 <= i < |out| ==>
      && out[i].id == i + 1
      && out[i].frameUrl == FrameUrl(videoId, i)
      && out[i].timestamp == frames[i].timestamp
      && out[i].segmentType == frames[i].segmentType
      && out[i].labelText == frames[i].labelText
    ensures out == Renumbered(videoId, frames)
    ensures updated == PositionFiles(|frames|)
  {
    out := [];
    updated := {};
    var idx := 0;
    while idx < |frames|
      invariant 0 <= idx <= |frames|
      invariant |out| == idx
      invariant forall i :: 0 <= i < idx ==> out[i] == frames[i].(id := i + 1, frameUrl := FrameUrl(videoId, i))
      invariant updated == PositionFiles(idx)
    {
      var frame := frames[idx].(frameUrl := FrameUrl(videoId, idx));
      frame := frame.(id := idx + 1);
      out := out + [frame];
      updated := updated + {SignificantFrameName(idx)};
      idx := idx + 1;
    }
  }

  /**
   * `frames_to_delete`: the files the old list referred to and the new one
   * does not. No file the stored list refers to is deleted.
   */
  lemma StaleFilesSpareNewFrames(videoId: string, oldFrames: seq<Frame>, frames: seq<Frame>)
    ensures var stored := Renumbered(videoId, frames);
      var toDelete := FrameFiles(oldFrames) - PositionFiles(|frames|);
      && toDelete <= FrameFiles(oldFrames)
      && forall i :: 0 <= i < |stored| ==> Basename(stored[i].frameUrl) !in toDelete
  {
    var stored := Renumbered(videoId, frames);
    forall i | 0 <= i < |stored| ensures Basename(stored[i].frameUrl) in PositionFiles(|frames|) {
      BasenameOfFrameUrl(videoId, i);
    }
  }

  /** The image of position `k` is among the first `n` exactly when `k < n`. */
  lemma PositionFilesMember(n: nat, k: nat)
    ensures SignificantFrameName(k) in PositionFiles(n) <==> k < n
  {
    if SignificantFrameName(k) in PositionFiles(n) {
      var j :| 0 <= j < n && SignificantFrameName(j) == SignificantFrameName(k);
      SignificantFrameNameInjective(j, k);
    }
  }

  /** The images at positions `n..m`. */
  function TailFiles(n: nat, m: nat): set<string>
  {
    set k | n <= k < m :: SignificantFrameName(k)
  }

  /** A file among the first `m` and not among the first `n` is at a position in `n..m`. */
  lemma PositionDifferenceInTail(n: nat, m: nat, name: string)
    requires name in PositionFiles(m) && name !in PositionFiles(n)
    ensures name in TailFiles(n, m)
  {
    var k :| 0 <= k < m && name == SignificantFrameName(k);
    PositionFilesMember(n, k);
  }

  /** A file at a position in `n..m` is among the first `m` and not among the first `n`. */
  lemma TailInPositionDifference(n: nat, m: nat, name: string)
    requires name in TailFiles(n, m)
    ensures name in PositionFiles(m) && name !in PositionFiles(n)
  {
    var k :| n <= k < m && name == SignificantFrameName(k);
    PositionFilesMember(n, k);
    PositionFilesMember(m, k);
  }

  /**
   * When the stored list was itself renumbered from a list of `m` frames, an
   * update to `n` frames deletes exactly the images at positions `n..m`.
   */
  lemma ShrinkDeletesTail(videoId: string, previous: seq<Frame>, frames: seq<Frame>)
    ensures FrameFiles(Renumbered(videoId, previous)) - PositionFiles(|frames|)
         == TailFiles(|frames|, |previous|)
  {
    RenumberedFiles(videoId, previous);
    var n, m := |frames|, |previous|;
    forall name | name in PositionFiles(m) - PositionFiles(n) ensures name in TailFiles(n, m) {
      PositionDifferenceInTail(n, m, name);
    }
    forall name | name in TailFiles(n, m) ensures name in PositionFiles(m) - PositionFiles(n) {
      TailInPositionDifference(n, m, name);
    }
  }

  /** The labels of `frames` after the positional merge of `labels`. */
  function MergedLabels(frames: seq<Frame>, labels: seq<string>): seq<Frame>
  {
    seq(|frames|, i requires 0 <= i < |frames| =>
      if i < |labels| then frames[i].(labelText := labels[i]) else frames[i])
  }

  /**
   * The label loop of `save_labels`: label `idx` goes to frame `idx` when
   * there is one; extra labels are ignored and frames without a label keep
   * their old one.
   */
  method MergeLabels(frames: seq<Frame>, labels: seq<string>) returns (out: seq<Frame>)
    ensures |out| == |frames|
    ensures forall i :: 0 <= i < |out| && i < |labels| ==> out[i] == frames[i].(labelText := labels[i])
    ensures forall i :: |labels| <= i < |out| ==> out[i] == frames[i]
    ensures out == MergedLabels(frames, labels)
  {
    out := frames;
    var idx := 0;
    while idx < |labels|
      invariant 0 <= idx <= |labels|
      invariant |out| == |frames|
      invariant forall i :: 0 <= i < |out| ==>
        out[i] == if i < idx then frames[i].(labelText := labels[i]) else frames[i]
    {
      if idx < |out| {
        out := out[idx := out[idx].(labelText := labels[idx])];
      }
      idx := idx + 1;
    }
  }

  /** The JSON reply of an endpoint: the stored record, or an error status. */
  datatype Response = Ok(analysisData: Record) | Error(status: int, message: string)

  /** Python's `not video_id`: absent or empty. */
  predicate MissingId(videoId: Option<string>)
  {
    videoId.None? || videoId.value == ""
  }

  class Store {
    /** `results/<video_id>/analysis.json`, for every video analysed so far. */
    var records: map<string, Record>

    constructor ()
      ensures records == map[]
    {
      records := map[];
    }

    /**
     * `/analyze`. `file` is the name of the uploaded `file` part, if any;
     * `analysis` is what the analysis run produced for the new id `videoId`
     * (`None` when it raised).
     */
    method AnalyzeVideo(file: Option<string>, videoId: string, analysis: Option<Record>) returns (resp: Response)
      requires analysis.Some? ==> analysis.value.videoId == videoId
      modifies this
      ensures file.None? || file.value == "" || !AllowedFile(file.value) ==>
        resp.Error? && resp.status == 400 && records == old(records)
      ensures file.Some? && file.value != "" && AllowedFile(file.value) && analysis.None? ==>
        resp.Error? && resp.status == 500 && records == old(records)
      ensures file.Some? && file.value != "" && AllowedFile(file.value) && analysis.Some? ==>
        resp == Ok(analysis.value) && records == old(records)[videoId := analysis.value]
    {
      if file.None? {
        return Error(400, "No file part");
      }
      if file.value == "" {
        return Error(400, "No selected file");
      }
      if AllowedFile(file.value) {
        if analysis.None? {
          return Error(500, "analysis failed");
        }
        records := records[videoId := analysis.value];
        resp := Ok(analysis.value);
      } else {
        resp := Error(400, "Invalid file type");
      }
    }

    /**
     * `/update_timestamps`: stores the request's frames, renumbered, in place
     * of the old list, and returns the record it stored together with the
     * names of the image files to delete.
     */
    method UpdateTimestamps(videoId: Option<string>, frames: Option<seq<Frame>>)
      returns (resp: Response, toDelete: set<string>)
      modifies this
      ensures MissingId(videoId) || frames.None? ==>
        resp == Error(400, "Missing video_id or significant_frames") && records == old(records) && toDelete == {}
      ensures !MissingId(videoId) && frames.Some? && videoId.value !in old(records) ==>
        resp == Error(404, "Analysis data not found") && records == old(records) && toDelete == {}
      ensures !MissingId(videoId) && frames.Some? && videoId.value in old(records) ==>
        var previous := old(records)[videoId.value];
        var stored := previous.(frames := Renumbered(videoId.value, frames.value));
        && records == old(records)[videoId.value := stored]
        && resp == Ok(stored)
        && toDelete == FrameFiles(previous.frames) - FrameFiles(stored.frames)
    {
      toDelete := {};
      if MissingId(videoId) || frames.None? {
        return Error(400, "Missing video_id or significant_frames"), {};
      }
      var vid := videoId.value;
      if vid !in records {
        return Error(404, "Analysis data not found"), {};
      }
      var analysisData := records[vid];
      var existing := CollectFrameFiles(analysisData.frames);
      var renumbered, updated := RenumberFrames(vid, frames.value);
      RenumberedFiles(vid, frames.value);
      analysisData := analysisData.(frames := renumbered);
      toDelete := existing - updated;
      records := records[vid := analysisData];
      resp := Ok(analysisData);
    }

    /**
     * `/save_labels`: merges the labels by position and replaces the
     * categories with the request's value, then returns the record it stored.
     */
    method SaveLabels(videoId: Option<string>, labels: Option<seq<string>>, categories: Option<seq<string>>)
      returns (resp: Response)
      modifies this
      ensures MissingId(videoId) || labels.None? ==>
        resp == Error(400, "Missing video_id or labels") && records == old(records)
      ensures !MissingId(videoId) && labels.Some? && videoId.value !in old(records) ==>
        resp == Error(404, "Analysis data not found") && records == old(records)
      ensures !MissingId(videoId) && labels.Some? && videoId.value in old(records) ==>
        var previous := old(records)[videoId.value];
        var stored := previous.(frames := MergedLabels(previous.frames, labels.value), categories := categories);
        && records == old(records)[videoId.value := stored]
        && resp == Ok(stored)
    {
      if MissingId(videoId) || labels.None? {
        return Error(400, "Missing video_id or labels");
      }
      var vid := videoId.value;
      if vid !in records {
        return Error(404, "Analysis data not found");
      }
      var analysisData := records[vid];
      var merged := MergeLabels(analysisData.frames, labels.value);
      analysisData := analysisData.(frames := merged, categories := categories);
      records := records[vid := analysisData];
      resp := Ok(analysisData);
    }
  }
}
