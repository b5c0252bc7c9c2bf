/**
 * The analysis review screen: the frame-set editor and its stage flags
 * (`AnalysisResult` in the browser).
 *
 * A frame-list sync is a POST whose completion arrives later; the handler
 * that starts it returns the list it posts, and `CompleteSync` applies the
 * reply.
 */
module ReviewWorkflow {
  import opened Wrappers
  import opened Records
  import opened FrameOrder

  /** The review stage that the three flags encode. */
  datatype Stage = Reviewing | Finalized | Submitted

  /** Which parts of the screen are rendered. */
  datatype View =
    | Loading
    | Page(
        graphButton: bool,
        finalizeButton: bool,
        addButton: bool,
        spinner: bool,
        frameGrid: bool,
        removeButtons: bool,
        labelEntry: bool,
        finalView: bool)

  /** Some frame of `frames` lies within the tolerance of `t`. */
  predicate NearExisting(frames: seq<Frame>, t: real)
  {
    exists i :: 0 <= i < |frames| && Near(frames[i].timestamp, t)
  }

  /** The frame the editor creates at time `t` when the list has `count` frames. */
  function NewFrame(count: nat, t: real): Frame
  {
    Frame(count + 1, t, "unknown", "", "")
  }

  /** Copies a list into a fresh array, as the spread `[...frames, f]` and `filter` create one. */
  method ToArray(s: seq<Frame>) returns (a: array<Frame>)
    ensures fresh(a) && a[..] == s
  {
    a := new Frame[|s|](i requires 0 <= i < |s| => s[i]);
  }

  class AnalysisResult {
    var data: Option<Record>
    var adjustedFrames: seq<Frame>
    var currentTime: real
    var isAddingFrames: bool
    var isFinalized: bool
    var isLabelsSubmitted: bool
    var isUpdatingFrames: bool

    /** The stage flags only ever describe one of the three stages. */
    ghost predicate Valid()
      reads this
    {
      isAddingFrames == !isFinalized && (isLabelsSubmitted ==> isFinalized)
    }

    function Stage(): Stage
      reads this
    {
      if isLabelsSubmitted then Submitted else if isFinalized then Finalized else Reviewing
    }

    /** The first render's state, after the effect has copied the incoming record. */
    constructor (analysisData: Option<Record>)
      ensures Valid() && Stage() == Reviewing
      ensures isAddingFrames && !isFinalized && !isLabelsSubmitted && !isUpdatingFrames
      ensures currentTime == 0.0
      ensures data == analysisData
      ensures adjustedFrames == if analysisData.Some? then analysisData.value.frames else []
    {
      data := None;
      adjustedFrames := [];
      currentTime := 0.0;
      isAddingFrames := true;
      isFinalized := false;
      isLabelsSubmitted := false;
      isUpdatingFrames := false;
      if analysisData.Some? {
        data := analysisData;
        adjustedFrames := analysisData.value.frames;
      }
    }

    /** What the component renders in its current state. */
    function Render(): (v: View)
      reads this
      ensures v.Loading? <==> data.None?
      ensures v.Page? && Valid() ==> (v.addButton <==> Stage() == Reviewing)
      ensures v.Page? && Valid() ==> (v.removeButtons <==> Stage() == Reviewing)
      ensures v.Page? && Valid() ==> (v.finalizeButton <==> Stage() == Reviewing)
      ensures v.Page? && Valid() ==> (v.labelEntry <==> Stage() == Finalized)
      ensures v.Page? && Valid() ==> (v.frameGrid <==> Stage() != Submitted)
      ensures v.Page? && Valid() ==> (v.finalView <==> Stage() == Submitted)
      ensures v.Page? ==> (v.spinner <==> isUpdatingFrames)
    {
      if data.None? then Loading
      else
        var grid := !isFinalized || !isLabelsSubmitted;
        Page(
          graphButton := data.value.plotUrl.Some? && data.value.plotUrl.value != "",
          finalizeButton := !isFinalized,
          addButton := isAddingFrames,
          spinner := isUpdatingFrames,
          frameGrid := grid,
          removeButtons := grid && isAddingFrames,
          labelEntry := isFinalized && !isLabelsSubmitted,
          finalView := isLabelsSubmitted)
    }

    /** Playback progress reported by the player. */
    method HandleTimeUpdate(time: real)
      modifies this
      ensures currentTime == time
      ensures data == old(data) && adjustedFrames == old(adjustedFrames)
      ensures isAddingFrames == old(isAddingFrames) && isFinalized == old(isFinalized)
      ensures isLabelsSubmitted == old(isLabelsSubmitted) && isUpdatingFrames == old(isUpdatingFrames)
    {
      currentTime := time;
    }

    /**
     * Starts a sync of `frames`: marks the editor busy, sorts the array in
     * place and returns the frame list of the request. The request's
     * `video_id` is that of `data`, which the sync leaves unchanged.
     */
    method UpdateSignificantFrames(frames: array<Frame>) returns (sent: seq<Frame>)
      modifies this, frames
      ensures sent == Sort(old(frames[..])) && frames[..] == sent
      ensures isUpdatingFrames
      ensures data == old(data) && adjustedFrames == old(adjustedFrames) && currentTime == old(currentTime)
      ensures isAddingFrames == old(isAddingFrames) && isFinalized == old(isFinalized)
      ensures isLabelsSubmitted == old(isLabelsSubmitted)
    {
      isUpdatingFrames := true;
      SortFrames(frames);
      sent := frames[..];
    }

    /** The sync's reply arrives: a success replaces the record and the list wholesale. */
    method CompleteSync(reply: Reply)
      modifies this
      ensures !isUpdatingFrames
      ensures reply.Success? ==> data == Some(reply.analysisData) && adjustedFrames == reply.analysisData.frames
      ensures reply.Failure? ==> data == old(data) && adjustedFrames == old(adjustedFrames)
      ensures currentTime == old(currentTime)
      ensures isAddingFrames == old(isAddingFrames) && isFinalized == old(isFinalized)
      ensures isLabelsSubmitted == old(isLabelsSubmitted)
    {
      if reply.Success? {
        data := Some(reply.analysisData);
        adjustedFrames := reply.analysisData.frames;
      }
      isUpdatingFrames := false;
    }

    /**
     * The "Add Significant Frame" button. Rejected with no sync when a frame
     * lies within the tolerance of the current time; otherwise the list with
     * a new frame appended is synced.
     */
    method HandleAddSignificantFrame() returns (sent: Option<seq<Frame>>)
      requires Valid() && Render().Page? && Render().addButton
      modifies this
      ensures Valid() && Stage() == old(Stage())
      ensures NearExisting(old(adjustedFrames), old(currentTime)) ==>
        sent.None? && isUpdatingFrames == old(isUpdatingFrames)
      ensures !NearExisting(old(adjustedFrames), old(currentTime)) ==>
        sent == Some(Sort(old(adjustedFrames) + [NewFrame(|old(adjustedFrames)|, old(currentTime))])) && isUpdatingFrames
      ensures data == old(data) && adjustedFrames == old(adjustedFrames) && currentTime == old(currentTime)
      ensures isAddingFrames == old(isAddingFrames) && isFinalized == old(isFinalized)
      ensures isLabelsSubmitted == old(isLabelsSubmitted)
    {
      if NearExisting(adjustedFrames, currentTime) {
        return None;
      }
      var newFrames := ToArray(adjustedFrames + [NewFrame(|adjustedFrames|, currentTime)]);
      var posted := UpdateSignificantFrames(newFrames);
      sent := Some(posted);
    }

    /** The "Remove Frame" button of the card at `index`: the list without that position is synced. */
    method HandleRemoveSignificantFrame(index: int) returns (sent: seq<Frame>)
      requires Valid() && Render().Page? && Render().removeButtons
      modifies this
      ensures Valid() && Stage() == old(Stage())
      ensures sent == Sort(Without(old(adjustedFrames), index)) && isUpdatingFrames
      ensures data == old(data) && adjustedFrames == old(adjustedFrames) && currentTime == old(currentTime)
      ensures isAddingFrames == old(isAddingFrames) && isFinalized == old(isFinalized)
      ensures isLabelsSubmitted == old(isLabelsSubmitted)
    {
      var newFrames := ToArray(Without(adjustedFrames, index));
      sent := UpdateSignificantFrames(newFrames);
    }

    /** The "Finalize Significant Frames" button: locks the frame list and opens label entry. */
    method HandleFinalizeFrames()
      requires Valid() && Render().Page? && Render().finalizeButton
      modifies this
      ensures Valid() && old(Stage()) == Reviewing && Stage() == Finalized
      ensures !isAddingFrames && isFinalized && isLabelsSubmitted == old(isLabelsSubmitted)
      ensures data == old(data) && adjustedFrames == old(adjustedFrames) && currentTime == old(currentTime)
      ensures isUpdatingFrames == old(isUpdatingFrames)
    {
      isAddingFrames := false;
      isFinalized := true;
    }

    /** The label form's success callback, with the record the server stored. */
    method HandleLabelsSaved(updatedData: Record)
      requires Valid() && Render().Page? && Render().labelEntry
      modifies this
      ensures Valid() && old(Stage()) == Finalized && Stage() == Submitted
      ensures data == Some(updatedData) && isLabelsSubmitted
      ensures adjustedFrames == old(adjustedFrames) && currentTime == old(currentTime)
      ensures isAddingFrames == old(isAddingFrames) && isFinalized == old(isFinalized)
      ensures isUpdatingFrames == old(isUpdatingFrames)
    {
      data := Some(updatedData);
      isLabelsSubmitted := true;
    }

    /**
     * The label form's success callback as the final view needs it: the
     * frame list the cards are drawn from is replaced by the stored record's
     * frames, so every card shows the label that was saved for it.
     */
    method HandleLabelsSavedRefreshing(updatedData: Record)
      requires Valid() && Render().Page? && Render().labelEntry
      modifies this
      ensures Valid() && old(Stage()) == Finalized && Stage() == Submitted
      ensures data == Some(updatedData) && isLabelsSubmitted
      ensures adjustedFrames == updatedData.frames && currentTime == old(currentTime)
      ensures isAddingFrames == old(isAddingFrames) && isFinalized == old(isFinalized)
      ensures isUpdatingFrames == old(isUpdatingFrames)
    {
      data := Some(updatedData);
      adjustedFrames := updatedData.frames;
      isLabelsSubmitted := true;
    }
  }

  /** A one-frame record as the server returns it for video `v`, with the given label on its frame. */
  function OneFrameRecord(labelText: string): Record
  {
    Record("v", "Easy", 3.0, [0.0, 3.0],
           [Frame(1, 0.0, "video", "/results/v/significant_frame_0.png", labelText)],
           None, "/uploads/v.mp4", None)
  }

  /**
   * Reviewing a one-frame record, finalizing it and saving the label "Intro"
   * with the callback as written: the record now holds "Intro", but the card
   * of the final view, drawn from the frame list, still shows the empty label.
   */
  method StaleLabelAfterSave() returns (shown: string, stored: string)
    ensures stored == "Intro" && shown == ""
  {
    var screen := new AnalysisResult(Some(OneFrameRecord("")));
    screen.HandleFinalizeFrames();
    screen.HandleLabelsSaved(OneFrameRecord("Intro"));
    assert screen.Render().finalView;
    shown := screen.adjustedFrames[0].labelText;
    stored := screen.data.value.frames[0].labelText;
  }

  /** The same session with the refreshing callback: the final card shows the saved label. */
  method SavedLabelAfterRefresh() returns (shown: string, stored: string)
    ensures stored == "Intro" && shown == "Intro"
  {
    var screen := new AnalysisResult(Some(OneFrameRecord("")));
    screen.HandleFinalizeFrames();
    screen.HandleLabelsSavedRefreshing(OneFrameRecord("Intro"));
    assert screen.Render().finalView;
    shown := screen.adjustedFrames[0].labelText;
    stored := screen.data.value.frames[0].labelText;
  }

  /**
   * An accepted add keeps a separated frame list separated: the list posted
   * has no two frames within the tolerance of each other.
   */
  lemma AcceptedAddKeepsSeparation(frames: seq<Frame>, t: real)
    requires Separated(frames) && !NearExisting(frames, t)
    ensures Separated(Sort(frames + [NewFrame(|frames|, t)]))
  {
    var s := frames + [NewFrame(|frames|, t)];
    forall i, j | 0 <= i < j < |s|
      ensures Apart(s[i], s[j])
    {
      if j == |frames| {
        assert !Near(frames[i].timestamp, t);
      }
    }
    SortSeparated(s);
  }

  /** The list posted by an accepted add holds the old frames and the new one, ordered by timestamp. */
  lemma AcceptedAddPosts(frames: seq<Frame>, t: real)
    ensures var sent := Sort(frames + [NewFrame(|frames|, t)]);
      && |sent| == |frames| + 1
      && SortedByTime(sent)
      && multiset(sent) == multiset(frames) + multiset{NewFrame(|frames|, t)}
  {
    SortSortsAndPermutes(frames + [NewFrame(|frames|, t)]);
  }

  /** The list posted by a remove is the old list without that position, ordered by timestamp. */
  lemma RemovePosts(frames: seq<Frame>, index: int)
    ensures var sent := Sort(Without(frames, index));
      && SortedByTime(sent)
      && (0 <= index < |frames| ==> multiset(sent) == multiset(frames[..index] + frames[index + 1..]))
      && (!(0 <= index < |frames|) ==> multiset(sent) == multiset(frames))
      && (Separated(frames) ==> Separated(sent))
  {
    WithoutDropsOne(frames, index);
    SortSortsAndPermutes(Without(frames, index));
    if Separated(frames) {
      WithoutSeparated(frames, index);
      SortSeparated(Without(frames, index));
    }
  }
}
