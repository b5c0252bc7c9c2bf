# Video trend analysis: review workflow and analysis bookkeeping

This project models the core of a small web tool. A user uploads a short
video, and the server extracts frames, finds scene changes from
perceptual-hash differences, classifies the segments between changes as
photo-like or video, and stores an analysis record. In the browser the user
then reviews the "significant frames" on a single screen:

- adds a frame at the current playback time, or removes one;
- finalizes the set;
- types one label per clip and picks trend categories;
- submits the labels.

The model covers five parts:

- **`ReviewWorkflow`** (`review_workflow.dfy`): the review screen (`AnalysisResult`).
  - A class holds the frame list, the authoritative record, the playback time, the three stage flags and the busy flag.
  - Its handlers change those fields. A frame-list sync is split in two: the request that is posted (`UpdateSignificantFrames`) and the reply that is applied (`CompleteSync`).
  - The render function states which controls each stage shows.
- **`FrameOrder`** (`frame_order.dfy`): the ordering applied before every sync.
  - It covers `Array.prototype.sort` with a timestamp comparator, and the index filter used by remove.
  - The reference definition is a stable insertion sort on sequences. It is proved sorted, a permutation, and stable, and it keeps frames separated.
  - `SortFrames` sorts an array in place and is proved equal to that definition.
- **`Labels`** (`label_input.dfy`): the label form (`LabelInput`).
  - Positional labels and a category list, updated by the handlers.
  - A category toggle and its no-duplicates invariant. Toggling an absent category twice restores the list; toggling a present one twice moves it to the end, and that order is what `/save_labels` stores.
  - The submit guard against labels that trim to nothing, using ECMAScript's white-space set.
- **`Player`** (`video_player.dfy`): the player wrapper (`VideoPlayer`). It covers the learned duration, the forwarding of progress events, and the marker offsets, which exist only once the duration is positive.
- **`Server`** (`server.dfy`): the Flask endpoints over a store that maps each video id to its record.
  - The upload extension filter and `/analyze` validation.
  - `/update_timestamps`: renumbering, image naming, and the set difference that chooses the stale images to delete.
  - `/save_labels`: the positional label merge and the wholesale category replacement.
- **`VidAnalysis`** (`vid_analysis.dfy`): the index bookkeeping of the analysis.
  - Parsing frame file names.
  - Selecting transitions against a threshold, and the truncated re-run in `get_hashes`.
  - The timestamp list and its `M:SS.t` text.
  - Segment classification and ease.
  - The copies that name the signature frames, which prepend 0 to the caller's list in place.

Support modules:

- `Wrappers`: `Option`, and `Stat`, a numpy result that may be NaN.
- `Decimal`: decimal text of naturals and integers, with round-trip lemmas.
- `Records`: frames, records, the 0.5 s proximity and frame image names.

Two behaviours of the code that the model keeps as written:

- **Frame list during a sync:** `adjustedFrames` is not updated when a sync is posted. It changes only when the reply arrives, and `CompleteSync` models that.
- **Marker offsets:** the `left` percentage of a marker is not clamped. `MarkerOffsetScale` proves that an offset exceeds 100% past the end.

## Model

| member | source | states |
|---|---|---|
| Records.SignificantFrameNameInjective | backend/app.py:186 | different positions get different image names `significant_frame_<i>.png` |
| Decimal.DigitsValueOfNatToString | backend/get_vid_analysis.py:19-20 | the decimal text of a natural reads back as that natural (`int` of `str`) |
| Decimal.IntToStringRoundTrip | backend/get_vid_analysis.py:88 | the minutes text of a formatted time, negative or not, reads back as the integer |
| FrameOrder.Insert | video-analysis-frontend/src/components/AnalysisResult.js:80 | one insertion step of the stable sort: the frame goes after every frame whose timestamp is not later than its own; the result is one longer (its order and contents are stated by `SortSortsAndPermutes` and `SortIsStable`) |
| FrameOrder.Sort | video-analysis-frontend/src/components/AnalysisResult.js:80 | the order `frames.sort((a, b) => a.timestamp - b.timestamp)` produces, as a stable insertion sort of the same length; its meaning is stated by the three lemmas below |
| FrameOrder.SortSortsAndPermutes | video-analysis-frontend/src/components/AnalysisResult.js:80 | the list sorted by the timestamp comparator is ascending by timestamp, has the same length and is a permutation of the argument |
| FrameOrder.SortIsStable | video-analysis-frontend/src/components/AnalysisResult.js:80 | frames with equal timestamps keep their relative order (the comparator returns 0 for them) |
| FrameOrder.SortSeparated | video-analysis-frontend/src/components/AnalysisResult.js:80 | sorting a list with no two frames within 0.5 s keeps it so |
| FrameOrder.SortFrames | video-analysis-frontend/src/components/AnalysisResult.js:80 | sorts the array in place; its new contents are the sorted permutation of its old contents |
| FrameOrder.ShiftLater | video-analysis-frontend/src/components/AnalysisResult.js:80 | the inner loop of the in-place sort: the frames of the prefix later than the new one move one place right, the earlier ones stay, the gap returned has no later frame before it and the rest of the array is untouched |
| FrameOrder.InsertInPlace | video-analysis-frontend/src/components/AnalysisResult.js:80 | one insertion step: the prefix up to `i` becomes the stable insertion of element `i`, the rest is untouched |
| FrameOrder.Without | video-analysis-frontend/src/components/AnalysisResult.js:73 | `filter((_, idx) => idx !== index)`: one frame shorter when the index is in range, as long otherwise, and holding only frames of the list |
| FrameOrder.WithoutDropsOne | video-analysis-frontend/src/components/AnalysisResult.js:73 | the index filter drops exactly position `index`, keeping the others in order; an index out of range leaves the list unchanged |
| FrameOrder.WithoutSeparated | video-analysis-frontend/src/components/AnalysisResult.js:73 | removing a frame keeps a separated list separated |
| ReviewWorkflow.AnalysisResult.constructor | video-analysis-frontend/src/components/AnalysisResult.js:21-36 | starts reviewing (adding, not finalized, not submitted, not busy, time 0) with `data` and the frame list taken from the incoming record |
| ReviewWorkflow.AnalysisResult.Render | video-analysis-frontend/src/components/AnalysisResult.js:122-247 | loading exactly while there is no record; under the stage invariant add/remove/finalize controls show only while reviewing, label entry only when finalized and not submitted, the frame grid until submission and the final view after it; the spinner shows exactly while a sync runs |
| ReviewWorkflow.AnalysisResult.HandleTimeUpdate | video-analysis-frontend/src/components/AnalysisResult.js:47-49 | records the playback time and changes nothing else |
| ReviewWorkflow.AnalysisResult.UpdateSignificantFrames | video-analysis-frontend/src/components/AnalysisResult.js:77-87 | marks the screen busy, sorts the argument array in place and posts that sorted list; the frame list, record and flags are untouched until the reply |
| ReviewWorkflow.AnalysisResult.CompleteSync | video-analysis-frontend/src/components/AnalysisResult.js:88-96 | clears the busy flag on both outcomes; a success replaces the record and the frame list wholesale by the reply's, a failure changes neither |
| ReviewWorkflow.AnalysisResult.HandleAddSignificantFrame | video-analysis-frontend/src/components/AnalysisResult.js:51-70 | with a frame within 0.5 s of the current time nothing is posted and no state changes; otherwise the old frames plus `{id = length + 1, timestamp = currentTime, "unknown", "", ""}` are posted sorted; the stage is kept |
| ReviewWorkflow.AnalysisResult.HandleRemoveSignificantFrame | video-analysis-frontend/src/components/AnalysisResult.js:72-75 | posts the list without position `index`, sorted; the stage is kept |
| ReviewWorkflow.AnalysisResult.HandleFinalizeFrames | video-analysis-frontend/src/components/AnalysisResult.js:99-102 | moves the stage from reviewing to finalized (adding off, finalized on) and changes nothing else |
| ReviewWorkflow.AnalysisResult.HandleLabelsSaved | video-analysis-frontend/src/components/AnalysisResult.js:104-108 | moves the stage from finalized to submitted and replaces the record; the frame list is not touched |
| ReviewWorkflow.AnalysisResult.HandleLabelsSavedRefreshing | video-analysis-frontend/src/components/AnalysisResult.js:104-108 | the corrected callback: as above, and the frame list becomes the stored record's frames |
| ReviewWorkflow.StaleLabelAfterSave | video-analysis-frontend/src/components/AnalysisResult.js:263-281 | after saving "Intro" for the only clip, the record holds "Intro" while the final view's card shows "" |
| ReviewWorkflow.SavedLabelAfterRefresh | video-analysis-frontend/src/components/AnalysisResult.js:263-281 | with the corrected callback the final view's card shows the saved "Intro" |
| ReviewWorkflow.NearExisting | video-analysis-frontend/src/components/AnalysisResult.js:53-55 | the `find` guard: some frame lies strictly within 0.5 s of the current time; the add handler posts nothing exactly when it holds |
| ReviewWorkflow.NewFrame | video-analysis-frontend/src/components/AnalysisResult.js:61-67 | the frame an accepted add creates: id one more than the list length, the current time, segment type "unknown", empty URL and label |
| ReviewWorkflow.AcceptedAddKeepsSeparation | video-analysis-frontend/src/components/AnalysisResult.js:53-68 | if no two frames were within 0.5 s and the add is accepted, no two posted frames are within 0.5 s |
| ReviewWorkflow.AcceptedAddPosts | video-analysis-frontend/src/components/AnalysisResult.js:61-69 | an accepted add posts one more frame than before: the old frames and the new one, as a permutation sorted by timestamp |
| ReviewWorkflow.RemovePosts | video-analysis-frontend/src/components/AnalysisResult.js:72-74 | a remove posts a sorted permutation of the list without element `index` (of the whole list when out of range) and keeps separation |
| Labels.Trim | video-analysis-frontend/src/components/LabelInput.js:39 | `trim()`: never longer than the label, and a non-empty result neither starts nor ends with ECMAScript white space or a line terminator |
| Labels.TrimEmptyIffBlank | video-analysis-frontend/src/components/LabelInput.js:39 | `trim()` yields the empty string exactly when every character is ECMAScript white space or a line terminator |
| Labels.SomeLabelBlankIff | video-analysis-frontend/src/components/LabelInput.js:39 | the submit guard `labels.some((label) => label.trim() === '')` holds exactly when some label consists only of white space (the empty label included) |
| Labels.RemoveAll | video-analysis-frontend/src/components/LabelInput.js:31 | the filter removes every occurrence of the category and keeps every other one with its multiplicity (its order is stated by `RemoveAllKeepsOrder`) |
| Labels.RemoveAllAppend | video-analysis-frontend/src/components/LabelInput.js:31 | the filter distributes over concatenation: filtering `a + b` is filtering `a` followed by filtering `b` |
| Labels.RemoveAllKeepsOrder | video-analysis-frontend/src/components/LabelInput.js:31 | two kept categories at positions `i < j` appear in the filtered list at positions `i' < j'`: the filter keeps the others in their order |
| Labels.Toggle | video-analysis-frontend/src/components/LabelInput.js:29-35 | after a toggle the category is present exactly when it was absent before, and every other category is present exactly when it was before |
| Labels.ToggleNoDuplicates | video-analysis-frontend/src/components/LabelInput.js:29-35 | a toggle keeps a duplicate-free category list duplicate-free |
| Labels.ToggleTwiceRestores | video-analysis-frontend/src/components/LabelInput.js:29-35 | toggling an absent category appends it at the end, and toggling it again restores the list exactly |
| Labels.TogglePresentRemoves | video-analysis-frontend/src/components/LabelInput.js:30-31 | toggling a present category removes it and keeps the count of every other category; as the toggle is the filter, the others keep their order (`RemoveAllKeepsOrder`) |
| Labels.ToggleTwicePresent | video-analysis-frontend/src/components/LabelInput.js:29-35 | toggling a present category twice gives the list without it followed by it: the category moves to the end |
| Labels.ToggleTwiceMovesToEnd | video-analysis-frontend/src/components/LabelInput.js:29-35 | unchecking and rechecking "A" in ["A", "B"] gives ["B", "A"] |
| Labels.ToggleStaysInVocabulary | video-analysis-frontend/src/components/LabelInput.js:10-21 | toggles of the ten checkbox names keep the categories inside that vocabulary |
| Labels.LabelInput.constructor | video-analysis-frontend/src/components/LabelInput.js:8-9 | `numClips` empty labels and no category |
| Labels.LabelInput.HandleLabelChange | video-analysis-frontend/src/components/LabelInput.js:23-27 | label `index` becomes the value; the length, the other labels and the categories are unchanged |
| Labels.LabelInput.HandleCategoryChange | video-analysis-frontend/src/components/LabelInput.js:29-35 | the categories become their toggle by the category; the labels are unchanged |
| Labels.LabelInput.HandleSubmit | video-analysis-frontend/src/components/LabelInput.js:37-56 | no request exactly when some label is blank; otherwise the request carries the video id, labels and categories as held, and the callback receives the reply's record only on success |
| Player.MarkerOffset | video-analysis-frontend/src/components/VideoPlayer.js:29-35 | the `left` percentage of a marker: the offset times the duration is 100 times the timestamp |
| Player.Markers | video-analysis-frontend/src/components/VideoPlayer.js:28-39 | one marker per frame in list order, whose percentage of the duration is that frame's timestamp |
| Player.MarkerOffsetScale | video-analysis-frontend/src/components/VideoPlayer.js:29-35 | timestamp 0 gives 0%, the duration gives 100%, a later timestamp gives more than 100% (no clamping), and the offset is monotone |
| Player.MarkersMonotone | video-analysis-frontend/src/components/VideoPlayer.js:29 | a list sorted by timestamp gives non-decreasing offsets |
| Player.VideoPlayer.constructor | video-analysis-frontend/src/components/VideoPlayer.js:10 | the duration starts at 0 |
| Player.VideoPlayer.OnDuration | video-analysis-frontend/src/components/VideoPlayer.js:51 | the duration becomes the reported one |
| Player.VideoPlayer.Render | video-analysis-frontend/src/components/VideoPlayer.js:12-54 | loading exactly when there is no record or no video URL; markers exactly when the duration is positive, one per frame at its timestamp's percentage |
| Player.HandleProgress | video-analysis-frontend/src/components/VideoPlayer.js:21-25 | the played seconds are forwarded unchanged exactly when a time-update callback is supplied |
| Server.AfterLast | backend/app.py:30 | the text after the last separator is a suffix of the name that contains no separator |
| Server.AllowedFile | backend/app.py:28-30 | `allowed_file`: a dot in the name and the lower-cased text after the last dot among the allowed extensions; its meaning is stated by the next two lemmas |
| Server.AllowedFileIffSuffix | backend/app.py:28-30 | a name is accepted exactly when its fourth-last character is a dot and its last three characters, lower-cased, are mp4, mov or avi |
| Server.AllowedFileOfExtension | backend/app.py:28-30 | a name with a dot is accepted exactly when the ASCII-lower-cased text after the last dot is mp4, mov or avi |
| Server.UpperCaseExtensionAllowed | backend/app.py:19-30 | `.MP4` and `.Mov` are accepted: the extension is compared after lower-casing |
| Server.OtherFilesRefused | backend/app.py:19-30 | `.mkv` is refused, and so is a name without a dot |
| Server.BasenameOfFrameUrl | backend/app.py:176 | the base name of the URL given to position `k` is `significant_frame_<k>.png` |
| Server.CollectFrameFiles | backend/app.py:174-177 | collects the set of base names of the frames' URLs |
| Server.Renumbered | backend/app.py:185-195 | the frame list after the renumbering loop: frame `idx` gets id `idx + 1` and the URL of image `idx`, everything else is kept (its properties are stated by `RenumberedFiles` and `RenumberFrames`) |
| Server.RenumberedFiles | backend/app.py:185-197 | after renumbering, frame `i` names image `i` and the frames' image names are exactly those of positions 0 to n-1 |
| Server.RenumberFrames | backend/app.py:185-197 | keeps length and timestamps in order; frame `i` gets id `i + 1` and URL `/results/<id>/significant_frame_<i>.png`; the names collected are those of positions 0 to n-1 |
| Server.StaleFilesSpareNewFrames | backend/app.py:200 | no image referenced by the stored list is among those deleted |
| Server.ShrinkDeletesTail | backend/app.py:200-204 | the old image names of a renumbered list minus the new ones are exactly `significant_frame_<k>.png` for `k` from the new length up to the old length: the images of the dropped tail positions are the ones deleted |
| Server.MergedLabels | backend/app.py:231-233 | the frames after the label loop: frame `idx` takes label `idx` when there is one; its properties are stated by `MergeLabels` |
| Server.MergeLabels | backend/app.py:231-233 | label `i` goes to frame `i` for every frame that has one; extra labels are ignored; the other frames and all other fields are unchanged |
| Server.Store.AnalyzeVideo | backend/app.py:33-58 | 400 for a missing, empty or disallowed file name; 500 when the analysis fails; otherwise the analysis record is returned |
| Server.MissingId | backend/app.py:158-161 | Python's `not video_id` on `data.get('video_id')`: the key is absent or its value is empty (also app.py:215-219) |
| Server.Store.UpdateTimestamps | backend/app.py:155-210 | 400 without a non-empty id or without frames, 404 for an unknown video, both leaving the store unchanged; otherwise stores and returns the renumbered record and deletes the old image names minus the new ones |
| Server.Store.SaveLabels | backend/app.py:212-241 | the same 400/404 guards with the store unchanged; otherwise stores and returns the record with the merged labels and the request's categories, null included |
| VidAnalysis.ExtractFrameNumber | backend/get_vid_analysis.py:17-20 | `re.match(r"output_frame_(\d+)\.png", filename)`: a number only for a name that starts with the prefix and is longer than prefix and extension together |
| VidAnalysis.ExtractFrameNumberOfMatch | backend/get_vid_analysis.py:17-20 | a name that starts with `output_frame_`, then the digits `ds`, then `.png` gives the value of `ds` |
| VidAnalysis.ExtractFrameNumberMatches | backend/get_vid_analysis.py:17-20 | a name that gives a number starts with the prefix, a run of digits whose value is that number, and `.png` |
| VidAnalysis.ExtractFrameNumberIffMatch | backend/get_vid_analysis.py:17-20 | a number exactly when the name starts with prefix, digits and `.png`, and None exactly when it does not |
| VidAnalysis.ExtractFrameNumberLeadingZeros | backend/get_vid_analysis.py:17-20 | `output_frame_007.png` gives 7: leading zeros are read by `int` |
| VidAnalysis.ExtractFrameNumberRoundTrip | backend/get_vid_analysis.py:17-20 | the name `output_frame_<n>.png` followed by any text gives back `n` (the pattern has no end anchor) |
| VidAnalysis.ExtractFrameNumberRejects | backend/get_vid_analysis.py:17-20 | the three names `plot.png` (no prefix), `output_frame_.png` (no digits) and `output_frame_12.jpg` (another extension) give None; `ExtractFrameNumberIffMatch` states the general case |
| VidAnalysis.Hamming | backend/get_vid_analysis.py:40 | imagehash's `hash_a - hash_b`: the count of differing bit positions, never more than the hash length |
| VidAnalysis.HammingZeroIff | backend/get_vid_analysis.py:40 | two hashes are at distance 0 exactly when they are equal |
| VidAnalysis.Diffs | backend/get_vid_analysis.py:39-41 | one difference fewer than there are hashes, none for no hashes |
| VidAnalysis.SigsAbove | backend/get_vid_analysis.py:50-52 | the selected positions are strictly increasing and lie in 1..len(diffs) |
| VidAnalysis.SigsAboveSelects | backend/get_vid_analysis.py:50-52 | position `k` is selected exactly when difference `k - 1` exceeds the threshold |
| VidAnalysis.TransitionsOf | backend/get_vid_analysis.py:36-54 | `get_transitions` given the threshold formula: rejected with the threshold when it is NaN or below the minimum, otherwise the positions above it with the differences (meaning stated by `TransitionsMeaning`) |
| VidAnalysis.TransitionsMeaning | backend/get_vid_analysis.py:36-54 | rejected exactly when the threshold is NaN or below the minimum; otherwise diffs[i-1] is the distance of hash `i` from hash `i - 1`, and the positions are exactly those above the threshold, increasing |
| VidAnalysis.HashDifferences | backend/get_vid_analysis.py:39-41 | the first loop computes the differences of consecutive hashes |
| VidAnalysis.DifferencesAbove | backend/get_vid_analysis.py:50-52 | the second loop selects the positions above the threshold |
| VidAnalysis.GetTransitions | backend/get_vid_analysis.py:36-54 | returns the transitions of the hashes under the given threshold formula |
| VidAnalysis.HashesOf | backend/get_vid_analysis.py:56-76 | `get_hashes` after hashing: the minimum threshold for no frames, otherwise one pass, repeated on the hashes before the last transition when the first pass finds any (stated by `RerunDropsLastTransition`) |
| VidAnalysis.GetHashes | backend/get_vid_analysis.py:56-76 | rejects with the minimum threshold for no frames, and re-runs on the hashes before the last transition when the first pass found some |
| VidAnalysis.RerunDropsLastTransition | backend/get_vid_analysis.py:69-74 | the re-run sees strictly fewer hashes, and every transition it reports lies before the dropped one |
| VidAnalysis.GetTimestamps | backend/get_vid_analysis.py:78-79 | two more times than transitions |
| VidAnalysis.TimestampsOrdered | backend/get_vid_analysis.py:78-79 | first 0.0, last the duration, index/fps in between in order, strictly increasing for increasing positions, and sorted when the last transition is not after the end |
| VidAnalysis.ClockOf | backend/get_vid_analysis.py:84-87 | seconds below 60, tenths below 10, and minutes, seconds and tenths together are the time in whole tenths, rounded down |
| VidAnalysis.Pad2 | backend/get_vid_analysis.py:88 | two digits whose value is the number |
| VidAnalysis.FormatTimestamp | backend/get_vid_analysis.py:84-88 | the f-string `{minutes}:{seconds:02}.{tenths}` of one time; what it encodes is stated by `FormatTimestampRoundTrip` |
| VidAnalysis.FormatTimestampRoundTrip | backend/get_vid_analysis.py:81-89 | the "M:SS.t" text reads back as the minutes, seconds and tenths of the time, which bracket ten times the time |
| VidAnalysis.MappedAt | backend/get_vid_analysis.py:81-89 | the appending loop's list `[f(x) for x in s]` has one element per input, element `i` being `f` of input `i` |
| VidAnalysis.GetFormattedTimestamps | backend/get_vid_analysis.py:81-89 | one text per time, in order, each reading back as that time's minutes, seconds and tenths |
| VidAnalysis.ClassifyEase | backend/get_vid_analysis.py:91-97 | Easy exactly when there is no video segment, Hard exactly when there are more video than photo-like segments, Medium otherwise |
| VidAnalysis.EaseNamesDistinct | backend/get_vid_analysis.py:91-97 | the three ease strings are distinct, so the returned text identifies the ease |
| VidAnalysis.PySlice | backend/get_vid_analysis.py:110 | a Python slice is never longer than the list; its cases are stated by `PySliceMeaning` |
| VidAnalysis.PySliceMeaning | backend/get_vid_analysis.py:110 | in-range bounds give the ordinary slice, crossed bounds give [], a negative end counts from the back, and bounds past either end give [] |
| VidAnalysis.SegmentDiffsRange | backend/get_vid_analysis.py:106-110 | the differences of segment `i` are `differences[changes[i]:changes[i + 1] - 1]`, read as a plain slice when the end is in range and as the slice up to the second-last difference when the next change position is 0, so the end is -1 |
| VidAnalysis.NonSignificant | backend/get_vid_analysis.py:113-114 | the comprehension over `enumerate(differences)` that skips index `i` when `i + 1` is a transition; its value is stated by the three lemmas below |
| VidAnalysis.NonSignificantAppend | backend/get_vid_analysis.py:113-114 | one more difference `e` after `d` is kept, at the end and after all earlier kept ones, exactly when position `len(d) + 1` is not a transition |
| VidAnalysis.NonSignificantMembers | backend/get_vid_analysis.py:113-114 | a value is among the kept differences exactly when some difference `i` equal to it has `i + 1` outside the transitions |
| VidAnalysis.NonSignificantSubBag | backend/get_vid_analysis.py:113-114 | the kept differences are a sub-multiset of all differences |
| VidAnalysis.NonSignificantKeeps | backend/get_vid_analysis.py:113-114 | the non-significant differences are at most all of them, and all of them when no transition lies in 1..len(differences) |
| VidAnalysis.ClassifySegment | backend/get_vid_analysis.py:118-127 | the segment type from the rounded variance and the two thresholds, with NaN comparing false as numpy does; its meaning is stated by `ClassifySegmentMeaning` |
| VidAnalysis.ClassifySegmentMeaning | backend/get_vid_analysis.py:118-127 | photo exactly when the variance is a number below the photo threshold, still shot exactly when both are numbers and the variance lies from the photo threshold up to below the small-change threshold, and a NaN variance gives video |
| VidAnalysis.SegmentNamesDistinct | backend/get_vid_analysis.py:118-127 | the three segment strings are distinct, so the label identifies the type |
| VidAnalysis.CountsCoverSegments | backend/get_vid_analysis.py:119-127 | every segment is counted once, as photo-like or as video, and there is no video count exactly when no segment is a video |
| VidAnalysis.SegmentsAndEase | backend/get_vid_analysis.py:99-134 | one label per segment (transitions + 1), photo and video counts add up to that number, and the ease is Easy exactly when no segment is a video |
| VidAnalysis.SegmentsOf | backend/get_vid_analysis.py:99-127 | the `segments` list the loop builds: segment `i` is classified from the variance of its differences and the standard deviation of the non-significant ones (stated by `SegmentsAndEase`, and `GetVidOrPic` is proved equal to it) |
| VidAnalysis.GetVidOrPic | backend/get_vid_analysis.py:99-134 | the labels are the classification of each segment's variance against the photo and small-change thresholds, and the ease is classified from the counts |
| VidAnalysis.SignatureCopiesNamed | backend/get_vid_analysis.py:168-179 | one copy per index whose frame file exists, copying an existing file to `significant_frame_<count>.png` with consecutive counts |
| VidAnalysis.MakeSignatureFrames | backend/get_vid_analysis.py:166-179 | prepends 0 to the caller's list in place and makes the copies for the extended list from count 0 |

## Left out

- HTTP transport: each axios post and Flask route is one atomic step with a success or failure outcome; CORS, JSON encoding and `send_from_directory` are not modelled.
- Overlapping requests: the screen has no guard against a second frame sync before the first reply, and the label form has none against a second submit while one is in flight. `HandleLabelsSaved` requires the label-entry stage, so a second labels reply arriving after the first has moved the screen to submitted is not modelled; the interleaving of replies is concurrency the model does not cover.
- The file system and subprocesses: the JSON file per video is a map entry; ffmpeg frame extraction, `os.remove`, `shutil.copy2` and directory creation are not modelled; file existence is a set of names, and deletion and copying are returned as the names affected.
- `run_analysis`, `extract_frames` and `make_graph` are orchestration over ffmpeg, matplotlib and the file system and are not part of this model; `AnalyzeVideo` receives the analysis outcome as a parameter.
- Image hashing: the hashes are given as 64-bit sequences; PIL and imagehash are not modelled.
- numpy statistics: the dynamic threshold (mean plus 2.5 standard deviations), the rounded variance and the rounded standard deviation are function parameters that may return NaN.
- VidAnalysis.TransitionsOf: numpy's mean of an empty list is NaN, so with fewer than two hashes the source always rejects; the threshold parameter is not constrained on `[]`, so for a single frame the model also admits a `Found` with no transitions. No stated property depends on that case.
- Floating point: times and offsets are exact reals, so IEEE rounding in `index / fps`, `t % 60` or `toFixed` is not modelled.
- `secure_filename`, `uuid4` and the server's 500 message text are not modelled; the video id is a parameter.
- Presentation: modals, alerts, spinners' text, `toFixed` display, the graph modal's content, `App.js` and `UploadVideo.js`.
- Labels.LabelInput.HandleLabelChange: requires an index inside the list, because the form only renders fields for existing clips; a JavaScript assignment past the end would grow the array.
- VidAnalysis.GetTimestamps: requires a positive frame rate only when there are transitions (without them nothing is divided); with transitions and rate 0 the source raises a division error, and its only caller passes 12 (backend/app.py:62).
- VidAnalysis.ExtractFrameNumber: Python's `\d` also matches non-ASCII decimal digits; the model accepts ASCII digits only.
- Server.AllowedFile: Python's `lower()` folds non-ASCII letters too; the model folds ASCII only.
- Server.Store.UpdateTimestamps: request frames carrying extra keys keep them in the source; frames here have a fixed set of fields.
- Records.Record: a stored record whose `categories` key is missing and one whose value is null are both `None`.
- VidAnalysis.MakeSignatureFrames: the extension test on the copied name is always true for `output_frame_<n>.png` and is left out.

## Findings

| source | as written | input that shows it | evidently intended | confidence | as-written member | corrected member |
|---|---|---|---|---|---|---|
| video-analysis-frontend/src/components/AnalysisResult.js:104-108 | the labels-saved callback replaces the record but not the frame list, and the "Finalized Significant Frames" cards (lines 263-281) are drawn from the frame list | one frame with an empty label; finalize; submit the label "Intro": the stored record holds "Intro" while the final card shows an empty label | the final cards show the labels that were just saved | medium, not executed | ReviewWorkflow.StaleLabelAfterSave | ReviewWorkflow.AnalysisResult.HandleLabelsSavedRefreshing |
