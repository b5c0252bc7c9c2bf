/**
 * Index bookkeeping of the scene-change analysis (`backend/get_vid_analysis.py`):
 * frame file names, selection of transitions above a threshold, the
 * timestamps of the selected frames and their text form, the photo/video
 * classification of the segments between them, and the copies that name the
 * signature frames.
 *
 * The perceptual hashes are the 64-bit difference hashes of the frames; the
 * statistics numpy computes (the dynamic threshold, the variances and the
 * standard deviation) are functions passed in.
 */
module VidAnalysis {
  import opened Wrappers
  import opened Decimal
  import opened Records

  // ---------------------------------------------------------------- frame file names

  const OutputPrefix: string := "output_frame_"

  /** The name ffmpeg gives extracted frame `n` (`output_frame_%d.png`). */
  function OutputFrameName(n: nat): string
  {
    OutputPrefix + NatToString(n) + ".png"
  }

  /** The number of decimal digits at the front of `s`. */
  function LeadingDigits(s: string): (k: nat)
    ensures k <= |s| && AllDigits(s[..k])
    ensures k < |s| ==> !IsDigit(s[k])
  {
    if |s| == 0 || !IsDigit(s[0]) then 0
    else
      var k := LeadingDigits(s[1..]);
      assert s[..k + 1] == [s[0]] + s[1..][..k];
      k + 1
  }

  /**
   * `extract_frame_number`: `re.match(r"output_frame_(\d+)\.png", name)`,
   * anchored at the start only, and the value of the digits.
   */
  function ExtractFrameNumber(name: string): (r: Option<nat>)
    ensures r.Some? ==> |name| > |OutputPrefix| + 4 && name[..|OutputPrefix|] == OutputPrefix
  {
    if |name| < |OutputPrefix| || name[..|OutputPrefix|] != OutputPrefix then None
    else
      var rest := name[|OutputPrefix|..];
      var k := LeadingDigits(rest);
      if k > 0 && k + 4 <= |rest| && rest[k..k + 4] == ".png" then Some(DigitsValue(rest[..k]))
      else None
  }

  lemma {:induction false} LeadingDigitsOfNumeral(ds: string, tail: string)
    requires AllDigits(ds)
    requires |tail| > 0 && !IsDigit(tail[0])
    ensures LeadingDigits(ds + tail) == |ds|
    decreases |ds|
  {
    if |ds| > 0 {
      assert (ds + tail)[1..] == ds[1..] + tail;
      LeadingDigitsOfNumeral(ds[1..], tail);
    } else {
      assert ds + tail == tail;
    }
  }

  /**
   * `name` begins with `output_frame_`, then the digits `ds` (at least one),
   * then `.png`: a match of the pattern whose group is `ds`.
   */
  predicate MatchesFramePattern(name: string, ds: string)
  {
    && |ds| > 0 && AllDigits(ds)
    && |OutputPrefix| + |ds| + 4 <= |name|
    && name[..|OutputPrefix| + |ds| + 4] == OutputPrefix + ds + ".png"
  }

  /** Every match is read back as the value of its digits, leading zeros included. */
  lemma ExtractFrameNumberOfMatch(name: string, ds: string)
    requires MatchesFramePattern(name, ds)
    ensures ExtractFrameNumber(name) == Some(DigitsValue(ds))
  {
    var p := |OutputPrefix|;
    var rest := name[p..];
    assert name[..p] == (OutputPrefix + ds + ".png")[..p];
    assert rest == ds + rest[|ds|..] by {
      assert rest[..|ds|] == (OutputPrefix + ds + ".png")[p..p + |ds|];
    }
    assert rest[|ds|..|ds| + 4] == (OutputPrefix + ds + ".png")[p + |ds|..];
    LeadingDigitsOfNumeral(ds, rest[|ds|..]);
  }

  /** A number is extracted only from a name that matches the pattern, and it is the value of the match. */
  lemma ExtractFrameNumberMatches(name: string)
    requires ExtractFrameNumber(name).Some?
    ensures exists ds :: MatchesFramePattern(name, ds) && DigitsValue(ds) == ExtractFrameNumber(name).value
  {
    var p := |OutputPrefix|;
    var rest := name[p..];
    var k := LeadingDigits(rest);
    var ds := rest[..k];
    assert name[..p + k + 4] == OutputPrefix + ds + ".png" by {
      assert name[..p + k + 4] == name[..p] + rest[..k] + rest[k..k + 4];
    }
    assert MatchesFramePattern(name, ds);
  }

  /**
   * `extract_frame_number` returns a number exactly for the names that match
   * the pattern, and every other name gives `None`.
   */
  lemma ExtractFrameNumberIffMatch(name: string)
    ensures ExtractFrameNumber(name).Some? <==> exists ds :: MatchesFramePattern(name, ds)
    ensures ExtractFrameNumber(name) == None <==> forall ds :: !MatchesFramePattern(name, ds)
  {
    if ExtractFrameNumber(name).Some? {
      ExtractFrameNumberMatches(name);
    }
    if ds :| MatchesFramePattern(name, ds) {
      ExtractFrameNumberOfMatch(name, ds);
    }
  }

  /** Leading zeros in the digits are read as `int` reads them. */
  lemma ExtractFrameNumberLeadingZeros()
    ensures ExtractFrameNumber("output_frame_007.png") == Some(7)
  {
    var ds := "007";
    assert "output_frame_007.png"[..20] == OutputPrefix + ds + ".png";
    assert MatchesFramePattern("output_frame_007.png", ds);
    ExtractFrameNumberOfMatch("output_frame_007.png", ds);
    assert ds[..2] == "00" && "00"[..1] == "0";
  }

  /**
   * The number of every extracted frame is read back from its name, whatever
   * text follows the `.png`.
   */
  lemma ExtractFrameNumberRoundTrip(n: nat, trailing: string)
    ensures ExtractFrameNumber(OutputFrameName(n) + trailing) == Some(n)
  {
    var name := OutputFrameName(n) + trailing;
    var ds := NatToString(n);
    assert name == OutputPrefix + (ds + (".png" + trailing));
    var rest := name[|OutputPrefix|..];
    assert rest == ds + (".png" + trailing);
    LeadingDigitsOfNumeral(ds, ".png" + trailing);
    assert rest[..|ds|] == ds;
    assert rest[|ds|..|ds| + 4] == ".png";
    DigitsValueOfNatToString(n);
  }

  /** Names not of the form `output_frame_<digits>.png...` give no number. */
  lemma ExtractFrameNumberRejects()
    ensures ExtractFrameNumber("plot.png") == None
    ensures ExtractFrameNumber("output_frame_.png") == None
    ensures ExtractFrameNumber("output_frame_12.jpg") == None
  {
    assert "output_frame_.png"[..13] == OutputPrefix;
    assert "output_frame_12.jpg"[..13] == OutputPrefix;
    assert "output_frame_12.jpg"[13..] == "12.jpg";
    assert LeadingDigits("12.jpg") == 2 by {
      assert "12.jpg"[1..] == "2.jpg";
      assert "2.jpg"[1..] == ".jpg";
    }
    assert "12.jpg"[2..6] == ".jpg";
  }

  // ---------------------------------------------------------------- transitions

  /** A 64-bit difference hash (`imagehash.dhash` with its default size of 8). */
  type Hash = h: seq<bool> | |h| == 64 witness seq(64, _ => false)

  /** `hash_a - hash_b`: the number of bit positions where the hashes differ. */
  function Hamming(a: seq<bool>, b: seq<bool>): (d: nat)
    requires |a| == |b|
    ensures d <= |a|
  {
    if |a| == 0 then 0
    else Hamming(a[..|a| - 1], b[..|b| - 1]) + (if a[|a| - 1] != b[|b| - 1] then 1 else 0)
  }

  /** Two hashes are at distance 0 exactly when they are equal. */
  lemma {:induction false} HammingZeroIff(a: seq<bool>, b: seq<bool>)
    requires |a| == |b|
    ensures Hamming(a, b) == 0 <==> a == b
    decreases |a|
  {
    if |a| > 0 {
      var n := |a| - 1;
      HammingZeroIff(a[..n], b[..n]);
      assert a == a[..n] + [a[n]] && b == b[..n] + [b[n]];
    }
  }

  /** `diffs`: the hash distance between each frame and the one before it. */
  function Diffs(hashes: seq<Hash>): (d: seq<nat>)
    ensures |hashes| > 0 ==> |d| == |hashes| - 1
    ensures |hashes| == 0 ==> d == []
  {
    if |hashes| == 0 then []
    else seq(|hashes| - 1, i requires 0 <= i < |hashes| - 1 => Hamming(hashes[i + 1], hashes[i]))
  }

  /** The positions `i + 1` of the differences above `threshold`, in increasing order. */
  function SigsAbove(diffs: seq<nat>, threshold: real): (sigs: seq<nat>)
    ensures forall j :: 0 <= j < |sigs| ==> 1 <= sigs[j] <= |diffs|
    ensures forall j, k :: 0 <= j < k < |sigs| ==> sigs[j] < sigs[k]
  {
    if |diffs| == 0 then []
    else
      var init := SigsAbove(diffs[..|diffs| - 1], threshold);
      init + (if diffs[|diffs| - 1] as real > threshold then [|diffs|] else [])
  }

  /** A position is selected exactly when the difference that ends there exceeds the threshold. */
  lemma {:induction false} SigsAboveSelects(diffs: seq<nat>, threshold: real)
    ensures forall k :: k in SigsAbove(diffs, threshold) <==> 1 <= k <= |diffs| && diffs[k - 1] as real > threshold
    decreases |diffs|
  {
    if |diffs| > 0 {
      var init := diffs[..|diffs| - 1];
      SigsAboveSelects(init, threshold);
      forall j | 0 <= j < |init| ensures diffs[j] == init[j] { }
    }
  }

  /**
   * What `get_transitions` returns: `(0, [], threshold)` when the dynamic
   * threshold is NaN or below the minimum, else the selected positions, the
   * differences and the threshold.
   */
  datatype Transitions =
    | Rejected(dynamicThreshold: Stat)
    | Found(sigs: seq<nat>, diffs: seq<nat>, threshold: real)

  /** `dynamic_threshold < min_threshold or np.isnan(dynamic_threshold)`. */
  predicate RejectsThreshold(threshold: Stat, minThreshold: real)
  {
    threshold.NaN? || threshold.v < minThreshold
  }

  function TransitionsOf(minThreshold: real, hashes: seq<Hash>, thresholdOf: seq<nat> -> Stat): Transitions
  {
    var diffs := Diffs(hashes);
    var threshold := thresholdOf(diffs);
    if RejectsThreshold(threshold, minThreshold) then Rejected(threshold)
    else Found(SigsAbove(diffs, threshold.v), diffs, threshold.v)
  }

  /** The transitions found are exactly the frames whose difference from the previous one exceeds the threshold. */
  lemma TransitionsMeaning(minThreshold: real, hashes: seq<Hash>, thresholdOf: seq<nat> -> Stat)
    ensures var t := TransitionsOf(minThreshold, hashes, thresholdOf);
      && (t.Rejected? <==> RejectsThreshold(thresholdOf(Diffs(hashes)), minThreshold))
      && (t.Found? ==>
           && |t.diffs| == (if |hashes| == 0 then 0 else |hashes| - 1)
           && (forall j :: 0 <= j < |t.diffs| ==> t.diffs[j] == Hamming(hashes[j + 1], hashes[j]))
           && (forall k :: k in t.sigs <==> 1 <= k <= |t.diffs| && t.diffs[k - 1] as real > t.threshold)
           && (forall j, k :: 0 <= j < k < |t.sigs| ==> t.sigs[j] < t.sigs[k]))
  {
    var diffs := Diffs(hashes);
    var threshold := thresholdOf(diffs);
    if !RejectsThreshold(threshold, minThreshold) {
      SigsAboveSelects(diffs, threshold.v);
    }
  }

  /** The first loop of `get_transitions`: the distance of each frame from the one before it. */
  method HashDifferences(hashes: seq<Hash>) returns (diffs: seq<nat>)
    ensures diffs == Diffs(hashes)
  {
    diffs := [];
    var i := 1;
    while i < |hashes|
      invariant 1 <= i <= if |hashes| == 0 then 1 else |hashes|
      invariant |diffs| == i - 1
      invariant forall k :: 0 <= k < i - 1 ==> diffs[k] == Hamming(hashes[k + 1], hashes[k])
    {
      var diff := Hamming(hashes[i], hashes[i - 1]);
      diffs := diffs + [diff];
      i := i + 1;
    }
  }

  /** The second loop of `get_transitions`: `i + 1` for each difference above the threshold. */
  method DifferencesAbove(diffs: seq<nat>, threshold: real) returns (sigs: seq<nat>)
    ensures sigs == SigsAbove(diffs, threshold)
  {
    sigs := [];
    var j := 0;
    while j < |diffs|
      invariant 0 <= j <= |diffs|
      invariant sigs == SigsAbove(diffs[..j], threshold)
    {
      assert diffs[..j + 1][..j] == diffs[..j];
      if diffs[j] as real > threshold {
        sigs := sigs + [j + 1];
      }
      j := j + 1;
    }
    assert diffs[..j] == diffs;
  }

  /** `get_transitions(min_threshold, hashes)`, with numpy's threshold formula given as `thresholdOf`. */
  method GetTransitions(minThreshold: real, hashes: seq<Hash>, thresholdOf: seq<nat> -> Stat) returns (t: Transitions)
    ensures t == TransitionsOf(minThreshold, hashes, thresholdOf)
  {
    var diffs := HashDifferences(hashes);
    var dynamicThreshold := thresholdOf(diffs);
    if RejectsThreshold(dynamicThreshold, minThreshold) {
      return Rejected(dynamicThreshold);
    }
    var sigs := DifferencesAbove(diffs, dynamicThreshold.v);
    t := Found(sigs, diffs, dynamicThreshold.v);
  }

  function Last(s: seq<nat>): nat
    requires |s| > 0
  {
    s[|s| - 1]
  }

  /**
   * `get_hashes` after hashing: no frames give `(0, [], min_threshold)`; when
   * the first pass selects transitions, the pass is repeated on the hashes
   * before the last of them.
   */
  function HashesOf(minThreshold: real, hashes: seq<Hash>, thresholdOf: seq<nat> -> Stat): Transitions
  {
    if |hashes| == 0 then Rejected(Num(minThreshold))
    else
      var first := TransitionsOf(minThreshold, hashes, thresholdOf);
      if first.Found? && |first.sigs| > 0 then
        TransitionsOf(minThreshold, hashes[..Last(first.sigs)], thresholdOf)
      else first
  }

  /** `get_hashes(frame_paths, min_threshold)`, given the frames' hashes. */
  method GetHashes(minThreshold: real, hashes: seq<Hash>, thresholdOf: seq<nat> -> Stat) returns (t: Transitions)
    ensures t == HashesOf(minThreshold, hashes, thresholdOf)
  {
    if |hashes| == 0 {
      return Rejected(Num(minThreshold));
    }
    t := GetTransitions(minThreshold, hashes, thresholdOf);
    if t.Found? && |t.sigs| > 0 {
      var lastSignificant := t.sigs[|t.sigs| - 1];
      var truncated := hashes[..lastSignificant];
      t := GetTransitions(minThreshold, truncated, thresholdOf);
    }
  }

  /**
   * The re-run drops the last transition and everything after it: it sees
   * strictly fewer frames, and every transition it reports lies before the
   * dropped one.
   */
  lemma RerunDropsLastTransition(minThreshold: real, hashes: seq<Hash>, thresholdOf: seq<nat> -> Stat)
    requires |hashes| > 0
    requires var first := TransitionsOf(minThreshold, hashes, thresholdOf); first.Found? && |first.sigs| > 0
    ensures var first := TransitionsOf(minThreshold, hashes, thresholdOf);
      var t := HashesOf(minThreshold, hashes, thresholdOf);
      && 1 <= Last(first.sigs) < |hashes|
      && t == TransitionsOf(minThreshold, hashes[..Last(first.sigs)], thresholdOf)
      && (t.Found? ==> forall k :: k in t.sigs ==> k < Last(first.sigs))
  {
    var first := TransitionsOf(minThreshold, hashes, thresholdOf);
    var t := HashesOf(minThreshold, hashes, thresholdOf);
    if t.Found? {
      forall k | k in t.sigs ensures k < Last(first.sigs) {
        var j :| 0 <= j < |t.sigs| && t.sigs[j] == k;
      }
    }
  }

  // ---------------------------------------------------------------- timestamps

  /**
   * `get_timestamps`: the start, each selected frame's time, and the end.
   * Only a transition divides by the frame rate, so without transitions a
   * rate of 0 is harmless.
   */
  function GetTimestamps(fps: nat, sigs: seq<nat>, duration: real): (r: seq<real>)
    requires |sigs| > 0 ==> fps > 0
    ensures |r| == |sigs| + 2
  {
    [0.0] + seq(|sigs|, i requires 0 <= i < |sigs| => sigs[i] as real / fps as real) + [duration]
  }

  lemma DivideKeepsOrder(a: real, b: real, d: real)
    requires 0.0 < d && a < b
    ensures a / d < b / d
  {
    assert b / d - a / d == (b - a) / d;
  }

  /**
   * Increasing frame positions give increasing times, starting at 0.0 and
   * ending at the duration, and the list is sorted when the last transition
   * is not after the end.
   */
  lemma TimestampsOrdered(fps: nat, sigs: seq<nat>, duration: real)
    requires |sigs| > 0 ==> fps > 0
    requires forall j :: 0 <= j < |sigs| ==> sigs[j] >= 1
    requires forall j, k :: 0 <= j < k < |sigs| ==> sigs[j] < sigs[k]
    ensures var r := GetTimestamps(fps, sigs, duration);
      && r[0] == 0.0 && r[|r| - 1] == duration
      && (forall i :: 0 <= i < |sigs| ==> r[i + 1] == sigs[i] as real / fps as real)
      && (forall i, j :: 0 <= i < j <= |sigs| ==> r[i] < r[j])
      && (0.0 <= duration && (|sigs| == 0 || Last(sigs) as real / fps as real <= duration) ==>
            forall i, j :: 0 <= i < j < |r| ==> r[i] <= r[j])
  {
    var r := GetTimestamps(fps, sigs, duration);
    forall i, j | 0 <= i < j <= |sigs| ensures r[i] < r[j] {
      if i > 0 {
        DivideKeepsOrder(sigs[i - 1] as real, sigs[j - 1] as real, fps as real);
      } else {
        DivideKeepsOrder(0.0, sigs[j - 1] as real, fps as real);
      }
    }
    if 0.0 <= duration && (|sigs| == 0 || Last(sigs) as real / fps as real <= duration) {
      forall i, j | 0 <= i < j < |r| ensures r[i] <= r[j] {
        if j == |r| - 1 && |sigs| > 0 {
          // every time is at most the last transition's, which is at most the duration
          assert r[i] <= r[|sigs|] by {
            if i < |sigs| { assert r[i] < r[|sigs|]; }
          }
        }
      }
    }
  }

  /** A time as `get_formatted_timestamps` splits it. */
  datatype Clock = Clock(minutes: int, seconds: nat, tenths: nat)

  /**
   * `int(t // 60)`, `int(t % 60)` and `int((t * 10) % 10)`, with Python's
   * floor division and floored modulo.
   */
  function ClockOf(t: real): (c: Clock)
    ensures c.seconds < 60 && c.tenths < 10
    ensures 600 * c.minutes + 10 * c.seconds + c.tenths == (10.0 * t).Floor
  {
    var minutes := (t / 60.0).Floor;
    var secondsPart := t - 60.0 * minutes as real;
    var tenthsPart := 10.0 * t - 10.0 * (10.0 * t / 10.0).Floor as real;
    assert 0.0 <= secondsPart < 60.0;
    assert 0.0 <= tenthsPart < 10.0;
    assert (10.0 * t / 10.0).Floor == 60 * minutes + secondsPart.Floor;
    Clock(minutes, secondsPart.Floor, tenthsPart.Floor)
  }

  /** `f"{seconds:02}"` for seconds below 100. */
  function Pad2(n: nat): (s: string)
    requires n < 100
    ensures |s| == 2 && AllDigits(s) && 10 * DigitValue(s[0]) + DigitValue(s[1]) == n
  {
    if n < 10 then "0" + NatToString(n)
    else
      var s := NatToString(n);
      assert s == NatToString(n / 10) + [DigitChar(n % 10)];
      s
  }

  /** `f"{minutes}:{seconds:02}.{tenths}"`. */
  function FormatClock(c: Clock): string
    requires c.seconds < 60 && c.tenths < 10
  {
    IntToString(c.minutes) + ":" + Pad2(c.seconds) + "." + NatToString(c.tenths)
  }

  /** The text `get_formatted_timestamps` produces for one time. */
  function FormatTimestamp(t: real): string
  {
    FormatClock(ClockOf(t))
  }

  /** Reads "M:SS.t" back into its three fields. */
  function ParseClock(s: string): Option<Clock>
  {
    if |s| >= 6 && s[|s| - 5] == ':' && IsDigit(s[|s| - 4]) && IsDigit(s[|s| - 3])
       && s[|s| - 2] == '.' && IsDigit(s[|s| - 1])
    then
      match ParseInt(s[..|s| - 5])
      case None => None
      case Some(m) =>
        Some(Clock(m, 10 * DigitValue(s[|s| - 4]) + DigitValue(s[|s| - 3]), DigitValue(s[|s| - 1])))
    else None
  }

  /**
   * The text of a time determines it to the tenth of a second: it reads back
   * as minutes, seconds and tenths that add up to `t` rounded down to tenths.
   */
  lemma FormatTimestampRoundTrip(t: real)
    ensures ParseClock(FormatTimestamp(t)) == Some(ClockOf(t))
    ensures var c := ClockOf(t); (600 * c.minutes + 10 * c.seconds + c.tenths) as real <= 10.0 * t
    ensures var c := ClockOf(t); 10.0 * t < (600 * c.minutes + 10 * c.seconds + c.tenths + 1) as real
  {
    var c := ClockOf(t);
    var m := IntToString(c.minutes);
    var p := Pad2(c.seconds);
    var d := NatToString(c.tenths);
    var s := FormatTimestamp(t);
    assert |d| == 1;
    assert s == m + [':'] + p + ['.'] + d;
    assert s[..|s| - 5] == m;
    assert s[|s| - 4] == p[0] && s[|s| - 3] == p[1] && s[|s| - 1] == d[0];
    IntToStringRoundTrip(c.minutes);
    assert DigitValue(d[0]) == c.tenths by {
      assert d == [DigitChar(c.tenths)];
    }
  }

  /** `[f(x) for x in s]`, built element by element as an appending loop does. */
  function Mapped<A, B>(f: A -> B, s: seq<A>): seq<B>
  {
    if |s| == 0 then [] else Mapped(f, s[..|s| - 1]) + [f(s[|s| - 1])]
  }

  /** Mapping one more element appends its image. */
  lemma MappedSnoc<A, B>(f: A -> B, s: seq<A>, i: nat)
    requires i < |s|
    ensures Mapped(f, s[..i + 1]) == Mapped(f, s[..i]) + [f(s[i])]
  {
    assert s[..i + 1][..i] == s[..i];
  }

  /** Element `i` of the mapped list is `f` of element `i`. */
  lemma {:induction false} MappedAt<A, B>(f: A -> B, s: seq<A>)
    ensures |Mapped(f, s)| == |s|
    ensures forall i :: 0 <= i < |s| ==> Mapped(f, s)[i] == f(s[i])
    decreases |s|
  {
    if |s| > 0 {
      MappedAt(f, s[..|s| - 1]);
    }
  }

  /** `get_formatted_timestamps`: one "M:SS.t" string per time, in order. */
  method GetFormattedTimestamps(timestamps: seq<real>) returns (formatted: seq<string>)
    ensures |formatted| == |timestamps|
    ensures forall i :: 0 <= i < |timestamps| ==> ParseClock(formatted[i]) == Some(ClockOf(timestamps[i]))
    ensures forall i :: 0 <= i < |timestamps| ==> formatted[i] == FormatTimestamp(timestamps[i])
  {
    formatted := [];
    var i := 0;
    while i < |timestamps|
      invariant 0 <= i <= |timestamps|
      invariant formatted == Mapped(FormatTimestamp, timestamps[..i])
    {
      MappedSnoc(FormatTimestamp, timestamps, i);
      formatted := formatted + [FormatTimestamp(timestamps[i])];
      i := i + 1;
    }
    assert timestamps[..i] == timestamps;
    FormattedRoundTrip(timestamps, formatted);
  }

  /** Every text of the mapped list reads back as the clock of its time. */
  lemma FormattedRoundTrip(timestamps: seq<real>, formatted: seq<string>)
    requires formatted == Mapped(FormatTimestamp, timestamps)
    ensures |formatted| == |timestamps|
    ensures forall i :: 0 <= i < |timestamps| ==> ParseClock(formatted[i]) == Some(ClockOf(timestamps[i]))
    ensures forall i :: 0 <= i < |timestamps| ==> formatted[i] == FormatTimestamp(timestamps[i])
  {
    MappedAt(FormatTimestamp, timestamps);
    forall i | 0 <= i < |timestamps| ensures ParseClock(formatted[i]) == Some(ClockOf(timestamps[i])) {
      FormatTimestampRoundTrip(timestamps[i]);
    }
  }


  // ---------------------------------------------------------------- segments and ease

  datatype Ease = Easy | Medium | Hard
  {
    /** The `ease` text stored in the record. */
    function Name(): string
    {
      match this
      case Easy => "Easy"
      case Medium => "Medium"
      case Hard => "Hard"
    }
  }

  /** The three `ease` texts are distinct, so the record's string and the enumeration determine each other. */
  lemma EaseNamesDistinct(a: Ease, b: Ease)
    ensures a.Name() == b.Name() <==> a == b
  {
  }

  /** `classify_ease`. */
  function ClassifyEase(photoCount: nat, videoCount: nat): (e: Ease)
    ensures e == Easy <==> videoCount == 0
    ensures e == Hard <==> videoCount > photoCount
    ensures e == Medium <==> 0 < videoCount <= photoCount
  {
    if videoCount == 0 then Easy
    else if videoCount > photoCount then Hard
    else Medium
  }

  datatype Segment = Photo | StillShot | Video
  {
    /** The `segment_type` text. */
    function Name(): string
    {
      match this
      case Photo => "photo"
      case StillShot => "still shot / text change"
      case Video => "video"
    }
  }

  /** The three `segment_type` texts are distinct, so a frame's string and the enumeration determine each other. */
  lemma SegmentNamesDistinct(a: Segment, b: Segment)
    ensures a.Name() == b.Name() <==> a == b
  {
  }

  /** The type of a segment from its (rounded) variance and the two thresholds. */
  function ClassifySegment(variance: Stat, smallChangeThreshold: Stat, photoThreshold: real): Segment
  {
    if Below(variance, photoThreshold) then Photo
    else if BelowStat(variance, smallChangeThreshold) then StillShot
    else Video
  }

  /**
   * A segment is a photo exactly when its variance is a number below the
   * photo threshold; a NaN variance or a NaN threshold (numpy's result on an
   * empty segment) never compares below, so such a segment is never a still
   * shot, and a NaN variance makes it a video.
   */
  lemma ClassifySegmentMeaning(variance: Stat, smallChangeThreshold: Stat, photoThreshold: real)
    ensures var r := ClassifySegment(variance, smallChangeThreshold, photoThreshold);
      && (r == Photo <==> variance.Num? && variance.v < photoThreshold)
      && (r == StillShot <==> variance.Num? && smallChangeThreshold.Num?
                              && photoThreshold <= variance.v < smallChangeThreshold.v)
      && (variance.NaN? ==> r == Video)
  {
  }

  /** Python's `s[start:end]` for integer bounds: negative bounds count from the end, and bounds are clamped. */
  function PySlice<T>(s: seq<T>, start: int, end: int): (r: seq<T>)
    ensures |r| <= |s|
  {
    var lo := if start < 0 then (if start + |s| < 0 then 0 else start + |s|) else (if start > |s| then |s| else start);
    var hi := if end < 0 then (if end + |s| < 0 then 0 else end + |s|) else (if end > |s| then |s| else end);
    if lo < hi then s[lo..hi] else []
  }

  /**
   * Bounds inside the sequence give the Dafny slice; a negative end counts
   * from the back, so `s[a:-1]` stops before the last element; bounds that
   * cross, or lie wholly past either end, give the empty sequence.
   */
  lemma PySliceMeaning<T>(s: seq<T>, start: int, end: int)
    ensures 0 <= start <= end <= |s| ==> PySlice(s, start, end) == s[start..end]
    ensures 0 <= end <= start ==> PySlice(s, start, end) == []
    ensures 0 <= start && -|s| <= end < 0 ==>
      PySlice(s, start, end) == if start <= end + |s| then s[start..end + |s|] else []
    ensures |s| <= start || end <= -|s| ==> PySlice(s, start, end) == []
  {
  }

  /** `[diff for i, diff in enumerate(differences) if i not in [x - 1 for x in significant_changes]]`. */
  function NonSignificant(diffs: seq<nat>, sigs: seq<nat>): seq<nat>
  {
    if |diffs| == 0 then []
    else
      NonSignificant(diffs[..|diffs| - 1], sigs)
      + (if |diffs| in sigs then [] else [diffs[|diffs| - 1]])
  }

  /**
   * Leaving out the differences of significant pairs never adds one, and
   * leaves every difference in place when no pair is significant.
   */
  lemma {:induction false} NonSignificantKeeps(diffs: seq<nat>, sigs: seq<nat>)
    ensures |NonSignificant(diffs, sigs)| <= |diffs|
    ensures (forall k :: 1 <= k <= |diffs| ==> k !in sigs) ==> NonSignificant(diffs, sigs) == diffs
    decreases |diffs|
  {
    if |diffs| > 0 {
      var init := diffs[..|diffs| - 1];
      NonSignificantKeeps(init, sigs);
      assert init + [diffs[|diffs| - 1]] == diffs;
    }
  }

  /** One more difference is kept exactly when the pair it measures is not a transition. */
  lemma NonSignificantAppend(d: seq<nat>, e: nat, sigs: seq<nat>)
    ensures NonSignificant(d + [e], sigs) == NonSignificant(d, sigs) + (if |d| + 1 in sigs then [] else [e])
  {
    assert (d + [e])[..|d|] == d;
  }

  /**
   * The comprehension keeps difference `i` exactly when `i + 1` is not a
   * transition, i.e. `i` is not among the shifted positions `x - 1`.
   */
  lemma {:induction false} NonSignificantMembers(diffs: seq<nat>, sigs: seq<nat>, x: nat)
    ensures x in NonSignificant(diffs, sigs) <==> exists i :: 0 <= i < |diffs| && i + 1 !in sigs && diffs[i] == x
    decreases |diffs|
  {
    if |diffs| > 0 {
      var n := |diffs| - 1;
      var init := diffs[..n];
      NonSignificantMembers(init, sigs, x);
      assert diffs == init + [diffs[n]];
      NonSignificantAppend(init, diffs[n], sigs);
      if x in NonSignificant(diffs, sigs) {
        if x in NonSignificant(init, sigs) {
          var i :| 0 <= i < |init| && i + 1 !in sigs && init[i] == x;
          assert diffs[i] == x;
        } else {
          assert n + 1 !in sigs && diffs[n] == x;
        }
      }
      if exists i :: 0 <= i < |diffs| && i + 1 !in sigs && diffs[i] == x {
        var i :| 0 <= i < |diffs| && i + 1 !in sigs && diffs[i] == x;
        if i < n {
          assert init[i] == x;
        }
      }
    }
  }

  /** The kept differences are a sub-multiset of all differences. */
  lemma {:induction false} NonSignificantSubBag(diffs: seq<nat>, sigs: seq<nat>)
    ensures multiset(NonSignificant(diffs, sigs)) <= multiset(diffs)
    decreases |diffs|
  {
    if |diffs| > 0 {
      var n := |diffs| - 1;
      var init := diffs[..n];
      NonSignificantSubBag(init, sigs);
      assert diffs == init + [diffs[n]];
      NonSignificantAppend(init, diffs[n], sigs);
    }
  }

  /** `changes = [0] + significant_changes + [len(differences)]`. */
  function Changes(diffs: seq<nat>, sigs: seq<nat>): seq<int>
  {
    [0] + sigs + [|diffs|]
  }

  /** The differences of segment `i`: `differences[changes[i]:changes[i + 1] - 1]`. */
  function SegmentDiffs(diffs: seq<nat>, sigs: seq<nat>, i: nat): seq<nat>
    requires i <= |sigs|
  {
    var changes := Changes(diffs, sigs);
    PySlice(diffs, changes[i], changes[i + 1] - 1)
  }

  /**
   * Segment `i` is the run of differences from change `i` up to, not
   * including, the pair that ends at change `i + 1`. A change at frame 0
   * makes the end `-1`, which Python reads as "all but the last difference".
   */
  lemma SegmentDiffsRange(diffs: seq<nat>, sigs: seq<nat>, i: nat)
    requires i <= |sigs|
    ensures var c := Changes(diffs, sigs);
      && (1 <= c[i + 1] && c[i] <= c[i + 1] - 1 <= |diffs| ==> SegmentDiffs(diffs, sigs, i) == diffs[c[i]..c[i + 1] - 1])
      && (c[i + 1] == 0 && c[i] < |diffs| ==> SegmentDiffs(diffs, sigs, i) == diffs[c[i]..|diffs| - 1])
  {
    var c := Changes(diffs, sigs);
    PySliceMeaning(diffs, c[i], c[i + 1] - 1);
  }

  /** The type of each of the `len(significant_changes) + 1` segments. */
  function SegmentsOf(diffs: seq<nat>, sigs: seq<nat>, photoThreshold: real,
                      variance: seq<nat> -> Stat, stdDev: seq<nat> -> Stat): seq<Segment>
  {
    seq(|sigs| + 1, i requires 0 <= i <= |sigs| =>
      ClassifySegment(variance(SegmentDiffs(diffs, sigs, i)), stdDev(NonSignificant(diffs, sigs)), photoThreshold))
  }

  /** Segments that count towards `photo_count`. */
  function PhotoCount(segments: seq<Segment>): nat
  {
    if |segments| == 0 then 0
    else PhotoCount(segments[..|segments| - 1]) + (if segments[|segments| - 1] != Video then 1 else 0)
  }

  /** Segments that count towards `video_count`. */
  function VideoCount(segments: seq<Segment>): nat
  {
    if |segments| == 0 then 0
    else VideoCount(segments[..|segments| - 1]) + (if segments[|segments| - 1] == Video then 1 else 0)
  }

  /** Every segment is counted once, as photo-like or as video. */
  lemma {:induction false} CountsCoverSegments(segments: seq<Segment>)
    ensures PhotoCount(segments) + VideoCount(segments) == |segments|
    ensures VideoCount(segments) == 0 <==> forall i :: 0 <= i < |segments| ==> segments[i] != Video
    decreases |segments|
  {
    if |segments| > 0 {
      CountsCoverSegments(segments[..|segments| - 1]);
      var init := segments[..|segments| - 1];
      if VideoCount(init) == 0 && segments[|segments| - 1] != Video {
        forall i | 0 <= i < |segments| ensures segments[i] != Video {
          if i < |segments| - 1 { assert segments[i] == init[i]; }
        }
      }
      if VideoCount(init) != 0 {
        var k :| 0 <= k < |init| && init[k] == Video;
        assert segments[k] == Video;
      }
    }
  }

  /**
   * `get_vid_or_pic` emits one label per segment, the counts cover every
   * segment, and the video is "Easy" exactly when no segment is a video.
   */
  lemma SegmentsAndEase(diffs: seq<nat>, sigs: seq<nat>, photoThreshold: real,
                        variance: seq<nat> -> Stat, stdDev: seq<nat> -> Stat)
    ensures var segments := SegmentsOf(diffs, sigs, photoThreshold, variance, stdDev);
      && |segments| == |sigs| + 1
      && PhotoCount(segments) + VideoCount(segments) == |sigs| + 1
      && (ClassifyEase(PhotoCount(segments), VideoCount(segments)) == Easy
          <==> forall i :: 0 <= i < |segments| ==> segments[i] != Video)
  {
    CountsCoverSegments(SegmentsOf(diffs, sigs, photoThreshold, variance, stdDev));
  }

  /**
   * `get_vid_or_pic(differences, significant_changes, photo_threshold, fps)`,
   * with numpy's rounded variance and standard deviation given as functions.
   */
  method GetVidOrPic(diffs: seq<nat>, sigs: seq<nat>, photoThreshold: real,
                     variance: seq<nat> -> Stat, stdDev: seq<nat> -> Stat)
    returns (segments: seq<Segment>, ease: Ease)
    ensures segments == SegmentsOf(diffs, sigs, photoThreshold, variance, stdDev)
    ensures ease == ClassifyEase(PhotoCount(segments), VideoCount(segments))
  {
    segments := [];
    var photoCount, videoCount := 0, 0;
    var changes := [0] + sigs + [|diffs|];
    var i := 0;
    while i < |changes| - 1
      invariant 0 <= i <= |changes| - 1
      invariant segments == SegmentsOf(diffs, sigs, photoThreshold, variance, stdDev)[..i]
      invariant photoCount == PhotoCount(segments) && videoCount == VideoCount(segments)
    {
      var segmentDifferences := PySlice(diffs, changes[i], changes[i + 1] - 1);
      var smallChangeThreshold := stdDev(NonSignificant(diffs, sigs));
      var varDiff := variance(segmentDifferences);
      var segmentType: Segment;
      if Below(varDiff, photoThreshold) {
        segmentType := Photo;
        photoCount := photoCount + 1;
      } else if BelowStat(varDiff, smallChangeThreshold) {
        segmentType := StillShot;
        photoCount := photoCount + 1;
      } else {
        segmentType := Video;
        videoCount := videoCount + 1;
      }
      assert segmentDifferences == SegmentDiffs(diffs, sigs, i);
      var whole := SegmentsOf(diffs, sigs, photoThreshold, variance, stdDev);
      assert whole[i] == segmentType;
      assert whole[..i + 1] == whole[..i] + [segmentType];
      segments := segments + [segmentType];
      assert segments[..|segments| - 1] == whole[..i];
      i := i + 1;
    }
    assert segments == SegmentsOf(diffs, sigs, photoThreshold, variance, stdDev);
    ease := ClassifyEase(photoCount, videoCount);
  }

  // ---------------------------------------------------------------- signature frames

  /** One `shutil.copy2(source, target)` inside the frames folder. */
  datatype Copy = Copy(source: string, target: string)

  /**
   * The copies made for the frame indices `indices` when `present` holds the
   * files of the frames folder, numbering targets from `count`.
   */
  function SignatureCopies(indices: seq<nat>, present: set<string>, count: nat): seq<Copy>
  {
    if |indices| == 0 then []
    else if OutputFrameName(indices[0]) in present then
      [Copy(OutputFrameName(indices[0]), SignificantFrameName(count))] + SignatureCopies(indices[1..], present, count + 1)
    else SignatureCopies(indices[1..], present, count)
  }

  /** How many of the indices name a frame file that exists. */
  function CountPresent(indices: seq<nat>, present: set<string>): nat
  {
    if |indices| == 0 then 0
    else (if OutputFrameName(indices[0]) in present then 1 else 0) + CountPresent(indices[1..], present)
  }

  /**
   * The copies are named `significant_frame_<count>..` consecutively, one per
   * index whose file exists, and each copies an existing file.
   */
  lemma {:induction false} SignatureCopiesNamed(indices: seq<nat>, present: set<string>, count: nat)
    ensures var r := SignatureCopies(indices, present, count);
      && |r| == CountPresent(indices, present)
      && (forall k :: 0 <= k < |r| ==> r[k].target == SignificantFrameName(count + k))
      && (forall k :: 0 <= k < |r| ==> r[k].source in present)
    decreases |indices|
  {
    if |indices| > 0 {
      SignatureCopiesNamed(indices[1..], present, if OutputFrameName(indices[0]) in present then count + 1 else count);
    }
  }

  /** A Python list of frame indices, shared with the caller. */
  class IndexList {
    var items: seq<nat>

    constructor (items: seq<nat>)
      ensures this.items == items
    {
      this.items := items;
    }
  }

  /**
   * `make_signature_frames`: prepends frame 0 to the caller's list, then
   * copies each existing `output_frame_<index>.png` to the next
   * `significant_frame_<count>.png`. The extension test of the source is
   * always true for these names and is not modelled.
   */
  method MakeSignatureFrames(significantChanges: IndexList, present: set<string>) returns (copies: seq<Copy>)
    modifies significantChanges
    ensures significantChanges.items == [0] + old(significantChanges.items)
    ensures copies == SignatureCopies(significantChanges.items, present, 0)
  {
    significantChanges.items := [0] + significantChanges.items;
    var indices := significantChanges.items;
    copies := [];
    var count := 0;
    var i := 0;
    while i < |indices|
      invariant 0 <= i <= |indices|
      invariant count == |copies|
      invariant copies + SignatureCopies(indices[i..], present, count) == SignatureCopies(indices, present, 0)
    {
      var img := OutputFrameName(indices[i]);
      assert indices[i..][1..] == indices[i + 1..];
      if img in present {
        var newName := SignificantFrameName(count);
        copies := copies + [Copy(img, newName)];
        count := count + 1;
      }
      i := i + 1;
    }
  }
}
