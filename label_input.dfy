/**
 * The label form shown once the frame set is finalized (`LabelInput` in the
 * browser): one free-text label per clip and a set of trend categories
 * chosen from a fixed vocabulary.
 */
module Labels {
  import opened Wrappers
  import opened Records

  /** The ten categories offered as checkboxes, in display order. */
  const TiktokCategories: seq<string> :=
    ["Beauty", "Fashion", "Dance", "Humor", "Advice", "News", "Education", "Gaming", "Sports", "Music"]

  /** The characters `String.prototype.trim` removes: ECMAScript white space and line terminators. */
  predicate IsJsWhitespace(c: char)
  {
    || c == '\t' || c == '\n' || c == '\U{000B}' || c == '\U{000C}' || c == '\r' || c == ' '
    || c == '\U{00A0}' || c == '\U{1680}' || ('\U{2000}' <= c <= '\U{200A}')
    || c == '\U{2028}' || c == '\U{2029}' || c == '\U{202F}' || c == '\U{205F}'
    || c == '\U{3000}' || c == '\U{FEFF}'
  }

  /** `s` without its leading white space. */
  function TrimStart(s: string): (r: string)
    ensures |r| <= |s| && r == s[|s| - |r|..]
    ensures |r| > 0 ==> !IsJsWhitespace(r[0])
  {
    if |s| > 0 && IsJsWhitespace(s[0]) then
      var r := TrimStart(s[1..]);
      assert s[1..][|s| - 1 - |r|..] == s[|s| - |r|..];
      r
    else s
  }

  /** `s` without its trailing white space. */
  function TrimEnd(s: string): (r: string)
    ensures |r| <= |s| && r == s[..|r|]
    ensures |r| > 0 ==> !IsJsWhitespace(r[|r| - 1])
  {
    if |s| > 0 && IsJsWhitespace(s[|s| - 1]) then
      var r := TrimEnd(s[..|s| - 1]);
      assert s[..|s| - 1][..|r|] == s[..|r|];
      r
    else s
  }

  /** `s.trim()`: a piece of `s` with no white space at either end. */
  function Trim(s: string): (r: string)
    ensures |r| <= |s|
    ensures |r| > 0 ==> !IsJsWhitespace(r[0]) && !IsJsWhitespace(r[|r| - 1])
  {
    TrimEnd(TrimStart(s))
  }

  predicate Blank(s: string)
  {
    forall i :: 0 <= i < |s| ==> IsJsWhitespace(s[i])
  }

  lemma {:induction false} TrimStartBlank(s: string)
    ensures TrimStart(s) == "" <==> Blank(s)
    decreases |s|
  {
    if |s| > 0 && IsJsWhitespace(s[0]) {
      assert TrimStart(s) == TrimStart(s[1..]);
      TrimStartBlank(s[1..]);
      assert Blank(s) <==> Blank(s[1..]) by {
        if Blank(s[1..]) {
          forall i | 0 <= i < |s| ensures IsJsWhitespace(s[i]) {
            if i > 0 { assert s[i] == s[1..][i - 1]; }
          }
        }
      }
    } else if |s| > 0 {
      assert TrimStart(s) == s;
    }
  }

  lemma {:induction false} TrimEndKeepsFirst(s: string)
    requires |s| > 0 && !IsJsWhitespace(s[0])
    ensures |TrimEnd(s)| > 0
    decreases |s|
  {
    if IsJsWhitespace(s[|s| - 1]) {
      TrimEndKeepsFirst(s[..|s| - 1]);
    }
  }

  /** A label trims to the empty string exactly when it is empty or all white space. */
  lemma TrimEmptyIffBlank(s: string)
    ensures Trim(s) == "" <==> Blank(s)
  {
    TrimStartBlank(s);
    if TrimStart(s) != "" {
      TrimEndKeepsFirst(TrimStart(s));
    }
  }

  /** `labels.some((label) => label.trim() === '')`. */
  predicate SomeLabelBlank(labels: seq<string>)
  {
    exists i :: 0 <= i < |labels| && Trim(labels[i]) == ""
  }

  /** The submit guard fires exactly when some label is empty or all white space. */
  lemma SomeLabelBlankIff(labels: seq<string>)
    ensures SomeLabelBlank(labels) <==> exists i :: 0 <= i < |labels| && Blank(labels[i])
  {
    forall i | 0 <= i < |labels| ensures Trim(labels[i]) == "" <==> Blank(labels[i]) {
      TrimEmptyIffBlank(labels[i]);
    }
  }

  /** `categories.filter((c) => c !== category)`. */
  function RemoveAll(cs: seq<string>, c: string): (r: seq<string>)
    ensures forall x :: x in r <==> x in cs && x != c
    ensures multiset(r) == multiset(cs)[c := 0]
  {
    if |cs| == 0 then []
    else
      assert cs == cs[..|cs| - 1] + [cs[|cs| - 1]];
      RemoveAll(cs[..|cs| - 1], c) + (if cs[|cs| - 1] == c then [] else [cs[|cs| - 1]])
  }

  /** Filtering a concatenation filters each part and keeps the parts in order. */
  lemma {:induction false} RemoveAllAppend(a: seq<string>, b: seq<string>, c: string)
    ensures RemoveAll(a + b, c) == RemoveAll(a, c) + RemoveAll(b, c)
    decreases |b|
  {
    if |b| == 0 {
      assert a + b == a;
    } else {
      var init, last := b[..|b| - 1], b[|b| - 1];
      assert (a + b)[..|a + b| - 1] == a + init;
      RemoveAllAppend(a, init, c);
    }
  }

  /** A surviving category splits the filtered list around itself. */
  lemma RemoveAllSplitAt(cs: seq<string>, c: string, j: nat)
    requires j < |cs| && cs[j] != c
    ensures RemoveAll(cs, c) == RemoveAll(cs[..j], c) + [cs[j]] + RemoveAll(cs[j + 1..], c)
  {
    assert cs == cs[..j] + ([cs[j]] + cs[j + 1..]);
    RemoveAllAppend(cs[..j], [cs[j]] + cs[j + 1..], c);
    RemoveAllAppend([cs[j]], cs[j + 1..], c);
    assert RemoveAll([cs[j]], c) == [cs[j]];
  }

  /** Any two surviving categories appear in the filtered list in their original order. */
  lemma RemoveAllKeepsOrder(cs: seq<string>, c: string, i: nat, j: nat)
    requires i < j < |cs| && cs[i] != c && cs[j] != c
    ensures exists i', j' :: (0 <= i' < j' < |RemoveAll(cs, c)|
      && RemoveAll(cs, c)[i'] == cs[i] && RemoveAll(cs, c)[j'] == cs[j])
  {
    RemoveAllSplitAt(cs, c, j);
    var kept := RemoveAll(cs[..j], c);
    assert cs[..j][i] in kept;
    var i' :| 0 <= i' < |kept| && kept[i'] == cs[..j][i];
    AroundIndex(RemoveAll(cs, c), kept, cs[j], RemoveAll(cs[j + 1..], c), i');
  }

  lemma AroundIndex<T>(r: seq<T>, a: seq<T>, y: T, b: seq<T>, k: nat)
    requires r == a + [y] + b && k < |a|
    ensures |a| < |r| && r[k] == a[k] && r[|a|] == y
  {
  }

  /** The checkbox handler: a present category is removed, an absent one appended. */
  function Toggle(cs: seq<string>, c: string): (r: seq<string>)
    ensures c in r <==> c !in cs
    ensures forall x :: x != c ==> (x in r <==> x in cs)
  {
    if c in cs then RemoveAll(cs, c) else cs + [c]
  }

  predicate NoDuplicates(cs: seq<string>)
  {
    forall i, j :: 0 <= i < j < |cs| ==> cs[i] != cs[j]
  }

  /** Filtering out a category that is absent changes nothing. */
  lemma {:induction false} RemoveAllAbsent(cs: seq<string>, c: string)
    requires c !in cs
    ensures RemoveAll(cs, c) == cs
    decreases |cs|
  {
    if |cs| > 0 {
      var init, last := cs[..|cs| - 1], cs[|cs| - 1];
      assert cs == init + [last];
      assert c !in init;
      RemoveAllAbsent(init, c);
      assert last != c;
    }
  }

  /** Filtering keeps the surviving categories in their order, so it keeps them distinct. */
  lemma {:induction false} RemoveAllNoDuplicates(cs: seq<string>, c: string)
    requires NoDuplicates(cs)
    ensures NoDuplicates(RemoveAll(cs, c))
    decreases |cs|
  {
    if |cs| > 0 {
      var init, last := cs[..|cs| - 1], cs[|cs| - 1];
      RemoveAllNoDuplicates(init, c);
      assert last !in init;
    }
  }

  /** Toggling preserves "no category twice". */
  lemma ToggleNoDuplicates(cs: seq<string>, c: string)
    requires NoDuplicates(cs)
    ensures NoDuplicates(Toggle(cs, c))
  {
    if c in cs {
      RemoveAllNoDuplicates(cs, c);
    }
  }

  /** Toggling an absent category appends it; toggling it again restores the list exactly. */
  lemma ToggleTwiceRestores(cs: seq<string>, c: string)
    requires c !in cs
    ensures Toggle(cs, c) == cs + [c]
    ensures Toggle(Toggle(cs, c), c) == cs
  {
    var t := cs + [c];
    assert t[..|t| - 1] == cs;
    RemoveAllAbsent(cs, c);
  }

  /** Toggling a present category removes every occurrence and nothing else. */
  lemma TogglePresentRemoves(cs: seq<string>, c: string)
    requires c in cs
    ensures c !in Toggle(cs, c)
    ensures forall x :: x != c ==> multiset(Toggle(cs, c))[x] == multiset(cs)[x]
  {
  }

  /**
   * Toggling a present category twice does not restore the list: the first
   * toggle removes every occurrence, the second appends it at the end.
   */
  lemma ToggleTwicePresent(cs: seq<string>, c: string)
    requires c in cs
    ensures Toggle(Toggle(cs, c), c) == RemoveAll(cs, c) + [c]
  {
    assert Toggle(cs, c) == RemoveAll(cs, c);
    assert c !in RemoveAll(cs, c);
  }

  /** Checking "A" off and on again in ["A", "B"] moves it behind "B". */
  lemma ToggleTwiceMovesToEnd()
    ensures Toggle(Toggle(["A", "B"], "A"), "A") == ["B", "A"]
  {
    var cs: seq<string> := ["A", "B"];
    assert "A" in cs by { assert cs[0] == "A"; }
    assert "B" != "A" by { assert "B"[0] != "A"[0]; }
    assert RemoveAll(["A"], "A") == [] by { assert ["A"][..0] == []; }
    assert RemoveAll(cs, "A") == ["B"] by { assert cs[..1] == ["A"]; }
    ToggleTwicePresent(cs, "A");
  }


  /** Toggles that come from the checkboxes keep the categories inside the vocabulary. */
  lemma ToggleStaysInVocabulary(cs: seq<string>, c: string)
    requires forall x :: x in cs ==> x in TiktokCategories
    requires c in TiktokCategories
    ensures forall x :: x in Toggle(cs, c) ==> x in TiktokCategories
  {
  }

  /** The body of the `save_labels` request. */
  datatype SaveRequest = SaveRequest(videoId: string, labels: seq<string>, categories: seq<string>)

  class LabelInput {
    const videoId: string
    var labels: seq<string>
    var categories: seq<string>

    /** One empty label per clip and no category. */
    constructor (numClips: nat, videoId: string)
      ensures this.videoId == videoId
      ensures |labels| == numClips && forall i :: 0 <= i < numClips ==> labels[i] == ""
      ensures categories == []
    {
      this.videoId := videoId;
      labels := seq(numClips, _ => "");
      categories := [];
    }

    /** Typing into the text field of clip `index`. */
    method HandleLabelChange(index: nat, value: string)
      requires index < |labels|
      modifies this
      ensures |labels| == |old(labels)| && labels[index] == value
      ensures forall i :: 0 <= i < |labels| && i != index ==> labels[i] == old(labels)[i]
      ensures categories == old(categories)
    {
      var newLabels := labels;
      newLabels := newLabels[index := value];
      labels := newLabels;
    }

    /** Clicking the checkbox of `category`. */
    method HandleCategoryChange(category: string)
      modifies this
      ensures categories == Toggle(old(categories), category)
      ensures labels == old(labels)
    {
      if category in categories {
        categories := RemoveAll(categories, category);
      } else {
        categories := categories + [category];
      }
    }

    /**
     * The "Submit Labels" button. A blank label blocks the request; otherwise
     * the labels and categories are posted as held, and the success callback
     * receives the record of a successful reply.
     */
    method HandleSubmit(reply: Reply) returns (request: Option<SaveRequest>, saved: Option<Record>)
      ensures request.None? <==> exists i :: 0 <= i < |labels| && Blank(labels[i])
      ensures request.Some? ==> request.value == SaveRequest(videoId, labels, categories)
      ensures saved.Some? <==> request.Some? && reply.Success?
      ensures saved.Some? ==> saved.value == reply.analysisData
    {
      forall i | 0 <= i < |labels| ensures Trim(labels[i]) == "" <==> Blank(labels[i]) {
        TrimEmptyIffBlank(labels[i]);
      }
      if SomeLabelBlank(labels) {
        return None, None;
      }
      request := Some(SaveRequest(videoId, labels, categories));
      saved := if reply.Success? then Some(reply.analysisData) else None;
    }
  }
}
