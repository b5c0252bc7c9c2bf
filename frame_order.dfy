/**
 * Ordering and filtering of frame lists in the browser: the stable sort by
 * timestamp that `Array.prototype.sort` performs with the comparator
 * `a.timestamp - b.timestamp`, and removal of one position by `filter`.
 */
module FrameOrder {
  import opened Records

  /**
   * Places `x` after every element of `s` whose timestamp is not larger than
   * its own: one step of a stable insertion sort.
   */
  function Insert(s: seq<Frame>, x: Frame): (r: seq<Frame>)
    ensures |r| == |s| + 1
  {
    if |s| == 0 then [x]
    else if s[|s| - 1].timestamp > x.timestamp then Insert(s[..|s| - 1], x) + [s[|s| - 1]]
    else s + [x]
  }

  /** The list ordered ascending by timestamp, frames with equal timestamps kept in their order. */
  function Sort(s: seq<Frame>): (r: seq<Frame>)
    ensures |r| == |s|
  {
    if |s| == 0 then [] else Insert(Sort(s[..|s| - 1]), s[|s| - 1])
  }

  /** The frames whose timestamp is exactly `t`, in list order. */
  function WithTimestamp(s: seq<Frame>, t: real): seq<Frame>
  {
    if |s| == 0 then []
    else WithTimestamp(s[..|s| - 1], t) + (if s[|s| - 1].timestamp == t then [s[|s| - 1]] else [])
  }

  lemma {:induction false} WithTimestampAppend(a: seq<Frame>, b: seq<Frame>, t: real)
    ensures WithTimestamp(a + b, t) == WithTimestamp(a, t) + WithTimestamp(b, t)
    decreases |b|
  {
    if |b| == 0 {
      assert a + b == a;
    } else {
      assert (a + b)[..|a + b| - 1] == a + b[..|b| - 1];
      WithTimestampAppend(a, b[..|b| - 1], t);
    }
  }

  lemma {:induction false} InsertPermutes(s: seq<Frame>, x: Frame)
    ensures multiset(Insert(s, x)) == multiset(s) + multiset{x}
    decreases |s|
  {
    if |s| > 0 && s[|s| - 1].timestamp > x.timestamp {
      InsertPermutes(s[..|s| - 1], x);
      assert s == s[..|s| - 1] + [s[|s| - 1]];
    }
  }

  lemma {:induction false} InsertSorted(s: seq<Frame>, x: Frame)
    requires SortedByTime(s)
    ensures SortedByTime(Insert(s, x))
    ensures forall i :: 0 <= i < |Insert(s, x)| ==> Insert(s, x)[i] in s || Insert(s, x)[i] == x
    decreases |s|
  {
    if |s| > 0 && s[|s| - 1].timestamp > x.timestamp {
      var init := s[..|s| - 1];
      InsertSorted(init, x);
      InsertPermutes(init, x);
      var r := Insert(init, x);
      forall i | 0 <= i < |r|
        ensures r[i].timestamp <= s[|s| - 1].timestamp
      {
        if r[i] != x {
          assert r[i] in init;
        }
      }
    }
  }

  lemma WithTimestampOne(x: Frame, t: real)
    ensures WithTimestamp([x], t) == if x.timestamp == t then [x] else []
  {
    assert [x][..0] == [];
  }

  lemma {:induction false} InsertStable(s: seq<Frame>, x: Frame, t: real)
    ensures WithTimestamp(Insert(s, x), t) == WithTimestamp(s, t) + (if x.timestamp == t then [x] else [])
    decreases |s|
  {
    var here: seq<Frame> := if x.timestamp == t then [x] else [];
    WithTimestampOne(x, t);
    if |s| > 0 && s[|s| - 1].timestamp > x.timestamp {
      var init, last := s[..|s| - 1], s[|s| - 1];
      var there: seq<Frame> := if last.timestamp == t then [last] else [];
      assert WithTimestamp(Insert(s, x), t) == (WithTimestamp(init, t) + here) + there by {
        assert Insert(s, x) == Insert(init, x) + [last];
        InsertStable(init, x, t);
        WithTimestampAppend(Insert(init, x), [last], t);
        WithTimestampOne(last, t);
      }
      assert WithTimestamp(s, t) == WithTimestamp(init, t) + there;
      assert here == [] || there == [];
    } else if |s| > 0 {
      WithTimestampAppend(s, [x], t);
    }
  }

  lemma {:induction false} SortSorted(s: seq<Frame>)
    ensures SortedByTime(Sort(s))
    decreases |s|
  {
    if |s| > 0 {
      SortSorted(s[..|s| - 1]);
      InsertSorted(Sort(s[..|s| - 1]), s[|s| - 1]);
    }
  }

  /** Sorting a non-empty list inserts its last frame into the sorted rest. */
  lemma SortLastPermutes(s: seq<Frame>)
    requires |s| > 0
    ensures multiset(Sort(s)) == multiset(Sort(s[..|s| - 1])) + multiset{s[|s| - 1]}
  {
    InsertPermutes(Sort(s[..|s| - 1]), s[|s| - 1]);
  }

  /** A list holds the frames of its prefix and its last frame. */
  lemma MultisetOfLast(s: seq<Frame>)
    requires |s| > 0
    ensures multiset(s) == multiset(s[..|s| - 1]) + multiset{s[|s| - 1]}
  {
    assert s == s[..|s| - 1] + [s[|s| - 1]];
  }

  lemma {:induction false} SortPermutes(s: seq<Frame>)
    ensures multiset(Sort(s)) == multiset(s)
    decreases |s|
  {
    if |s| > 0 {
      SortLastPermutes(s);
      SortPermutes(s[..|s| - 1]);
      MultisetOfLast(s);
    }
  }

  lemma SortSortsAndPermutes(s: seq<Frame>)
    ensures SortedByTime(Sort(s))
    ensures multiset(Sort(s)) == multiset(s)
    ensures |Sort(s)| == |s|
  {
    SortSorted(s);
    SortPermutes(s);
  }

  /** The sort is stable: the frames sharing any one timestamp keep their relative order. */
  lemma {:induction false} SortIsStable(s: seq<Frame>, t: real)
    ensures WithTimestamp(Sort(s), t) == WithTimestamp(s, t)
    decreases |s|
  {
    if |s| > 0 {
      var init, last := s[..|s| - 1], s[|s| - 1];
      SortIsStable(init, t);
      InsertStable(Sort(init), last, t);
    }
  }

  /** A frame apart from `x` and from every frame of `s` is apart from every frame of `Insert(s, x)`. */
  lemma InsertApartFrom(s: seq<Frame>, x: Frame, y: Frame)
    requires Apart(x, y)
    requires forall k :: 0 <= k < |s| ==> Apart(s[k], y)
    ensures forall i :: 0 <= i < |Insert(s, x)| ==> Apart(Insert(s, x)[i], y)
  {
    InsertPermutes(s, x);
    var r := Insert(s, x);
    forall i | 0 <= i < |r| ensures Apart(r[i], y) {
      assert r[i] in multiset(r);
      if r[i] != x {
        assert r[i] in s;
      }
    }
  }

  lemma {:induction false} InsertSeparated(s: seq<Frame>, x: Frame)
    requires Separated(s)
    requires forall i :: 0 <= i < |s| ==> Apart(s[i], x)
    ensures Separated(Insert(s, x))
    decreases |s|
  {
    if |s| > 0 && s[|s| - 1].timestamp > x.timestamp {
      var init, last := s[..|s| - 1], s[|s| - 1];
      InsertSeparated(init, x);
      InsertApartFrom(init, x, last);
      assert Insert(s, x) == Insert(init, x) + [last];
    }
  }

  /** Sorting keeps a separated list separated. */
  lemma {:induction false} SortSeparated(s: seq<Frame>)
    requires Separated(s)
    ensures Separated(Sort(s))
    decreases |s|
  {
    if |s| > 0 {
      var init, last := s[..|s| - 1], s[|s| - 1];
      SortSeparated(init);
      SortSortsAndPermutes(init);
      var r := Sort(init);
      forall i | 0 <= i < |r|
        ensures Apart(r[i], last)
      {
        assert r[i] in multiset(r);
        var k :| 0 <= k < |init| && init[k] == r[i];
        assert Apart(s[k], s[|s| - 1]);
      }
      InsertSeparated(r, last);
    }
  }

  /** `s.filter((_, idx) => idx !== index)`. */
  function Without<T>(s: seq<T>, index: int): (r: seq<T>)
    ensures |r| == if 0 <= index < |s| then |s| - 1 else |s|
    ensures forall x :: x in r ==> x in s
  {
    if |s| == 0 then []
    else Without(s[..|s| - 1], index) + (if |s| - 1 == index then [] else [s[|s| - 1]])
  }

  /**
   * Filtering out one position drops exactly the element there and keeps the
   * rest in order; an index outside the list changes nothing.
   */
  lemma {:induction false} WithoutDropsOne<T>(s: seq<T>, index: int)
    ensures 0 <= index < |s| ==> Without(s, index) == s[..index] + s[index + 1..]
    ensures !(0 <= index < |s|) ==> Without(s, index) == s
    decreases |s|
  {
    if |s| > 0 {
      var init := s[..|s| - 1];
      WithoutDropsOne(init, index);
      if index == |s| - 1 {
        assert init == s[..index] + s[index + 1..];
      } else if 0 <= index < |s| - 1 {
        assert init[..index] == s[..index];
        assert init[index + 1..] + [s[|s| - 1]] == s[index + 1..];
      } else {
        assert init + [s[|s| - 1]] == s;
      }
    }
  }

  /** Removing a frame keeps a separated list separated. */
  lemma WithoutSeparated(s: seq<Frame>, index: int)
    requires Separated(s)
    ensures Separated(Without(s, index))
  {
    WithoutDropsOne(s, index);
    if 0 <= index < |s| {
      var r := Without(s, index);
      forall i, j | 0 <= i < j < |r|
        ensures Apart(r[i], r[j])
      {
        var i', j' := if i < index then i else i + 1, if j < index then j else j + 1;
        assert r[i] == s[i'] && r[j] == s[j'];
      }
    }
  }

  /**
   * Where the shift stops, `x` lands after the prefix whose timestamps are
   * not larger than its own and before the tail of larger ones.
   */
  lemma {:induction false} InsertAt(p: seq<Frame>, x: Frame, j: nat)
    requires j <= |p| && (j == 0 || p[j - 1].timestamp <= x.timestamp)
    requires forall k :: j <= k < |p| ==> p[k].timestamp > x.timestamp
    ensures Insert(p, x) == p[..j] + [x] + p[j..]
    decreases |p|
  {
    if |p| == j {
      assert p[..j] == p && p[j..] == [];
    } else {
      var init, last := p[..|p| - 1], p[|p| - 1];
      assert Insert(p, x) == Insert(init, x) + [last];
      InsertAt(init, x, j);
      assert init[..j] == p[..j];
      assert init[j..] + [last] == p[j..];
    }
  }

  /** A list that agrees with `p[..j] + [x] + p[j..]` position by position is that list. */
  lemma Placed(r: seq<Frame>, p: seq<Frame>, x: Frame, j: nat)
    requires j <= |p| && |r| == |p| + 1 && r[j] == x
    requires forall k :: 0 <= k < j ==> r[k] == p[k]
    requires forall k :: j < k < |r| ==> r[k] == p[k - 1]
    ensures r == p[..j] + [x] + p[j..]
  {
  }

  /**
   * The inner loop of insertion sort: moves the frames of `a[..i]` that are
   * later than `x` one place to the right and returns the gap left behind.
   */
  method ShiftLater(a: array<Frame>, i: nat, x: Frame, ghost p: seq<Frame>) returns (j: nat)
    requires i < a.Length && p == a[..i]
    modifies a
    ensures j <= i && (j == 0 || p[j - 1].timestamp <= x.timestamp)
    ensures forall k :: 0 <= k < j ==> a[k] == p[k]
    ensures forall k :: j < k <= i ==> a[k] == p[k - 1]
    ensures forall k :: j <= k < i ==> p[k].timestamp > x.timestamp
    ensures forall k :: i < k < a.Length ==> a[k] == old(a[k])
  {
    j := i;
    while j > 0 && a[j - 1].timestamp > x.timestamp
      invariant 0 <= j <= i
      invariant forall k :: 0 <= k < j ==> a[k] == p[k]
      invariant forall k :: j < k <= i ==> a[k] == p[k - 1]
      invariant forall k :: j <= k < i ==> p[k].timestamp > x.timestamp
      invariant forall k :: i < k < a.Length ==> a[k] == old(a[k])
    {
      a[j] := a[j - 1];
      j := j - 1;
    }
  }

  /**
   * Moves `a[i]` down past the larger timestamps before it, so that a sorted
   * prefix `a[..i]` grows into the sorted prefix `a[..i + 1]`.
   */
  method InsertInPlace(a: array<Frame>, i: nat)
    requires i < a.Length
    modifies a
    ensures a[..i + 1] == Insert(old(a[..i]), old(a[i]))
    ensures a[i + 1..] == old(a[i + 1..])
  {
    var x := a[i];
    ghost var p := a[..i];
    var j := ShiftLater(a, i, x, p);
    a[j] := x;
    assert a[..i + 1] == Insert(p, x) by {
      InsertAt(p, x, j);
      Placed(a[..i + 1], p, x, j);
    }
  }


  /**
   * `frames.sort((a, b) => a.timestamp - b.timestamp)`: sorts the array in
   * place, by insertion.
   */
  method SortFrames(a: array<Frame>)
    modifies a
    ensures a[..] == Sort(old(a[..]))
  {
    ghost var s := a[..];
    var i := 0;
    while i < a.Length
      invariant 0 <= i <= a.Length
      invariant a[..i] == Sort(s[..i])
      invariant a[i..] == s[i..]
    {
      assert s[..i + 1][..i] == s[..i];
      assert a[i + 1..] == s[i + 1..] && a[i] == s[i] by {
        assert a[i..][1..] == a[i + 1..] && s[i..][1..] == s[i + 1..];
        assert a[i..][0] == a[i] && s[i..][0] == s[i];
      }
      InsertInPlace(a, i);
      i := i + 1;
    }
    assert a[..] == a[..a.Length];
    assert s == s[..a.Length];
  }
}
