/**
 The grapheme offset table of irido/grapheme.go.  The segmenter is any function that, given a
 non-empty string and its own state, cuts a non-empty prefix off it.
 */
module Graphemes {

  type Bytes = seq<bv8>

  /** StepString: the length of the next cluster and the next state. */
  type Segmenter = f: (Bytes, int) -> (nat, int) | forall s, state :: s != [] ==> 1 <= f(s, state).0 <= |s|
    witness (s: Bytes, state: int) => (|s|, state)

  /** Nil is the nil pointer, on which every operation has an answer. */
  datatype Graphemes = Nil | Graphemes(original: Bytes, offsets: seq<int>)

  // ---------------------------------------------------------------- building

  /** The clusters of `s` from a given state on. */
  function Clusters(step: Segmenter, s: Bytes, state: int): seq<Bytes> {
    if s == [] then []
    else
      var (n, next) := step(s, state);
      [s[..n]] + Clusters(step, s[n..], next)
  }

  /** Where each cluster starts, and where the last one ends. */
  function Offsets(clusters: seq<Bytes>, from: int): seq<int> {
    if clusters == [] then [from] else [from] + Offsets(clusters[1..], from + |clusters[0]|)
  }

  function Built(step: Segmenter, str: Bytes): Graphemes {
    Graphemes(str, if str == [] then [] else Offsets(Clusters(step, str, -1), 0))
  }

  method NewGraphemes(step: Segmenter, str: Bytes) returns (g: Graphemes)
    ensures g == Built(step, str)
  {
    if str == [] {
      return Graphemes(str, []);
    }
    var offsets, offset := [], 0;
    var state, remaining := -1, str;
    while remaining != []
      invariant offsets + Offsets(Clusters(step, remaining, state), offset) == Offsets(Clusters(step, str, -1), 0)
      decreases |remaining|
    {
      var (n, next) := step(remaining, state);
      ghost var clusters := Clusters(step, remaining, state);
      assert clusters[1..] == Clusters(step, remaining[n..], next) && |clusters[0]| == n;
      ghost var rest := Offsets(clusters[1..], offset + n);
      assert offsets + ([offset] + rest) == (offsets + [offset]) + rest;
      offsets := offsets + [offset];
      offset := offset + n;
      remaining, state := remaining[n..], next;
    }
    offsets := offsets + [offset];
    return Graphemes(str, offsets);
  }

  // ---------------------------------------------------------------- reading

  function Length(g: Graphemes): nat {
    if g.Nil? || g.offsets == [] then 0 else |g.offsets| - 1
  }

  /** The table starts at 0, ends at the length of the string and never stands still. */
  ghost predicate WellFormed(g: Graphemes) {
    g.Nil? ||
    if g.offsets == [] then g.original == []
    else g.offsets[0] == 0 && g.offsets[|g.offsets| - 1] == |g.original| && Increasing(g.offsets)
  }

  ghost predicate Increasing(offsets: seq<int>) {
    forall i, j :: 0 <= i < j < |offsets| ==> Before(offsets, i, j)
  }

  ghost predicate Before(offsets: seq<int>, i: int, j: int)
    requires 0 <= i < j < |offsets|
  {
    offsets[i] < offsets[j]
  }

  lemma WellFormedBounds(g: Graphemes, i: int)
    requires WellFormed(g) && g.Graphemes? && 0 <= i < |g.offsets|
    ensures 0 <= g.offsets[i] <= |g.original|
  {
    assert i > 0 ==> Before(g.offsets, 0, i);
    assert i < |g.offsets| - 1 ==> Before(g.offsets, i, |g.offsets| - 1);
  }

  function Slice(g: Graphemes, start: int, end: int): Bytes
    requires WellFormed(g)
  {
    if g.Nil? || g.offsets == [] then []
    else
      var start := if start < 0 then 0 else start;
      var end := if end > Length(g) then Length(g) else end;
      if start >= end then []
      else
        WellFormedBounds(g, start);
        WellFormedBounds(g, end);
        assert Before(g.offsets, start, end);
        g.original[g.offsets[start]..g.offsets[end]]
  }

  function At(g: Graphemes, index: int): Bytes
    requires WellFormed(g)
  {
    if g.Nil? || index < 0 || index >= Length(g) then []
    else
      WellFormedBounds(g, index);
      WellFormedBounds(g, index + 1);
      assert Before(g.offsets, index, index + 1);
      g.original[g.offsets[index]..g.offsets[index + 1]]
  }

  function ByteOffset(g: Graphemes, index: int): int {
    if g.Nil? || index < 0 || index >= |g.offsets| then 0 else g.offsets[index]
  }

  /** The largest index whose offset is not past `byteOffset`; 0 when there is none. */
  ghost predicate IsIndex(g: Graphemes, byteOffset: int, i: int) {
    && 0 <= i <= Length(g)
    && (ByteOffset(g, i) <= byteOffset || i == 0)
    && forall j :: i < j <= Length(g) ==> byteOffset < ByteOffset(g, j)
  }

  method GraphemeIndex(g: Graphemes, byteOffset: int) returns (index: int)
    requires WellFormed(g)
    ensures IsIndex(g, byteOffset, index)
  {
    if g.Nil? || |g.offsets| == 0 {
      return 0;
    }
    for i := 0 to |g.offsets|
      invariant forall j :: 0 <= j < i ==> g.offsets[j] <= byteOffset
    {
      if g.offsets[i] > byteOffset {
        forall j | i <= j <= Length(g) ensures byteOffset < ByteOffset(g, j) {
          assert i < j ==> Before(g.offsets, i, j);
        }
        if i > 0 {
          return i - 1;
        }
        return 0;
      }
    }
    return Length(g);
  }

  function Truncate(step: Segmenter, str: Bytes, maxGraphemes: int, suffix: Bytes): Bytes {
    var g := Built(step, str);
    BuiltWellFormed(step, str);
    if Length(g) <= maxGraphemes then str else Slice(g, 0, maxGraphemes) + suffix
  }

  // ---------------------------------------------------------------- results

  function Joined(pieces: seq<Bytes>): Bytes {
    if pieces == [] then [] else pieces[0] + Joined(pieces[1..])
  }

  ghost predicate NonEmpty(pieces: seq<Bytes>) {
    forall i :: 0 <= i < |pieces| ==> |pieces[i]| > 0
  }

  lemma {:induction false} ClustersJoin(step: Segmenter, s: Bytes, state: int)
    ensures Joined(Clusters(step, s, state)) == s && NonEmpty(Clusters(step, s, state))
  {
    if s != [] {
      var (n, next) := step(s, state);
      ClustersJoin(step, s[n..], next);
      var clusters := Clusters(step, s, state);
      assert clusters[1..] == Clusters(step, s[n..], next);
      assert s == s[..n] + s[n..];
    }
  }

  lemma {:induction false} OffsetsShape(clusters: seq<Bytes>, from: int)
    requires NonEmpty(clusters)
    ensures
      var o := Offsets(clusters, from);
      && |o| == |clusters| + 1 && o[0] == from && o[|o| - 1] == from + |Joined(clusters)|
      && (forall i :: 0 <= i < |o| ==> from <= o[i]) && Increasing(o)
  {
    if clusters != [] {
      var rest := clusters[1..];
      assert NonEmpty(rest) by { assert forall i :: 0 <= i < |rest| ==> rest[i] == clusters[i + 1]; }
      OffsetsShape(rest, from + |clusters[0]|);
      var o, o' := Offsets(clusters, from), Offsets(rest, from + |clusters[0]|);
      assert forall i :: 1 <= i < |o| ==> o[i] == o'[i - 1];
      assert |clusters[0]| > 0;
      forall i, j | 0 <= i < j < |o| ensures Before(o, i, j) {
        assert i > 0 ==> Before(o', i - 1, j - 1);
      }
    }
  }

  /** The table that is built is strictly increasing from 0 to the length of the string. */
  lemma BuiltWellFormed(step: Segmenter, str: Bytes)
    ensures WellFormed(Built(step, str))
    ensures Length(Built(step, str)) == |Clusters(step, str, -1)|
  {
    ClustersJoin(step, str, -1);
    OffsetsShape(Clusters(step, str, -1), 0);
  }

  lemma {:induction false} OffsetsCut(clusters: seq<Bytes>, from: int, i: nat)
    requires NonEmpty(clusters) && i < |clusters|
    ensures
      var (o, s) := (Offsets(clusters, from), Joined(clusters));
      |o| == |clusters| + 1 && 0 <= o[i] - from <= o[i + 1] - from <= |s| && s[o[i] - from..o[i + 1] - from] == clusters[i]
  {
    var rest := clusters[1..];
    assert NonEmpty(rest) by { assert forall k :: 0 <= k < |rest| ==> rest[k] == clusters[k + 1]; }
    OffsetsShape(clusters, from);
    OffsetsShape(rest, from + |clusters[0]|);
    if i > 0 {
      OffsetsCut(rest, from + |clusters[0]|, i - 1);
      var o, o' := Offsets(clusters, from), Offsets(rest, from + |clusters[0]|);
      assert o[i] == o'[i - 1] && o[i + 1] == o'[i];
    } else {
      assert Joined(clusters)[..|clusters[0]|] == clusters[0];
    }
  }

  /** At returns the clusters that the segmenter cut, each at its own index. */
  lemma AtIsCluster(step: Segmenter, str: Bytes, i: nat)
    requires i < |Clusters(step, str, -1)|
    ensures WellFormed(Built(step, str)) && At(Built(step, str), i) == Clusters(step, str, -1)[i]
  {
    BuiltWellFormed(step, str);
    ClustersJoin(step, str, -1);
    OffsetsCut(Clusters(step, str, -1), 0, i);
  }

  /** The pieces from `a` up to `b`, one after the other. */
  function Pieces(g: Graphemes, a: nat, b: nat): Bytes
    requires WellFormed(g) && a <= b <= Length(g)
    decreases b
  {
    if a == b then [] else Pieces(g, a, b - 1) + At(g, b - 1)
  }

  lemma {:induction false} SliceIsPieces(g: Graphemes, a: nat, b: nat)
    requires WellFormed(g) && a <= b <= Length(g)
    ensures Slice(g, a, b) == Pieces(g, a, b)
    decreases b
  {
    if a < b {
      SliceIsPieces(g, a, b - 1);
      SliceSplit(g, a, b - 1, b);
    }
  }

  /** The pieces put together are the string that was taken apart. */
  lemma PiecesRebuild(g: Graphemes)
    requires WellFormed(g) && g.Graphemes?
    ensures Pieces(g, 0, Length(g)) == g.original
  {
    SliceIsPieces(g, 0, Length(g));
    if g.offsets != [] && Length(g) > 0 {
      assert g.original[0..|g.original|] == g.original;
    }
  }

  /** Adjacent slices join, whatever the arguments, inside the string or outside it. */
  lemma SliceSplit(g: Graphemes, a: int, b: int, c: int)
    requires WellFormed(g) && a <= b <= c
    ensures Slice(g, a, b) + Slice(g, b, c) == Slice(g, a, c)
  {
    if g.Graphemes? && g.offsets != [] {
      SliceClamped(g, a, b);
      SliceClamped(g, b, c);
      SliceClamped(g, a, c);
    }
  }

  function Clamped(g: Graphemes, i: int): int {
    if i < 0 then 0 else if i > Length(g) then Length(g) else i
  }

  lemma SliceClamped(g: Graphemes, a: int, b: int)
    requires WellFormed(g) && g.Graphemes? && g.offsets != [] && a <= b
    ensures 0 <= g.offsets[Clamped(g, a)] <= g.offsets[Clamped(g, b)] <= |g.original|
    ensures Slice(g, a, b) == g.original[g.offsets[Clamped(g, a)]..g.offsets[Clamped(g, b)]]
  {
    WellFormedBounds(g, Clamped(g, a));
    WellFormedBounds(g, Clamped(g, b));
    assert Clamped(g, a) < Clamped(g, b) ==> Before(g.offsets, Clamped(g, a), Clamped(g, b));
  }

  /** Going from an index to its byte offset and back returns the index. */
  lemma IndexOfOffset(g: Graphemes, i: int, j: int)
    requires WellFormed(g) && 0 <= i <= Length(g) && IsIndex(g, ByteOffset(g, i), j)
    ensures j == i
  {
    assert i < j && g.Graphemes? ==> Before(g.offsets, i, j);
  }

  /** There is exactly one index for every byte offset. */
  lemma IndexUnique(g: Graphemes, byteOffset: int, i: int, j: int)
    requires WellFormed(g) && IsIndex(g, byteOffset, i) && IsIndex(g, byteOffset, j)
    ensures i == j
  {
    assert i < j ==> ByteOffset(g, j) > byteOffset;
    assert j < i ==> ByteOffset(g, i) > byteOffset;
  }

  /** A truncated string keeps its first clusters whole and loses all the others. */
  lemma TruncateKeepsClusters(step: Segmenter, str: Bytes, maxGraphemes: int, suffix: Bytes)
    ensures
      var clusters := Clusters(step, str, -1);
      Truncate(step, str, maxGraphemes, suffix)
      == if |clusters| <= maxGraphemes then str
         else (if maxGraphemes < 0 then [] else Joined(clusters[..maxGraphemes])) + suffix
  {
    BuiltWellFormed(step, str);
    var g, clusters := Built(step, str), Clusters(step, str, -1);
    if 0 <= maxGraphemes < |clusters| {
      SliceIsPieces(g, 0, maxGraphemes);
      PiecesAreClusters(step, str, maxGraphemes);
    }
  }

  lemma {:induction false} PiecesAreClusters(step: Segmenter, str: Bytes, n: nat)
    requires n <= |Clusters(step, str, -1)|
    ensures WellFormed(Built(step, str)) && n <= Length(Built(step, str))
    ensures Pieces(Built(step, str), 0, n) == Joined(Clusters(step, str, -1)[..n])
  {
    BuiltWellFormed(step, str);
    if n > 0 {
      PiecesAreClusters(step, str, n - 1);
      AtIsCluster(step, str, n - 1);
      var g, clusters := Built(step, str), Clusters(step, str, -1);
      assert Pieces(g, 0, n) == Pieces(g, 0, n - 1) + At(g, n - 1);
      JoinedSnoc(clusters[..n - 1], clusters[n - 1]);
      assert clusters[..n] == clusters[..n - 1] + [clusters[n - 1]];
    }
  }

  lemma {:induction false} JoinedSnoc(pieces: seq<Bytes>, last: Bytes)
    ensures Joined(pieces + [last]) == Joined(pieces) + last
  {
    if pieces == [] {
      assert [] + [last] == [last] && [last][1..] == [] && last + [] == last;
    } else {
      JoinedSnoc(pieces[1..], last);
      assert (pieces + [last])[1..] == pieces[1..] + [last];
    }
  }
}
