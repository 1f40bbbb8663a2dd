/** Text laid out as a sequence of segments placed back to back, and where
    each segment lands in the result. */
module Segments {

  function Concat(segs: seq<string>): string {
    if segs == [] then "" else segs[0] + Concat(segs[1..])
  }

  /** `piece` occurs in `text` starting at index `at`. */
  predicate ContainsAt(text: string, piece: string, at: nat) {
    at + |piece| <= |text| && text[at..at + |piece|] == piece
  }

  /** Where segment `j` starts in `Concat(segs)`. */
  function Offset(segs: seq<string>, j: nat): nat
    requires j <= |segs|
  {
    |Concat(segs[..j])|
  }

  /** `pieces[i]` occurs in `text` at `at[i]`, each piece after the end of
      the one before. */
  ghost predicate InOrder(text: string, pieces: seq<string>, at: seq<nat>) {
    && |at| == |pieces|
    && (forall i :: 0 <= i < |pieces| ==> ContainsAt(text, pieces[i], at[i]))
    && (forall i :: 0 <= i < |pieces| - 1 ==> at[i] + |pieces[i]| <= at[i + 1])
  }

  lemma {:induction false} ConcatAppend(a: seq<string>, b: seq<string>)
    ensures Concat(a + b) == Concat(a) + Concat(b)
    decreases |a|
  {
    if a == [] {
      assert a + b == b;
    } else {
      assert (a + b)[1..] == a[1..] + b;
      ConcatAppend(a[1..], b);
    }
  }

  /** The concatenation starts with the first segment's first character and
      ends with the last segment's last character. */
  lemma ConcatEnds(segs: seq<string>)
    requires |segs| > 0 && segs[0] != [] && segs[|segs| - 1] != []
    ensures var c := Concat(segs);
      c != [] && c[0] == segs[0][0] && c[|c| - 1] == segs[|segs| - 1][|segs[|segs| - 1]| - 1]
  {
    var n := |segs|;
    var last := segs[n - 1];
    assert segs == segs[..n - 1] + [last];
    ConcatAppend(segs[..n - 1], [last]);
    assert Concat([last]) == last + Concat([]);
  }

  /** The segments up to `k` are the segments up to `j` followed by those
      from `j` to `k`. */
  lemma OffsetSplit(segs: seq<string>, j: nat, k: nat)
    requires j <= k <= |segs|
    ensures Offset(segs, k) == Offset(segs, j) + |Concat(segs[j..k])|
    ensures Concat(segs) == Concat(segs[..j]) + Concat(segs[j..k]) + Concat(segs[k..])
  {
    assert segs[..k] == segs[..j] + segs[j..k];
    ConcatAppend(segs[..j], segs[j..k]);
    assert segs == segs[..k] + segs[k..];
    ConcatAppend(segs[..k], segs[k..]);
  }

  /** The segments from `j` to `k` occur together at the offset of `j`. */
  lemma ContainsSpan(segs: seq<string>, j: nat, k: nat)
    requires j <= k <= |segs|
    ensures ContainsAt(Concat(segs), Concat(segs[j..k]), Offset(segs, j))
  {
    OffsetSplit(segs, j, k);
    var left, mid, right := Concat(segs[..j]), Concat(segs[j..k]), Concat(segs[k..]);
    assert (left + mid + right)[|left|..|left| + |mid|] == mid;
  }

  /** Segment `j` occurs in the concatenation at its offset, and every later
      segment starts after it ends. */
  lemma SegmentAt(segs: seq<string>, j: nat)
    requires j < |segs|
    ensures ContainsAt(Concat(segs), segs[j], Offset(segs, j))
    ensures Offset(segs, j + 1) == Offset(segs, j) + |segs[j]|
  {
    assert segs[j..j + 1] == [segs[j]];
    assert Concat([segs[j]]) == segs[j] + Concat([]);
    ContainsSpan(segs, j, j + 1);
    OffsetSplit(segs, j, j + 1);
  }

  /** Two pieces that occur back to back occur as one. */
  lemma ContainsAdjacent(text: string, x: string, y: string, at: nat)
    requires ContainsAt(text, x, at) && ContainsAt(text, y, at + |x|)
    ensures ContainsAt(text, x + y, at)
  {
    assert text[at..at + |x + y|] == text[at..at + |x|] + text[at + |x|..at + |x| + |y|];
  }

  /** Offsets never decrease along the segments. */
  lemma OffsetMonotone(segs: seq<string>, j: nat, k: nat)
    requires j <= k <= |segs|
    ensures Offset(segs, j) <= Offset(segs, k)
  {
    OffsetSplit(segs, j, k);
  }

  // Fixed-arity forms of the facts above whose contracts leave offsets out,
  // so that callers working on a concrete layout never compute one.

  /** Three segments occur in order. */
  lemma Order3(segs: seq<string>, i: nat, j: nat, k: nat) returns (a: nat, b: nat, c: nat)
    requires i < j < k < |segs|
    ensures ContainsAt(Concat(segs), segs[i], a) && ContainsAt(Concat(segs), segs[j], b)
    ensures ContainsAt(Concat(segs), segs[k], c)
    ensures a + |segs[i]| <= b && b + |segs[j]| <= c
  {
    SegmentAt(segs, i);
    SegmentAt(segs, j);
    SegmentAt(segs, k);
    OffsetMonotone(segs, i + 1, j);
    OffsetMonotone(segs, j + 1, k);
    a, b, c := Offset(segs, i), Offset(segs, j), Offset(segs, k);
  }

  /** Four segments occur in order. */
  lemma Order4(segs: seq<string>, i: nat, j: nat, k: nat, l: nat) returns (at: seq<nat>)
    requires i < j < k < l < |segs|
    ensures InOrder(Concat(segs), [segs[i], segs[j], segs[k], segs[l]], at)
  {
    SegmentAt(segs, i);
    SegmentAt(segs, j);
    SegmentAt(segs, k);
    SegmentAt(segs, l);
    OffsetMonotone(segs, i + 1, j);
    OffsetMonotone(segs, j + 1, k);
    OffsetMonotone(segs, k + 1, l);
    at := [Offset(segs, i), Offset(segs, j), Offset(segs, k), Offset(segs, l)];
  }

  /** Four consecutive segments occur as one piece. */
  lemma Run4(segs: seq<string>, j: nat) returns (at: nat)
    requires j + 4 <= |segs|
    ensures ContainsAt(Concat(segs), segs[j] + segs[j + 1] + segs[j + 2] + segs[j + 3], at)
  {
    at := Offset(segs, j);
    SegmentAt(segs, j);
    SegmentAt(segs, j + 1);
    SegmentAt(segs, j + 2);
    SegmentAt(segs, j + 3);
    var text := Concat(segs);
    ContainsAdjacent(text, segs[j], segs[j + 1], at);
    ContainsAdjacent(text, segs[j] + segs[j + 1], segs[j + 2], at);
    ContainsAdjacent(text, segs[j] + segs[j + 1] + segs[j + 2], segs[j + 3], at);
  }

  /** Five consecutive segments occur as one piece. */
  lemma Run5(segs: seq<string>, j: nat) returns (at: nat)
    requires j + 5 <= |segs|
    ensures ContainsAt(Concat(segs), segs[j] + segs[j + 1] + segs[j + 2] + segs[j + 3] + segs[j + 4], at)
  {
    at := Offset(segs, j);
    SegmentAt(segs, j);
    SegmentAt(segs, j + 1);
    SegmentAt(segs, j + 2);
    SegmentAt(segs, j + 3);
    SegmentAt(segs, j + 4);
    var text := Concat(segs);
    ContainsAdjacent(text, segs[j], segs[j + 1], at);
    ContainsAdjacent(text, segs[j] + segs[j + 1], segs[j + 2], at);
    ContainsAdjacent(text, segs[j] + segs[j + 1] + segs[j + 2], segs[j + 3], at);
    ContainsAdjacent(text, segs[j] + segs[j + 1] + segs[j + 2] + segs[j + 3], segs[j + 4], at);
  }
}
