/** The Python built-in operations the annotation scripts rely on, with Python's semantics. */
module PyOps {
  import opened Wrappers

  /** `xs.index(x)`: the first position of `x`; `None` where Python raises ValueError. */
  function ListIndex<T(==)>(xs: seq<T>, x: T): (r: Option<nat>)
    ensures r.None? <==> x !in xs
    ensures r.Some? ==> r.value < |xs| && xs[r.value] == x && x !in xs[..r.value]
  {
    if |xs| == 0 then None
    else if xs[0] == x then Some(0)
    else
      match ListIndex(xs[1..], x)
      case None => None
      case Some(i) =>
        assert xs[..i + 1] == [xs[0]] + xs[1..][..i];
        Some(i + 1)
  }

  /** `t` occurs in `s` starting at position `i`. */
  predicate OccursAt(s: string, t: string, i: int)
  {
    0 <= i && i + |t| <= |s| && s[i..i + |t|] == t
  }

  /** `t in s` on strings: substring containment. */
  function Contains(s: string, t: string): (r: bool)
    ensures r <==> exists i :: OccursAt(s, t, i)
    decreases |s|
  {
    if |s| < |t| then
      assert forall i :: !OccursAt(s, t, i);
      false
    else if s[..|t|] == t then
      assert OccursAt(s, t, 0);
      true
    else
      var rest := Contains(s[1..], t);
      ContainsShift(s, t);
      rest
  }

  /** An occurrence in `s[1..]` is an occurrence in `s` one place later, and back. */
  lemma ContainsShift(s: string, t: string)
    requires |s| >= |t| && s[..|t|] != t
    ensures (exists i :: OccursAt(s[1..], t, i)) <==> (exists i :: OccursAt(s, t, i))
  {
    if i :| OccursAt(s[1..], t, i) {
      assert s[i + 1..i + 1 + |t|] == s[1..][i..i + |t|];
      assert OccursAt(s, t, i + 1);
    }
    if i :| OccursAt(s, t, i) {
      assert i != 0;
      assert s[1..][i - 1..i - 1 + |t|] == s[i..i + |t|];
      assert OccursAt(s[1..], t, i - 1);
    }
  }

  /** Where a slice bound `i` lands in a sequence of length `n`: negative bounds count from
      the end, and both ends are clamped into `[0, n]`. */
  function SliceBound(i: int, n: nat): (b: nat)
    ensures b <= n
    ensures 0 <= i <= n ==> b == i
    ensures i < 0 ==> b == (if i + n < 0 then 0 else i + n)
    ensures i > n ==> b == n
  {
    if i < 0 then (if i + n < 0 then 0 else i + n)
    else if i > n then n
    else i
  }

  /** `s[start:end]` with step 1; empty whenever the bounds cross. */
  function Slice<T>(s: seq<T>, start: int, end: int): (r: seq<T>)
    ensures |r| <= |s|
    ensures var lo, hi := SliceBound(start, |s|), SliceBound(end, |s|);
      |r| == (if lo < hi then hi - lo else 0) && forall k :: 0 <= k < |r| ==> r[k] == s[lo + k]
  {
    var lo, hi := SliceBound(start, |s|), SliceBound(end, |s|);
    if lo < hi then s[lo..hi] else []
  }

  /** A negative bound `-k` counts `k` places back from the end: `s[:-k]` drops the last `k`
      elements and `s[-k:]` keeps only them. */
  lemma SliceNegative<T>(s: seq<T>, k: int)
    requires 0 < k <= |s|
    ensures Slice(s, 0, -k) == s[..|s| - k]
    ensures Slice(s, -k, |s|) == s[|s| - k..]
  {
  }

  /** With non-negative bounds, a slice keeps the positions from `start` up to the smaller of
      `end` and the length, and nothing when `start` is at or past either. */
  lemma SliceNonNegative<T>(s: seq<T>, start: int, end: int)
    requires 0 <= start && 0 <= end
    ensures var hi := if end < |s| then end else |s|;
      |Slice(s, start, end)| == (if start < hi then hi - start else 0)
    ensures forall k :: 0 <= k < |Slice(s, start, end)| ==> Slice(s, start, end)[k] == s[start + k]
    ensures start >= |s| || start >= end ==> Slice(s, start, end) == []
  {
  }
}
