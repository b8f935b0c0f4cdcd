/** What the annotation tool and the join script share: the annotation record, the
    metadata columns that are not trials, and the window cut around a point. */
module Bouts {
  import opened Wrappers
  import opened PyOps

  /** One point a reviewer placed on a plotted trial: the column (trial) it was placed on
      (the dropdown value, `None` when nothing is selected), its x position and its y value. */
  datatype Annotation = Annotation(column: Option<string>, index: int, value: real)

  /** The columns of a bout table that describe the bout rather than hold a trial. */
  const MetadataColumns: seq<string> := ["start_index", "stop_index", "region"]

  predicate IsMetadata(c: string)
  {
    c in MetadataColumns
  }

  /** The trial columns: the input columns in order, without the metadata columns. */
  function SelectableColumns(cols: seq<string>): (r: seq<string>)
    ensures forall c :: c in r <==> c in cols && !IsMetadata(c)
    ensures |r| <= |cols|
  {
    if |cols| == 0 then []
    else (if IsMetadata(cols[0]) then [] else [cols[0]]) + SelectableColumns(cols[1..])
  }

  /** Filtering commutes with concatenation, so the kept columns stay in their input order. */
  lemma {:induction false} SelectableColumnsAppend(a: seq<string>, b: seq<string>)
    ensures SelectableColumns(a + b) == SelectableColumns(a) + SelectableColumns(b)
  {
    if |a| == 0 {
      assert a + b == b;
    } else {
      assert (a + b)[0] == a[0];
      assert (a + b)[1..] == a[1..] + b;
      SelectableColumnsAppend(a[1..], b);
    }
  }

  /** Every trial column is kept as often as it occurs; metadata columns never are. */
  lemma {:induction false} SelectableColumnsCount(cols: seq<string>, c: string)
    ensures multiset(SelectableColumns(cols))[c] == if IsMetadata(c) then 0 else multiset(cols)[c]
  {
    if |cols| > 0 {
      SelectableColumnsCount(cols[1..], c);
      assert cols == [cols[0]] + cols[1..];
    }
  }

  /** A list without metadata columns is left as it is; in particular filtering twice is
      filtering once. */
  lemma {:induction false} SelectableColumnsKeepsTrials(cols: seq<string>)
    requires forall c :: c in cols ==> !IsMetadata(c)
    ensures SelectableColumns(cols) == cols
  {
    if |cols| > 0 {
      assert cols[0] in cols;
      SelectableColumnsKeepsTrials(cols[1..]);
    }
  }

  lemma SelectableColumnsIdempotent(cols: seq<string>)
    ensures SelectableColumns(SelectableColumns(cols)) == SelectableColumns(cols)
  {
    SelectableColumnsKeepsTrials(SelectableColumns(cols));
  }

  /** A half-open range of positions `[lower, upper)`. */
  datatype Span = Span(lower: int, upper: int)
  {
    predicate Holds(p: int)
    {
      lower <= p < upper
    }
  }

  /** The window both tools cut around a point: `[max(0, center - half), min(len, center + half))`.
      It lies inside `[0, len)`, is at most `2 * half` wide, and holds exactly the positions of
      the sequence that are at most `half` before or at most `half - 1` after the center. */
  function Window(center: int, half: nat, len: nat): (w: Span)
    ensures 0 <= w.lower && w.upper <= len
    ensures w.upper - w.lower <= 2 * half
    ensures forall p :: 0 <= p < len ==> (w.Holds(p) <==> center - half <= p < center + half)
  {
    Span(if center - half < 0 then 0 else center - half,
         if len < center + half then len else center + half)
  }

  /** The part of `s` inside the window around `center`, cut with Python's slice. When the window
      ends below 0 (`center + half < 0`) Python reads the negative end from the back, so the cut is
      then a prefix of `s` rather than empty. */
  function Around<T>(s: seq<T>, center: int, half: nat): (r: seq<T>)
    ensures var w := Window(center, half, |s|);
      center + half >= 0 ==>
        |r| == (if w.lower < w.upper then w.upper - w.lower else 0) && |r| <= 2 * half &&
        forall k :: 0 <= k < |r| ==> r[k] == s[w.lower + k]
    ensures center + half < 0 ==> r == s[..SliceBound(center + half, |s|)]
  {
    var w := Window(center, half, |s|);
    Slice(s, w.lower, w.upper)
  }

  /** When the window does not reach below zero, the cut keeps `max(0, min(len, center + half) -
      (center - half))` elements, at most `2 * half`, element `k` being `s[center - half + k]`,
      and nothing at all once `center - half` is at or past the end. */
  lemma AroundShape<T>(s: seq<T>, center: int, half: nat)
    requires center - half >= 0
    ensures var hi := if |s| < center + half then |s| else center + half;
      |Around(s, center, half)| == (if center - half < hi then hi - (center - half) else 0)
    ensures |Around(s, center, half)| <= 2 * half
    ensures forall k :: 0 <= k < |Around(s, center, half)| ==> Around(s, center, half)[k] == s[center - half + k]
    ensures center - half >= |s| ==> Around(s, center, half) == []
  {
  }
}
