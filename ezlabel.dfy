/** The annotation session of the web annotation tool: the data held by its stores, and what
    each callback does to them once the toolkit calls are stripped away. */
module EzLabel {
  import opened Wrappers
  import opened PyOps
  import opened Bouts

  /** Number of points highlighted before and after an annotated point. */
  const N: nat := 30

  /** Why a callback changes nothing: the exception it raises along the way. */
  datatype Failure =
    | NotCsv          // no `csv` in the file name: the table is never built
    | NoData          // a callback that needs the uploaded data ran before any upload
    | EmptyColumns    // no selectable column: `columns[0]` or `% len(columns)` fails
    | NotInColumns    // `columns.index(selected)` with a value not in the list
    | UnknownColumn   // the selected column is not a column of the table

  /** The result of a transition: nothing to do, an exception, or new values. */
  datatype Outcome<T> = Prevented | Failed(failure: Failure) | Updated(value: T)

  // ---------------------------------------------------------------- the upload

  /** The session name: the file name up to its first `.` (`filename.split('.')[0]`). */
  function SessionName(filename: string): (r: string)
    ensures r <= filename
    ensures '.' !in r
    ensures r == filename || (|r| < |filename| && filename[|r|] == '.')
  {
    if |filename| == 0 || filename[0] == '.' then ""
    else [filename[0]] + SessionName(filename[1..])
  }

  /** The parsed upload: the CSV header in order and, per column, its values (missing ones dropped).
      An upload whose contents cannot be read changes nothing, as `dash.no_update` does. */
  datatype Csv = Csv(header: seq<string>, frame: map<string, seq<real>>)

  /** An uploaded file: its name and its parsed contents, `None` when they cannot be parsed. */
  datatype Upload = Upload(filename: string, parsed: Option<Csv>)

  /** The `intermediate-data` store: the table, the selectable columns and the session name. */
  datatype Data = Data(frame: map<string, seq<real>>, columns: seq<string>, filename: string)

  /** The store that `update_data` builds from an upload. */
  function LoadUpload(u: Upload): (r: Outcome<Data>)
    ensures !Contains(u.filename, "csv") ==> r == Failed(NotCsv)
    ensures r.Prevented? <==> Contains(u.filename, "csv") && u.parsed.None?
    ensures Contains(u.filename, "csv") && u.parsed.Some? ==> r.Updated?
    ensures r.Updated? ==> u.parsed.Some? && r.value.frame == u.parsed.value.frame
    ensures r.Updated? ==> r.value.columns == SelectableColumns(u.parsed.value.header)
    ensures r.Updated? ==> r.value.filename == SessionName(u.filename)
  {
    if !Contains(u.filename, "csv") then Failed(NotCsv)
    else match u.parsed
      case None => Prevented  // the `except` branch returns `dash.no_update`
      case Some(csv) => Updated(Data(csv.frame, SelectableColumns(csv.header), SessionName(u.filename)))
  }

  // ---------------------------------------------------------------- column navigation

  /** The inputs whose change can trigger `update_figure`. */
  datatype FigureInput = PrevButton | NextButton | ColumnDropdown | DataStore | AnnotationStore

  /** What `update_figure` writes back: the column index, the two click stores and the dropdown value. */
  datatype Nav = Nav(columnIndex: int, prevStore: int, nextStore: int, selected: string)

  /** A button's click count, `n_clicks or 0`. */
  function Clicks(n: Option<int>): (r: int)
    ensures n.None? || n == Some(0) ==> r == 0
    ensures n.Some? ==> r == n.value
  {
    match n
    case None => 0
    case Some(k) => k
  }

  /** `update_figure` takes its first branch on the initial call (no trigger) and on a new upload. */
  predicate ResetsView(t: seq<FigureInput>): (r: bool)
    ensures r <==> |t| == 0 || exists i :: 0 <= i < |t| && t[i] == DataStore
  {
    |t| == 0 || DataStore in t
  }

  function ColumnsOf(data: Option<Data>): Option<seq<string>>
  {
    match data
    case None => None
    case Some(d) => Some(d.columns)
  }

  /** The new column index after button clicks, `(index + nextDiff - prevDiff) % count`: the one
      position in `[0, count)` congruent to the old index moved by the net clicks. */
  function Wrap(index: int, nextDiff: int, prevDiff: int, count: nat): (r: int)
    requires count > 0
    ensures 0 <= r < count
    ensures (index + nextDiff - prevDiff - r) % count == 0
  {
    var x := index + nextDiff - prevDiff;
    ModUnique(x - x % count, count, x / count, 0);
    x % count
  }

  /** Python's `%` with a positive divisor is Dafny's: the remainder is the one in `[0, n)`. */
  lemma ModUnique(a: int, n: nat, q: int, r: int)
    requires 0 <= r < n && a == q * n + r
    ensures a % n == r
  {
    var q0, r0 := a / n, a % n;
    var d := q - q0;
    assert d * n == r0 - r by {
      assert a == q0 * n + r0;
      assert q * n - q0 * n == d * n;
    }
    if d != 0 {
      var e := if d > 0 then d else -d;
      MulAtLeast(e, n);
      assert false;
    }
  }

  lemma MulAtLeast(e: int, n: nat)
    requires e >= 1
    ensures e * n >= n
  {
  }

  /** One click on Next moves to the following column, from the last back to the first. */
  lemma WrapNext(index: int, count: nat)
    requires 0 <= index < count
    ensures Wrap(index, 1, 0, count) == if index + 1 == count then 0 else index + 1
  {
  }

  /** One click on Previous moves to the preceding column, from the first round to the last. */
  lemma WrapPrev(index: int, count: nat)
    requires 0 <= index < count
    ensures Wrap(index, 0, 1, count) == if index == 0 then count - 1 else index - 1
  {
  }

  /** Clicking Next `k` times and then Previous `k` times comes back to the same column. */
  lemma WrapBack(index: int, k: int, count: nat)
    requires 0 <= index < count
    ensures Wrap(Wrap(index, k, 0, count), 0, k, count) == index
  {
    var m := Wrap(index, k, 0, count);
    var q := (index + k) / count;
    assert index + k == q * count + m;
    ModUnique(m - k, count, -q, index);
  }

  /** The first branch of `update_figure`: back to the first column. As written, both click
      stores are set to 0 whatever the buttons' click counts are; the corrected `Navigate` below
      passes the buttons' counts instead. */
  function ResetView(columns: Option<seq<string>>, prevStore: int, nextStore: int): (r: Outcome<Nav>)
    ensures columns.None? <==> r.Prevented?
    ensures columns.Some? && |columns.value| == 0 <==> r == Failed(EmptyColumns)
    ensures columns.Some? && |columns.value| > 0 ==> r == Updated(Nav(0, prevStore, nextStore, columns.value[0]))
  {
    match columns
    case None => Prevented
    case Some(cols) => if |cols| == 0 then Failed(EmptyColumns) else Updated(Nav(0, prevStore, nextStore, cols[0]))
  }

  /** The second branch of `update_figure`: a dropdown pick jumps to the first position of the
      picked column; anything else moves by the clicks made since the stores were written. */
  function StepView(first: FigureInput, columns: Option<seq<string>>, prevClicks: Option<int>, nextClicks: Option<int>,
                    dropdown: Option<string>, columnIndex: int, prevStore: int, nextStore: int): (r: Outcome<Nav>)
    ensures !r.Prevented?
    ensures columns.None? ==> r == Failed(NoData)
    ensures r.Updated? ==> r.value.prevStore == Clicks(prevClicks) && r.value.nextStore == Clicks(nextClicks)
    ensures r.Updated? ==> 0 <= r.value.columnIndex < |columns.value| && r.value.selected == columns.value[r.value.columnIndex]
    ensures columns.Some? && first == ColumnDropdown ==>
      (r.Updated? <==> dropdown.Some? && dropdown.value in columns.value)
    ensures r.Updated? && first == ColumnDropdown ==>
      r.value.selected == dropdown.value && r.value.selected !in columns.value[..r.value.columnIndex]
    ensures columns.Some? && first != ColumnDropdown ==> (r.Updated? <==> |columns.value| > 0)
    ensures r.Updated? && first != ColumnDropdown ==>
      (columnIndex + (Clicks(nextClicks) - nextStore) - (Clicks(prevClicks) - prevStore) - r.value.columnIndex) % |columns.value| == 0
  {
    match columns
    case None => Failed(NoData)
    case Some(cols) =>
      var p, q := Clicks(prevClicks), Clicks(nextClicks);
      if first == ColumnDropdown then
        match dropdown
        case None => Failed(NotInColumns)
        case Some(c) =>
          match ListIndex(cols, c)
          case None => Failed(NotInColumns)
          case Some(i) => Updated(Nav(i, p, q, c))
      else if |cols| == 0 then Failed(EmptyColumns)
      else
        var i := Wrap(columnIndex, q - nextStore, p - prevStore, |cols|);
        Updated(Nav(i, p, q, cols[i]))
  }

  /** `update_figure`'s index and counter arithmetic exactly as written. */
  function NavigateAsWritten(t: seq<FigureInput>, columns: Option<seq<string>>, prevClicks: Option<int>, nextClicks: Option<int>,
                             dropdown: Option<string>, columnIndex: int, prevStore: int, nextStore: int): (r: Outcome<Nav>)
    ensures ResetsView(t) && r.Updated? ==> r.value.prevStore == 0 && r.value.nextStore == 0
  {
    if ResetsView(t) then ResetView(columns, 0, 0)
    else StepView(t[0], columns, prevClicks, nextClicks, dropdown, columnIndex, prevStore, nextStore)
  }

  /** A new upload, or the initial call, selects the first column and zeroes both click stores. */
  lemma NavigateAsWrittenResets(t: seq<FigureInput>, cols: seq<string>, prevClicks: Option<int>, nextClicks: Option<int>,
                                dropdown: Option<string>, columnIndex: int, prevStore: int, nextStore: int)
    requires ResetsView(t) && |cols| > 0
    ensures NavigateAsWritten(t, Some(cols), prevClicks, nextClicks, dropdown, columnIndex, prevStore, nextStore)
         == Updated(Nav(0, 0, 0, cols[0]))
  {
  }

  /** After a re-upload, the stores are 0 while the Next button has already been clicked 3 times;
      the next click on Next then moves from the first column to the fifth, not to the second. */
  lemma StaleClickStoresAfterUpload()
    ensures var cols := ["0", "1", "2", "3", "4"];
      var afterUpload := NavigateAsWritten([DataStore], Some(cols), None, Some(3), Some("3"), 3, 0, 3);
      afterUpload == Updated(Nav(0, 0, 0, "0")) &&
      NavigateAsWritten([NextButton], Some(cols), None, Some(4), Some("0"), 0, 0, 0) == Updated(Nav(4, 0, 4, "4"))
  {
  }

  /** `update_figure`'s index and counter arithmetic with the reset corrected to record the
      buttons' click counts, so that the stores always match the buttons after a transition. */
  function Navigate(t: seq<FigureInput>, columns: Option<seq<string>>, prevClicks: Option<int>, nextClicks: Option<int>,
                    dropdown: Option<string>, columnIndex: int, prevStore: int, nextStore: int): (r: Outcome<Nav>)
    ensures r.Prevented? <==> ResetsView(t) && columns.None?
    ensures r.Updated? ==> columns.Some? && 0 <= r.value.columnIndex < |columns.value|
    ensures r.Updated? ==> r.value.selected == columns.value[r.value.columnIndex]
    ensures r.Updated? ==> r.value.prevStore == Clicks(prevClicks) && r.value.nextStore == Clicks(nextClicks)
    ensures ResetsView(t) && r.Updated? ==> r.value.columnIndex == 0
    ensures ResetsView(t) && columns.Some? ==> (r.Updated? <==> |columns.value| > 0)
    ensures !ResetsView(t) && columns.None? ==> r == Failed(NoData)
    ensures !ResetsView(t) && columns.Some? && t[0] == ColumnDropdown ==>
      (r.Updated? <==> dropdown.Some? && dropdown.value in columns.value)
    ensures !ResetsView(t) && r.Updated? && t[0] == ColumnDropdown ==>
      r.value.selected == dropdown.value && r.value.selected !in columns.value[..r.value.columnIndex]
    ensures !ResetsView(t) && columns.Some? && t[0] != ColumnDropdown ==> (r.Updated? <==> |columns.value| > 0)
    ensures !ResetsView(t) && r.Updated? && t[0] != ColumnDropdown ==>
      (columnIndex + (Clicks(nextClicks) - nextStore) - (Clicks(prevClicks) - prevStore) - r.value.columnIndex) % |columns.value| == 0
  {
    if ResetsView(t) then ResetView(columns, Clicks(prevClicks), Clicks(nextClicks))
    else StepView(t[0], columns, prevClicks, nextClicks, dropdown, columnIndex, prevStore, nextStore)
  }

  /** From a state whose stores match the buttons, a transition that is not a dropdown pick and
      involves no new click keeps the column. */
  lemma NavigateWithoutClicksStays(first: FigureInput, cols: seq<string>, prevClicks: Option<int>, nextClicks: Option<int>,
                                   dropdown: Option<string>, columnIndex: int)
    requires first != ColumnDropdown && first != DataStore
    requires 0 <= columnIndex < |cols|
    ensures Navigate([first], Some(cols), prevClicks, nextClicks, dropdown, columnIndex, Clicks(prevClicks), Clicks(nextClicks))
         == Updated(Nav(columnIndex, Clicks(prevClicks), Clicks(nextClicks), cols[columnIndex]))
  {
  }

  /** With the corrected reset, the first click on Next after an upload moves to the second column
      (or stays on the only one), however often the button was clicked before. */
  lemma NavigateNextAfterUpload(cols: seq<string>, prevClicks: Option<int>, nextClicks: int, dropdown: Option<string>,
                                columnIndex: int, prevStore: int, nextStore: int)
    requires |cols| > 0
    ensures var reset := Navigate([DataStore], Some(cols), prevClicks, Some(nextClicks), dropdown, columnIndex, prevStore, nextStore);
      reset.Updated? &&
      Navigate([NextButton], Some(cols), prevClicks, Some(nextClicks + 1), Some(cols[0]), 0, reset.value.prevStore, reset.value.nextStore)
        == Updated(Nav(1 % |cols|, Clicks(prevClicks), nextClicks + 1, cols[1 % |cols|]))
  {
  }

  // ---------------------------------------------------------------- the highlighted windows

  /** A highlighted trace: x over `range(lower, upper)`, y the slice `y_data[lower:upper]`. */
  datatype Trace = Trace(lower: int, upper: int, ys: seq<real>)

  /** The figure: the selected column's values, then one highlighted trace per annotation on it. */
  datatype Figure = Figure(series: seq<real>, highlights: seq<Trace>)

  /** The trace highlighting the points around an annotation at `index`. */
  function TraceAt(index: int, y: seq<real>): (tr: Trace)
    ensures 0 <= tr.lower && tr.upper <= |y| && tr.upper - tr.lower <= 2 * N
    ensures forall p :: 0 <= p < |y| ==> (Span(tr.lower, tr.upper).Holds(p) <==> index - N <= p < index + N)
    ensures tr.ys == Around(y, index, N)
  {
    var w := Window(index, N, |y|);
    Trace(w.lower, w.upper, Slice(y, w.lower, w.upper))
  }

  /** The annotations placed on `selected`, in their list order. */
  function OnColumn(anns: seq<Annotation>, selected: string): (r: seq<Annotation>)
    ensures forall a :: a in r <==> a in anns && a.column == Some(selected)
    ensures |r| <= |anns|
  {
    if |anns| == 0 then []
    else
      var last := anns[|anns| - 1];
      OnColumn(anns[..|anns| - 1], selected) + (if last.column == Some(selected) then [last] else [])
  }

  /** Filtering commutes with concatenation, so the kept annotations stay in list order. */
  lemma {:induction false} OnColumnAppend(a: seq<Annotation>, b: seq<Annotation>, selected: string)
    ensures OnColumn(a + b, selected) == OnColumn(a, selected) + OnColumn(b, selected)
  {
    if |b| == 0 {
      assert a + b == a;
    } else {
      var b' := b[..|b| - 1];
      assert (a + b)[..|a + b| - 1] == a + b';
      assert (a + b)[|a + b| - 1] == b[|b| - 1];
      OnColumnAppend(a, b', selected);
    }
  }

  /** An annotation on `selected` is kept as often as it occurs, so a duplicated record gets one
      trace per copy; annotations on other columns are never kept. */
  lemma {:induction false} OnColumnCount(anns: seq<Annotation>, selected: string, a: Annotation)
    ensures multiset(OnColumn(anns, selected))[a] == if a.column == Some(selected) then multiset(anns)[a] else 0
  {
    if |anns| > 0 {
      var front := anns[..|anns| - 1];
      OnColumnCount(front, selected, a);
      assert anns == front + [anns[|anns| - 1]];
    }
  }

  /** `traces` are the highlights for `selected`: one per annotation placed on it, in order. */
  predicate Highlighting(traces: seq<Trace>, anns: seq<Annotation>, selected: string, y: seq<real>)
  {
    var on := OnColumn(anns, selected);
    |traces| == |on| && forall k :: 0 <= k < |traces| ==> traces[k] == TraceAt(on[k].index, y)
  }

  /** The loop of `update_figure` that adds a highlighted trace per annotation of the selected column. */
  method HighlightTraces(anns: seq<Annotation>, selected: string, y: seq<real>) returns (traces: seq<Trace>)
    ensures Highlighting(traces, anns, selected, y)
    ensures forall k :: 0 <= k < |traces| ==>
      0 <= traces[k].lower && traces[k].upper <= |y| && traces[k].upper - traces[k].lower <= 2 * N
  {
    traces := [];
    var i := 0;
    while i < |anns|
      invariant 0 <= i <= |anns|
      invariant Highlighting(traces, anns[..i], selected, y)
    {
      assert anns[..i + 1][..i] == anns[..i];
      if anns[i].column == Some(selected) {
        traces := traces + [TraceAt(anns[i].index, y)];
      }
      i := i + 1;
    }
    assert anns[..|anns|] == anns;
  }

  // ---------------------------------------------------------------- the annotation list

  predicate NoDuplicates(anns: seq<Annotation>)
  {
    forall i, j :: 0 <= i < j < |anns| ==> anns[i] != anns[j]
  }

  /** A figure click in `update_annotations`: the record is added at the end unless an equal
      record is already in the list. */
  function AddAnnotation(anns: seq<Annotation>, a: Annotation): (r: seq<Annotation>)
    ensures a in r
    ensures anns <= r && |r| <= |anns| + 1
    ensures a in anns ==> r == anns
    ensures forall b :: b in r ==> b in anns || b == a
    ensures NoDuplicates(anns) ==> NoDuplicates(r)
  {
    if a in anns then anns else anns + [a]
  }

  /** Clicking the same point twice records it once. */
  lemma AddAnnotationIdempotent(anns: seq<Annotation>, a: Annotation)
    ensures AddAnnotation(AddAnnotation(anns, a), a) == AddAnnotation(anns, a)
  {
  }

  /** The inputs whose change can trigger `update_annotations`. */
  datatype AnnotationInput = FigureClick | LoadButton | UploadContents

  /** The point of a figure click. */
  datatype Point = Point(x: int, y: real)

  /** The annotation file of a session. */
  function AnnotationPath(d: Data): (path: string)
    ensures |path| == |d.filename| + 4 && path[..|d.filename|] == d.filename && path[|d.filename|..] == ".pkl"
  {
    d.filename + ".pkl"
  }

  /** `update_annotations`: an upload clears the list, a load replaces it by the session's file
      (the empty list when there is none), and a figure click adds the clicked point once. */
  function UpdateAnnotations(t: set<AnnotationInput>, click: Option<Point>, loadClicks: Option<int>, anns: seq<Annotation>,
                             dropdown: Option<string>, data: Option<Data>, files: map<string, seq<Annotation>>): (r: Outcome<seq<Annotation>>)
    ensures !r.Failed?
    ensures t == {} ==> r.Prevented?
    ensures UploadContents in t ==> r == Updated([])
    ensures UploadContents !in t && LoadButton in t ==>
      (r.Prevented? <==> loadClicks.None? || data.None?)
    ensures UploadContents !in t && LoadButton in t && r.Updated? ==>
      r.value == (if AnnotationPath(data.value) in files then files[AnnotationPath(data.value)] else [])
    ensures t != {} && UploadContents !in t && LoadButton !in t ==>
      (r.Prevented? <==> click.None? || dropdown.None?)
    ensures t != {} && UploadContents !in t && LoadButton !in t && r.Updated? ==>
      r.value == AddAnnotation(anns, Annotation(dropdown, click.value.x, click.value.y))
    ensures t != {} && UploadContents !in t && LoadButton !in t && NoDuplicates(anns) && r.Updated? ==>
      NoDuplicates(r.value)
  {
    if t == {} then Prevented
    else if UploadContents in t then Updated([])
    else if LoadButton in t then
      if loadClicks.None? || data.None? then Prevented
      else
        var path := AnnotationPath(data.value);
        Updated(if path in files then files[path] else [])
    else if click.None? || dropdown.None? then Prevented
    else Updated(AddAnnotation(anns, Annotation(dropdown, click.value.x, click.value.y)))
  }

  // ---------------------------------------------------------------- the session

  /** The text under the figure after a click. */
  datatype ClickNotice = NoClickYet | ClickedPoint(x: int, y: real)

  /** A whole-file write of an annotation list. */
  datatype FileWrite = FileWrite(path: string, contents: seq<Annotation>)

  /** The state the callbacks share: the stores and the component values they read and write. */
  class Session {
    var data: Option<Data>              // `intermediate-data`
    var options: seq<string>            // the dropdown's options, each labelled by its value
    var loadedFile: Option<string>      // the upload confirmation
    var figure: Option<Figure>
    var columnIndex: int                // `column-index`
    var prevStore: int                  // `prev-clicks-store`
    var nextStore: int                  // `next-clicks-store`
    var dropdown: Option<string>        // the dropdown's value
    var annotations: seq<Annotation>    // `annotations`
    var clickNotice: ClickNotice
    var savedFile: Option<string>       // the save confirmation

    /** The values the layout starts with. */
    constructor ()
      ensures data == None && options == [] && loadedFile == None && figure == None
      ensures columnIndex == 0 && prevStore == 0 && nextStore == 0
      ensures dropdown == None && annotations == [] && clickNotice == NoClickYet && savedFile == None
    {
      data, options, loadedFile, figure := None, [], None, None;
      columnIndex, prevStore, nextStore := 0, 0, 0;
      dropdown, annotations, clickNotice, savedFile := None, [], NoClickYet, None;
    }

    /** The reviewer picks a column in the dropdown (or clears it). */
    method Choose(c: Option<string>)
      modifies this`dropdown
      ensures dropdown == c
    {
      dropdown := c;
    }

    /** `update_data`: a new upload replaces the stored table, the column options and the notice. */
    method UpdateData(upload: Option<Upload>) returns (s: Outcome<Data>)
      modifies this`data, this`options, this`loadedFile
      ensures upload.None? ==> s.Prevented?
      ensures upload.Some? ==> s == LoadUpload(upload.value)
      ensures s.Updated? ==> data == Some(s.value) && options == s.value.columns && loadedFile == Some(upload.value.filename)
      ensures s.Updated? ==> forall c :: c in options <==> c in upload.value.parsed.value.header && !IsMetadata(c)
      ensures !s.Updated? ==> data == old(data) && options == old(options) && loadedFile == old(loadedFile)
    {
      if upload.None? {
        return Prevented;
      }
      s := LoadUpload(upload.value);
      if s.Updated? {
        data, options, loadedFile := Some(s.value), s.value.columns, Some(upload.value.filename);
      }
    }

    /** `update_figure`: moves to the column the trigger asks for and redraws the figure with the
        highlights of that column's annotations. */
    method UpdateFigure(t: seq<FigureInput>, prevClicks: Option<int>, nextClicks: Option<int>) returns (s: Outcome<Nav>)
      modifies this`figure, this`columnIndex, this`prevStore, this`nextStore, this`dropdown
      ensures var nav := Navigate(t, ColumnsOf(data), prevClicks, nextClicks, old(dropdown), old(columnIndex), old(prevStore), old(nextStore));
        s == (if nav.Updated? && nav.value.selected !in data.value.frame then Failed(UnknownColumn) else nav)
      ensures s.Updated? ==> columnIndex == s.value.columnIndex && prevStore == s.value.prevStore && nextStore == s.value.nextStore
      ensures s.Updated? ==> data.Some? && 0 <= columnIndex < |data.value.columns| && dropdown == Some(data.value.columns[columnIndex])
      ensures s.Updated? ==>
        figure.Some? && figure.value.series == data.value.frame[s.value.selected] &&
        Highlighting(figure.value.highlights, annotations, s.value.selected, figure.value.series)
      ensures !s.Updated? ==>
        figure == old(figure) && columnIndex == old(columnIndex) && prevStore == old(prevStore) &&
        nextStore == old(nextStore) && dropdown == old(dropdown)
    {
      var nav := Navigate(t, ColumnsOf(data), prevClicks, nextClicks, dropdown, columnIndex, prevStore, nextStore);
      if !nav.Updated? {
        return nav;
      }
      if nav.value.selected !in data.value.frame {
        return Failed(UnknownColumn);
      }
      var y := data.value.frame[nav.value.selected];
      var traces := HighlightTraces(annotations, nav.value.selected, y);
      figure := Some(Figure(y, traces));
      columnIndex, prevStore, nextStore := nav.value.columnIndex, nav.value.prevStore, nav.value.nextStore;
      dropdown := Some(nav.value.selected);
      s := nav;
    }

    /** `update_annotations`, applied to the `annotations` store. */
    method UpdateAnnotationList(t: set<AnnotationInput>, click: Option<Point>, loadClicks: Option<int>,
                                files: map<string, seq<Annotation>>) returns (s: Outcome<seq<Annotation>>)
      modifies this`annotations
      ensures s == UpdateAnnotations(t, click, loadClicks, old(annotations), dropdown, data, files)
      ensures s.Updated? ==> annotations == s.value
      ensures !s.Updated? ==> annotations == old(annotations)
    {
      s := UpdateAnnotations(t, click, loadClicks, annotations, dropdown, data, files);
      if s.Updated? {
        annotations := s.value;
      }
    }

    /** `display_click_data`: shows the clicked point and writes the session's file with the
        clicked record appended to the stored list, without looking for an equal record; the store
        itself is left as it is. */
    method DisplayClickData(click: Option<Point>) returns (s: Outcome<()>, written: Option<FileWrite>)
      modifies this`clickNotice
      ensures click.None? ==> s == Updated(()) && clickNotice == NoClickYet && written == None
      ensures click.Some? && data.None? ==> s == Failed(NoData) && clickNotice == old(clickNotice) && written == None
      ensures click.Some? && data.Some? ==>
        s == Updated(()) && clickNotice == ClickedPoint(click.value.x, click.value.y) &&
        written == Some(FileWrite(AnnotationPath(data.value), annotations + [Annotation(dropdown, click.value.x, click.value.y)]))
    {
      written := None;
      if click.None? {
        clickNotice := NoClickYet;
        return Updated(()), written;
      }
      var list := annotations + [Annotation(dropdown, click.value.x, click.value.y)];
      if data.None? {
        return Failed(NoData), written;
      }
      written := Some(FileWrite(AnnotationPath(data.value), list));
      clickNotice := ClickedPoint(click.value.x, click.value.y);
      s := Updated(());
    }

    /** `save_annotations`: writes the stored list to the session's file. */
    method SaveAnnotations(saveClicks: Option<int>) returns (s: Outcome<()>, written: Option<FileWrite>)
      modifies this`savedFile
      ensures saveClicks.None? || data.None? ==> s == Prevented && written == None && savedFile == old(savedFile)
      ensures saveClicks.Some? && data.Some? ==>
        s == Updated(()) && savedFile == Some(data.value.filename) &&
        written == Some(FileWrite(AnnotationPath(data.value), annotations))
    {
      if saveClicks.None? || data.None? {
        return Prevented, None;
      }
      written := Some(FileWrite(AnnotationPath(data.value), annotations));
      savedFile := Some(data.value.filename);
      s := Updated(());
    }
  }
}
