/** The join script: cuts, for one saved annotation, the window around its peak out of every
    trial column of the bout's table. */
module EzStable {
  import opened Wrappers
  import opened PyOps
  import opened Bouts

  /** One bout table: its column labels in order and, per trial id (the row index) and column,
      the recorded sequence. */
  datatype Frame = Frame(columns: seq<string>, rows: map<int, map<string, seq<real>>>)

  /** The lookups of `process_row` that raise a KeyError. */
  datatype RowError =
    | UnknownName      // the bout name is not a key of the dictionary
    | MissingMetadata  // `drop` of a metadata label the table does not have
    | UnknownTrial     // `loc[trial_id, col]` on a trial (or cell) the table does not have

  /** `df.drop(['start_index', 'stop_index', 'region'], axis=1)` succeeds only when every
      metadata label is a column of the table. */
  predicate Droppable(f: Frame)
  {
    forall m :: m in MetadataColumns ==> m in f.columns
  }

  predicate HasCell(f: Frame, trial: int, col: string)
  {
    trial in f.rows && col in f.rows[trial]
  }

  /** `m` holds, for exactly the columns `cols`, the cut around `peak` of trial `trial`'s cell:
      `cell[max(0, peak - n):min(len(cell), peak + n)]`. */
  ghost predicate CutsOf(m: map<string, seq<real>>, f: Frame, trial: int, cols: seq<string>, peak: int, n: nat)
  {
    && (forall c :: c in m <==> c in cols)
    && (forall c :: c in m ==> HasCell(f, trial, c) && m[c] == Around(f.rows[trial][c], peak, n))
  }

  /** `process_row(row, dictionary, N)` for a row naming bout `name`, trial `trialId` and peak
      `peakIndex`: the cut around the peak of every trial column, keyed by column, or nothing at
      all when the window would start before position 0. */
  method ProcessRow(dictionary: map<string, Frame>, name: string, trialId: int, peakIndex: int, n: nat)
    returns (r: Result<map<string, seq<real>>, RowError>)
    ensures name !in dictionary ==> r == Err(UnknownName)
    ensures name in dictionary && !Droppable(dictionary[name]) ==> r == Err(MissingMetadata)
    ensures name in dictionary && Droppable(dictionary[name]) ==>
      CutsRow(r, dictionary[name], trialId, SelectableColumns(dictionary[name].columns), peakIndex, n)
  {
    if name !in dictionary {
      return Err(UnknownName);
    }
    var f := dictionary[name];
    if !Droppable(f) {
      return Err(MissingMetadata);
    }
    r := CutColumns(f, trialId, SelectableColumns(f.columns), peakIndex, n);
  }

  /** What the loop of `process_row` yields for the columns `cols`: nothing when the window would
      start before 0; otherwise the cuts of every column, or a KeyError when a cell is missing. */
  ghost predicate CutsRow(r: Result<map<string, seq<real>>, RowError>, f: Frame, trial: int, cols: seq<string>, peak: int, n: nat)
  {
    if peak - n < 0 then r == Ok(map[])
    else if forall c :: c in cols ==> HasCell(f, trial, c) then r.Ok? && CutsOf(r.value, f, trial, cols, peak, n)
    else r == Err(UnknownTrial)
  }

  /** The loop of `process_row` over the trial columns, with its guard inside the loop. */
  method CutColumns(f: Frame, trialId: int, cols: seq<string>, peakIndex: int, n: nat)
    returns (r: Result<map<string, seq<real>>, RowError>)
    ensures CutsRow(r, f, trialId, cols, peakIndex, n)
  {
    var sliced: map<string, seq<real>> := map[];
    var i := 0;
    while i < |cols|
      invariant 0 <= i <= |cols|
      invariant peakIndex - n < 0 ==> sliced == map[]
      invariant peakIndex - n >= 0 ==> forall j :: 0 <= j < i ==> HasCell(f, trialId, cols[j])
      invariant peakIndex - n >= 0 ==> CutsOf(sliced, f, trialId, cols[..i], peakIndex, n)
    {
      var col := cols[i];
      if peakIndex - n >= 0 {
        if !HasCell(f, trialId, col) {
          assert col in cols;
          return Err(UnknownTrial);
        }
        var cell := f.rows[trialId][col];
        var start := if 0 < peakIndex - n then peakIndex - n else 0;
        var end := if |cell| < peakIndex + n then |cell| else peakIndex + n;
        assert Slice(cell, start, end) == Around(cell, peakIndex, n);
        sliced := sliced[col := Slice(cell, start, end)];
      }
      assert cols[..i + 1] == cols[..i] + [col];
      i := i + 1;
    }
    assert cols[..|cols|] == cols;
    if peakIndex - n >= 0 {
      forall c | c in cols ensures HasCell(f, trialId, c) {
        var j :| 0 <= j < |cols| && cols[j] == c;
      }
    }
    return Ok(sliced);
  }

  /** An annotation record after the join script renames its fields: `index` becomes
      `peak_index` and `column` becomes `trial_id`. */
  datatype PeakRecord = PeakRecord(trialId: Option<string>, peakIndex: int, value: real)

  function Rename(a: Annotation): (p: PeakRecord)
    ensures p.trialId == a.column && p.peakIndex == a.index && p.value == a.value
  {
    PeakRecord(a.column, a.index, a.value)
  }

  /** The record under its annotation-tool field names again. */
  function Unrename(p: PeakRecord): (a: Annotation)
    ensures Rename(a) == p
  {
    Annotation(p.trialId, p.peakIndex, p.value)
  }

  /** The renaming loses and changes nothing: it is undone by renaming back, in both directions,
      and the value field is kept as it is. */
  lemma RenameRoundTrip(a: Annotation, p: PeakRecord)
    ensures Unrename(Rename(a)) == a && Rename(Unrename(p)) == p
    ensures Rename(a).peakIndex == a.index && Rename(a).trialId == a.column && Rename(a).value == a.value
  {
  }
}
