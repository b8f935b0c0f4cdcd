# EZLabel annotation core, modelled in Dafny

EZLabel is a set of scripts for hand-annotating animal-behaviour time series ("bouts"). This
project models the sequential logic inside two of them:

- **The web annotation tool** (`ezlabel.py`). A reviewer uploads a CSV table of trials. The tool
  keeps the trial columns, without the metadata columns `start_index`, `stop_index` and `region`.
  It names the session after the file name up to its first `.`. The reviewer steps through the
  columns with Previous/Next buttons, which wrap round, or picks one from a dropdown. Each figure
  click adds an annotation `(column, index, value)`. The figure highlights, around each annotation on the shown column, the points from `N = 30`
  before it to `N - 1` after it. Annotations are saved to and loaded from `<session>.pkl`.
- **The join script** (`ezstable.py`). For each saved annotation, `process_row` cuts the window
  `[peak - N, min(len, peak + N))` out of every trial column of the bout's table. It returns
  nothing when the window would start before 0.

Modules:

- `Wrappers`: `Option` and `Result`.
- `PyOps`: the Python built-ins the scripts use, with Python's semantics. These are `list.index`,
  `in` on strings, and slicing with negative and out-of-range bounds.
- `Bouts`: what both scripts share. This is the annotation record, the metadata-column filter,
  and the window `[max(0, c - h), min(len, c + h))`.
- `EzLabel`: the callbacks of the web tool. Each is either a pure transition (`Navigate`,
  `UpdateAnnotations`, `LoadUpload`) or a loop (`HighlightTraces`). The class `Session` holds the
  values of the tool's stores and components. Its methods are the callbacks.
- `EzStable`: `process_row` with its loop over the columns, and the field renaming of the
  annotation records.

A callback that raises an exception, raises `PreventUpdate` or returns `dash.no_update` leaves
every output as it was. In `Outcome`, `Prevented` stands for `PreventUpdate` and `no_update`.
`Failed` stands for an exception, which it names as a `Failure`.

In `process_row`, a table without one of the metadata columns makes `drop` raise a KeyError. A
trial missing from the table makes `loc` raise one too. `ProcessRow` returns these as errors.

## Model

| member | source | states |
|---|---|---|
| `Bouts.SelectableColumns` | ezlabel.py:70 | a column is kept exactly when it is an input column and not `start_index`, `stop_index` or `region`; never more columns than the input |
| `Bouts.SelectableColumnsAppend` | ezlabel.py:70 | filtering a concatenation is concatenating the filtered parts, so the kept columns stay in input order |
| `Bouts.SelectableColumnsCount` | ezstable.py:14 | every trial column is kept as often as it occurs in the input; metadata columns never are |
| `Bouts.SelectableColumnsKeepsTrials` | ezstable.py:22 | a column list without metadata columns is left unchanged |
| `Bouts.SelectableColumnsIdempotent` | ezlabel.py:70 | filtering twice is filtering once |
| `Bouts.Window` | ezlabel.py:174-175 | the window lies in `[0, len)`, is at most `2N` wide, and holds exactly the positions within `[center - N, center + N)` |
| `Bouts.Around` | ezstable.py:24-26 | when `center + N >= 0`, the cut has the window's width (at most `2N`) and element `k` is `s[lower + k]`. A window ending below 0 gives a prefix of `s`, because Python reads a negative end from the back |
| `Bouts.AroundShape` | ezstable.py:23-26 | when `center - N >= 0`, the cut has `max(0, min(len, center + N) - (center - N))` elements, at most `2N`; element `k` is `s[center - N + k]`; it is empty once `center - N >= len` |
| `PyOps.ListIndex` | ezlabel.py:150 | `columns.index(c)` gives the first position holding `c`; it fails exactly when `c` is not in the list |
| `PyOps.Contains` | ezlabel.py:66 | `'csv' in filename` holds exactly when `csv` occurs somewhere in the name |
| `PyOps.SliceBound` | ezlabel.py:180 | a slice bound lands in `[0, len]`. A bound in that range is kept, a bound past the end becomes `len`, and a negative bound `i` becomes `i + len`, or 0 when that is still negative |
| `PyOps.SliceNegative` | ezlabel.py:180 | `s[:-k]` drops the last `k` elements and `s[-k:]` keeps only them |
| `PyOps.Slice` | ezstable.py:26 | Python's `s[start:end]` has the length of the normalised range, or 0 when the bounds cross; element `k` is `s[lo + k]` |
| `PyOps.SliceNonNegative` | ezstable.py:26 | a slice with non-negative bounds `[start:end]` keeps the positions from `start` to `min(end, len)`, in order, and is empty when `start >= len` or `start >= end` |
| `EzLabel.SessionName` | ezlabel.py:71 | the session name is a prefix of the file name and contains no `.`; it is the whole name, or the character after it is the first `.` |
| `EzLabel.LoadUpload` | ezlabel.py:63-78 | a name without `csv` fails, because `data` is never bound. Contents that cannot be parsed give no update, as `no_update` does. A csv-named, parsed upload always succeeds, and the store then holds the table, the filtered columns and the session name |
| `EzLabel.Clicks` | ezlabel.py:146-147 | `n_clicks or 0` is 0 for `None` (and for 0), and the click count otherwise |
| `EzLabel.ResetsView` | ezlabel.py:130 | the first branch is taken exactly when nothing triggered or some trigger, at any position, is the data store |
| `EzLabel.Wrap` | ezlabel.py:152-154 | the new index lies in `[0, count)` and differs from `old + nextDiff - prevDiff` by a multiple of the column count |
| `EzLabel.ModUnique` | ezlabel.py:154 | Python's `%` with a positive divisor gives the unique remainder in `[0, n)` |
| `EzLabel.WrapNext` | ezlabel.py:154 | one click on Next moves to the next column, and from the last column back to the first |
| `EzLabel.WrapPrev` | ezlabel.py:154 | one click on Previous moves to the previous column, and from the first column to the last |
| `EzLabel.WrapBack` | ezlabel.py:152-154 | `k` clicks on Next followed by `k` clicks on Previous return to the same column |
| `EzLabel.ResetView` | ezlabel.py:133-141 | no data means no update, and no columns means an IndexError. Data with at least one column always gives index 0, column `columns[0]` and the given click stores |
| `EzLabel.StepView` | ezlabel.py:143-156 | no data is an error. A dropdown pick succeeds exactly when the value is in the list, and then selects its first position. A click succeeds exactly when there are columns, and then moves by the net clicks modulo the count. The stores take the button counts (`n_clicks or 0`). The selected column is `columns[index]` |
| `EzLabel.NavigateAsWritten` | ezlabel.py:130-156 | `update_figure`'s arithmetic as written: after a reset both click stores are 0 |
| `EzLabel.NavigateAsWrittenResets` | ezlabel.py:130-141 | an upload or the initial call selects index 0 and column `columns[0]`, and sets both click stores to 0 |
| `EzLabel.StaleClickStoresAfterUpload` | ezlabel.py:138-154 | with 5 columns and Next clicked 3 times before a re-upload, the next click on Next moves from column 0 to column 4 |
| `EzLabel.Navigate` | ezlabel.py:130-156 | corrected arithmetic. It gives `Prevented` exactly on a reset without data. A reset with data updates exactly when there is a column, and selects index 0. A step without data fails. A dropdown step updates exactly when the value is in the list, and selects the value's first position. A click step updates exactly when there is a column, and moves by the net clicks modulo the count. Every update has an index in `[0, |columns|)` and selects `columns[index]`, and the stores equal the button counts |
| `EzLabel.NavigateWithoutClicksStays` | ezlabel.py:146-156 | with stores equal to the button counts, a trigger that is neither a dropdown pick nor an upload keeps the column |
| `EzLabel.NavigateNextAfterUpload` | ezlabel.py:138-156 | with the corrected reset, the first click on Next after an upload selects column `1 % count`, however often Next was clicked before |
| `EzLabel.TraceAt` | ezlabel.py:173-181 | a highlight trace's bounds satisfy `0 <= lower`, `upper <= len` and `upper - lower <= 2N`. It covers exactly the positions from `N` before the annotation to `N - 1` after it. Its y values are the slice of the series |
| `EzLabel.OnColumn` | ezlabel.py:171-172 | an annotation is kept exactly when its column equals the selected column |
| `EzLabel.OnColumnAppend` | ezlabel.py:171-172 | filtering a concatenation is concatenating the filtered parts, so the kept annotations stay in list order |
| `EzLabel.OnColumnCount` | ezlabel.py:171-172 | an annotation on the selected column is kept as often as it occurs, so a duplicated record gets one trace per copy; others are never kept |
| `EzLabel.HighlightTraces` | ezlabel.py:171-187 | the loop yields one trace per annotation of the selected column, in list order, each the window around that annotation, every one within bounds |
| `EzLabel.AddAnnotation` | ezlabel.py:230-237 | the record ends up in the list. An existing record leaves the list unchanged; otherwise the old list is a prefix and one record is added at most. Nothing else appears, and a list without duplicates stays without duplicates |
| `EzLabel.AddAnnotationIdempotent` | ezlabel.py:236-237 | clicking the same point twice records it once |
| `EzLabel.AnnotationPath` | ezlabel.py:106 | a session's annotation file is its name followed by `.pkl` |
| `EzLabel.UpdateAnnotations` | ezlabel.py:199-239 | no trigger means no update. An upload yields the empty list. A load yields the session file's list, or the empty list when the file is missing. It makes no update without load clicks or data. A click without a point or a selected column makes no update; otherwise it adds the record once |
| `EzLabel.Session.constructor` | ezlabel.py:34-38 | the stores start as in the layout: no data, index 0, both click stores 0, no annotations |
| `EzLabel.Session.UpdateData` | ezlabel.py:59-78 | no upload means no update; otherwise the store, the dropdown options (the filtered columns) and the notice follow `LoadUpload`; nothing changes on failure |
| `EzLabel.Session.UpdateFigure` | ezlabel.py:127-189 | index, stores and dropdown follow the corrected `Navigate`, so a reset stores the button counts rather than 0. The selected column must exist in the table. After an update, `dropdown` is `columns[columnIndex]` and the figure shows that column with its highlights. On failure nothing changes |
| `EzLabel.Session.UpdateAnnotationList` | ezlabel.py:199-239 | the `annotations` store follows `UpdateAnnotations`; it is unchanged when that does not update |
| `EzLabel.Session.DisplayClickData` | ezlabel.py:89-109 | without a click, the notice is reset. With a click but no data, it fails before writing. Otherwise the session file gets the stored list plus the clicked record, with no duplicate check, and the store is untouched |
| `EzLabel.Session.SaveAnnotations` | ezlabel.py:247-256 | without clicks or data, nothing happens; otherwise the stored list is written to `<session>.pkl` |
| `EzStable.ProcessRow` | ezstable.py:12-28 | an unknown bout name is a KeyError, and so is a table missing a metadata column; otherwise the result is `CutsRow` over the table's trial columns |
| `EzStable.CutColumns` | ezstable.py:20-28 | with `peak - N < 0` the result is the empty mapping. Otherwise, when every trial column has a cell for the trial, the keys are exactly the trial columns and each value is the cut around the peak. If a cell is missing, the result is a KeyError |
| `EzStable.Rename` | ezstable.py:46 | `column` becomes `trial_id` and `index` becomes `peak_index`; `value` is kept |
| `EzStable.Unrename` | ezstable.py:46 | renaming the result gives back the renamed record |
| `EzStable.RenameRoundTrip` | ezstable.py:46 | renaming maps `index` to `peak_index` and `column` to `trial_id`, keeps `value`, and renaming back gives the original record, in both directions |

## Findings

| source | as written | input that shows it | evidently intended | confidence | as-written member | corrected member |
|---|---|---|---|---|---|---|
| ezlabel.py:138-141 | a new upload sets both click stores to 0, but the buttons' `n_clicks` keep their counts | 5 columns, Next clicked 3 times, a new file uploaded, Next clicked once more: `next_diff` is 4 and the tool shows column 4 | the first click after an upload moves one column, so the stores take the buttons' current counts | not executed; medium | `EzLabel.StaleClickStoresAfterUpload` | `EzLabel.NavigateNextAfterUpload` |

`Session.UpdateFigure` uses the corrected `Navigate`. `NavigateAsWritten` keeps the code's
behaviour.

Two further observations, not executed:

- The comment at ezlabel.py:13 says `N` points are marked before and after the clicked point.
  The window of ezlabel.py:174-175 is `[idx - N, idx + N)`, so it marks `N` points before and
  only `N - 1` after. `Bouts.Window` states the positions exactly.
- For an annotation with `index < -N`, the upper bound `min(len, idx + N)` is negative. The
  y slice at ezlabel.py:180 reads that bound from the back, while the x range is empty
  (`Bouts.Around`). Clicks always give `index >= 0`, so only a hand-edited file can reach this.

## Left out

- Dash layout, callback wiring and `callback_context`: each callback is a method the caller invokes. The trigger is an enum input: a sequence for `update_figure` and a set for `update_annotations`. For `update_figure`, the reset test looks at every element (ezlabel.py:130), and only the dropdown test reads the first (ezlabel.py:149). The caller also supplies the button click counts and the user's dropdown choice (`Session.Choose`).
- base64 decoding, `contents.split(',')` and CSV parsing: an `Upload` carries the parsed table, or `None` when parsing fails. The non-CSV path (`data` unbound) is `Failed(NotCsv)`.
- `pd.read_json`, `dropna` and `df[int(selected_column)]`: the table is given as a map from column name to its non-missing values, and the lookup is in that map. The `int` conversion and its failure are not modelled.
- plotly figures: a figure is its series plus the highlight traces, each given by its x range and y slice.
- Floating-point values: y values are `real`. NaN is not modelled.
- pickle and file I/O: a load reads a snapshot of the files as a map from path to list, and a missing path stands for `FileNotFoundError`. Writes are returned as `FileWrite` values. Other pickle errors are not modelled.
- The message strings of the confirmations: they are values (`ClickedPoint(x, y)`, the saved or loaded file name) rather than formatted text.
- `int(row['trial_id'])` in `process_row`: `ProcessRow` takes the trial id as an integer. Parsing strings to integers is not modelled.
- The script-level loops of `ezstable.py` (lines 31-65): globbing, `read_pickle`, `concat`, `set_index` and `swaplevel` are library reshaping. Only the field renaming of line 46 is modelled, per record.
- `convert_to_sql.py` and `export_csv.py`: thin pandas reshape and CSV-writing wrappers. EZLabel's desktop GUI tools are not part of this model.
- EzLabel.Session.UpdateFigure: models the corrected reset. After an upload, the click stores take the buttons' counts, where ezlabel.py:140-141 stores 0. The as-written arithmetic is `EzLabel.NavigateAsWritten`; see "## Findings".
- Dafny maps are unordered, so the model does not capture the insertion order of `sliced_data_dict`.
