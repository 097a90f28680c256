# PDF Merger core, modelled in Dafny

PDF Merger is a small desktop tool: the user picks a file for slot 1 and a
file for slot 2 through open-file dialogs, presses "Merge", chooses where to
save, and the two PDFs are concatenated into one. All of its logic lives in
the `Merger` class of `main.py` and the `message_box` helper; the rest is Qt
window wiring and a call into PyPDF2.

This project models that logic as pure functions:

- `SlotStore` — the merger's `files` dictionary. It is a sequence of
  `(key, path)` items in dict iteration order, which is first-insertion
  order: `Put` appends a new key and overwrites an existing key in place.
- `Label` — how a chosen path is clipped for the slot label (27-character
  budget; a longer path shows its first 6 characters, `...`, and its last 15).
- `Messages` — `message_box`'s title selection (`"error"` gives `Error!`,
  `"info"` gives `PDF Merger`, anything else raises `ValueError`) and its
  return value -1.
- `Merger` — `__init__`, `load_file` and `merge_files`. The open and save
  dialogs' results are parameters (`Option<string>`: `None` or a string).
  What the merge does to the outside world is returned as an ordered log of
  `Action`s: message boxes shown, the save dialog shown, and PdfMerger's
  `append`, `write` and `close` calls. `merge_files`' return value is
  `Some(-1)` or `None`. `Decide` is an independent statement of the merge's
  decision table (no files, one file, a missing entry, save cancelled,
  saved), and `MergeFiles`' contract ties the log and return value to it.
- `Effects`, `Wrappers` — the action and error datatypes, `Option` and
  `Result`.

Three behaviours of the code are easy to misread:

- The merge order is the store's iteration order (first insertion), not
  ascending key order. Loading slot 2 before slot 1 puts slot 2's file first
  in the output, and reloading a slot keeps its original place.
- The save dialog's result is only compared with `None`. An empty string is
  not treated as a cancel, so `write("")` is reached (see Findings).
- A failing `merge_files` returns -1 without closing the PdfMerger object;
  a successful or cancelled one returns `None`.

## Model

| member | source | states |
|---|---|---|
| Messages.Title | main.py:27-34 | "error" and "info" are the only accepted kinds; "error" maps to "Error!" and "info" to "PDF Merger"; any other kind fails with the ValueError text naming the kind |
| Messages.MessageBox | main.py:27-40 | succeeds exactly for "error" and "info", shows one box with the kind's title and the given text, and returns -1 |
| Messages.TitlesDistinguishKinds | main.py:29-32 | two accepted kinds get the same title only if they are the same kind |
| Messages.Digits | main.py:221 | the digits of a natural number as `str` writes it: decimal digits only, a leading zero exactly for 0, and reading them back gives the number |
| Messages.Decimal | main.py:221 | `str` of the key in the "File {key} not found" f-string: a minus sign exactly for a negative number, then the digits of its magnitude with no leading zero unless it is 0 |
| Messages.DecimalInjective | main.py:221 | different keys are written as different texts, so the key can be read back from the f-string |
| Label.Clip | main.py:193-199 | the label never exceeds 27 characters; it equals the path exactly when the path has at most 27; a longer path gives a 24-character label made of its first 6 characters, "...", and its last 15 |
| Label.ClipIdempotent | main.py:193-199 | clipping a label again leaves it unchanged |
| Label.ClipForgetsMiddle | main.py:197 | long paths agreeing on their first 6 and last 15 characters get the same label |
| SlotStore.Put | main.py:192 | dict assignment: a new key is appended at the end; an existing key keeps its place and only its value changes; the key sequence is otherwise unchanged |
| SlotStore.PutMembers | main.py:192 | after assignment the key holds the new value and every item with another key is kept, and nothing else appears |
| SlotStore.PutUnique | main.py:192 | assignment never makes a key occur twice |
| SlotStore.PutWellFormed | main.py:185-192 | assigning a slot number 1 or 2 keeps the store to slot keys only, hence at most two items |
| SlotStore.AtMostTwo | main.py:185-192 | a store whose keys are distinct slot numbers has at most two items |
| SlotStore.PutOverwrites | main.py:192 | assigning the same key twice equals assigning only the later value |
| SlotStore.PutKeepsFirstPlace | main.py:192 | slot 2 assigned, then slot 1, then slot 2 again: slot 2 stays first with the newer value |
| SlotStore.FirstMissing | main.py:219-222 | the position of the first item whose path is None: every earlier item has a path |
| Merger.Init | main.py:177-178 | a fresh merger's dict holds no key and is a store loading can build |
| Merger.LoadFile | main.py:180-203 | a key other than 1 or 2 fails with ValueError "Error defining file number"; a None or empty dialog result leaves store and widgets unchanged; a real path is assigned to the slot and the widgets show the clipped path and the loaded icon; stores built by loading stay reachable (slot keys only, every path real) |
| Merger.LoadSetsSlot | main.py:185-192 | a real selection for slot k puts the path in slot k, keeps the other slot's item, adds nothing else, and keeps the keys within {1, 2} |
| Merger.InvalidKeyIgnoresDialog | main.py:185-188 | with a bad key the outcome is the same ValueError whatever the dialog would have returned, so the dialog is never consulted |
| Merger.AppendAll | main.py:219-223 | walks the items in order appending each path; it stops at the first None, reporting that item's key, with exactly the earlier paths appended |
| Merger.ReasonTextIdentifiesReason | main.py:212-221 | the three error texts ("No files were selected", "Only one file was selected", "File {key} not found") are equal only for the same refusal, so the missing-file text names its key |
| Merger.SavedTextNamesPath | main.py:231 | the info text after a save ends with the output path, so different paths give different texts |
| Merger.MergeFiles | main.py:205-231 | returns -1 exactly when the decision table refuses the merge; with fewer than two items the log is the single error box "No files were selected" or "Only one file was selected"; every refusal ends with its error box; the save dialog is shown exactly when no check failed; write(p) happens exactly when every check passes and the save result is Some(p); close happens exactly on a save, so a refused or cancelled merge never closes the PdfMerger; a save ends with write, close and the info box naming the path; a cancel ends at the save dialog |
| Merger.AppendAllLog | main.py:219-223 | the append loop's log is exactly one append per path, in store order, up to the first absent path |
| Merger.MergeSavedLog | main.py:219-231 | with two or more present paths and a save result p, the whole log is the appends in store order, the save dialog, write(p), close and the info box naming p, and nothing else |
| Merger.MergeCancelledLog | main.py:219-228 | with two or more present paths and no save result, the whole log is the appends in store order and the save dialog, and nothing else |
| Merger.MergeMissingLog | main.py:219-223 | with two or more items and an absent path, the whole log is the appends of the paths before it and the "File {key} not found" box for its key; no save dialog, write or close |
| Merger.MergeAppendsInStoreOrder | main.py:219-225 | with two or more present paths, the log starts with one append per path in store order, then the save dialog |
| Merger.ReachableMergeProceeds | main.py:212-225 | a store built by loading with at least two items has exactly two, never hits the missing-file check, and merges slot items in store order before asking for the save path |
| Merger.OverwriteKeepsFirstPlace | main.py:188-192 | loading slot 2, then slot 1, then slot 2 again leaves slot 2 first with its new path, and the merge appends slot 2's new path, then slot 1's, then shows the save dialog |
| Merger.InitReportsNoFiles | main.py:177-178 | a fresh merger is reachable, and merging it shows only "No files were selected" and returns -1 |
| Merger.EmptySavePathIsWritten | main.py:225-229 | as written, an empty save result with two present paths still reaches write("") |
| Merger.MergeFilesChecked | main.py:225-231 | corrected merge: it never writes to an empty path; it writes p exactly when the decision is Saved(p) with p non-empty; an empty save result gives exactly the run of the as-written merge with no save result: a refused merge shows its error box and returns -1, otherwise the run ends at the save dialog with no write, close or info box and returns None; any other save result gives exactly the as-written run |

## Findings

| source | as written | input that shows it | evidently intended | confidence | as-written member | corrected member |
|---|---|---|---|---|---|---|
| main.py:228 | the save result is checked only with `is not None` | both slots loaded, save dialog dismissed; Qt's save dialog then returns the empty string, and `merger.write("")` is called | a dismissed save dialog ends the merge silently without writing, as the open dialog's check at main.py:190 does by also rejecting `""` | medium, not executed | Merger.EmptySavePathIsWritten | Merger.MergeFilesChecked |

`Merger.MergeFiles` models the code as written and all other merge lemmas
are about it; `Merger.MergeFilesChecked` is the corrected merge.

## Left out

- Qt window setup, layout, status bar, icons and button enabling
  (`MainWindow`): rendering only. The slot's label and image widgets are
  modelled as the `SlotView` value `load_file` returns.
- `run_on_thread` and `Worker`: their subject is threading and Qt signals,
  and the buttons use the synchronous `run_off_thread` instead, which only
  disables the buttons, makes the call, and re-enables them.
- `open_file_dialog` and `save_file_dialog`: the dialogs themselves are
  outside the model; their results are parameters.
- PyPDF2's `PdfMerger`: a foreign library. `append`, `write` and `close`
  are entries in the action log. Exceptions they may raise (a missing or
  malformed PDF, an unwritable path) propagate out of `merge_files`
  uncaught in the code and are not modelled.
- `print(file)` in `merge_files`: console output only.
- `resource_path` and the `__main__` block: process start-up and
  filesystem paths.
- Merger.LoadFile: the image widget's pixmap is modelled only as the
  `Loaded` icon state, not the image file path.
