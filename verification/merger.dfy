/** The `Merger` class: loading a file into a slot and merging the two
    slots. The open and save dialogs are inputs; everything the merge does to
    the outside world is returned as a log of actions. */
module Merger {
  import opened Wrappers
  import opened Effects
  import opened SlotStore
  import Label
  import Messages

  /** The image widget beside a slot. */
  datatype Icon = NotLoaded | Loaded

  /** The label and image widgets of one slot. */
  datatype SlotView = SlotView(text: string, icon: Icon)

  /** The store and the slot's widgets after a load. */
  datatype LoadState = LoadState(files: Store, view: SlotView)

  /** What `merge_files` returns (-1 on a reported failure, otherwise `None`)
      and what it did, in order. */
  datatype MergeRun = MergeRun(ret: Option<int>, log: seq<Action>)

  /** Why a merge is refused. */
  datatype Reason = NoFilesSelected | OnlyOneFileSelected | MissingFile(key: int)

  /** The decision a merge reaches. */
  datatype Outcome = Saved(output: string) | Cancelled | Failed(reason: Reason)

  const InvalidKey := ValueError("Error defining file number")

  /** A fresh merger: no slot filled. */
  function Init(): (r: Store)
    ensures Reachable(r)
    ensures forall k :: k !in Keys(r)
  {
    []
  }

  /** The open dialog produced a path: neither `None` nor empty. */
  predicate Chosen(picked: Option<string>) {
    picked.Some? && picked.value != ""
  }

  /** Every store that loading can build: slot keys only, each holding a
      real path. */
  predicate Reachable(files: Store) {
    && WellFormed(files)
    && forall i :: 0 <= i < |files| ==> files[i].path.Some? && files[i].path.value != ""
  }

  /** `load_file`: checks the slot number, then takes the open dialog's
      result; a real path is stored and shown in the slot's widgets. */
  function LoadFile(files: Store, key: int, view: SlotView, picked: Option<string>): (r: Result<LoadState, Error>)
    ensures r.Failure? <==> !ValidKey(key)
    ensures r.Failure? ==> r.error == InvalidKey
    ensures r.Success? && !Chosen(picked) ==> r.value == LoadState(files, view)
    ensures r.Success? && Chosen(picked) ==>
      && r.value.files == Put(files, key, picked)
      && r.value.view == SlotView(Label.Clip(picked.value), Loaded)
    ensures r.Success? && Reachable(files) ==> Reachable(r.value.files)
  {
    if !ValidKey(key) then Failure(InvalidKey)
    else if Chosen(picked) then
      var stored := Put(files, key, picked);
      assert Reachable(files) ==> Reachable(stored) by {
        if Reachable(files) {
          PutWellFormed(files, key, picked);
          PutMembers(files, key, picked);
          forall i | 0 <= i < |stored|
            ensures stored[i].path.Some? && stored[i].path.value != ""
          {
            if stored[i].key != key {
              assert stored[i] in files;
            } else {
              assert stored[i] == Entry(key, picked);
            }
          }
        }
      }
      Success(LoadState(stored, SlotView(Label.Clip(picked.value), Loaded)))
    else Success(LoadState(files, view))
  }

  /** A real selection fills exactly its own slot: the other slot keeps its
      item, and the store still holds slot numbers only. */
  lemma LoadSetsSlot(files: Store, key: int, view: SlotView, picked: Option<string>)
    requires ValidKey(key) && Chosen(picked)
    ensures var r := LoadFile(files, key, view, picked);
      && r.Success?
      && Entry(key, picked) in r.value.files
      && (forall e :: e in files && e.key != key ==> e in r.value.files)
      && (forall e :: e in r.value.files && e.key != key ==> e in files)
      && (WellFormed(files) ==> WellFormed(r.value.files))
  {
    PutMembers(files, key, picked);
    if WellFormed(files) {
      PutWellFormed(files, key, picked);
    }
  }

  /** A bad slot number is refused before the dialog is consulted. */
  lemma InvalidKeyIgnoresDialog(files: Store, key: int, view: SlotView, a: Option<string>, b: Option<string>)
    requires !ValidKey(key)
    ensures LoadFile(files, key, view, a) == LoadFile(files, key, view, b) == Failure(InvalidKey)
  {
  }

  /** The result of walking the store and appending each path, stopping at
      the first absent one. */
  datatype Appending = Appended(log: seq<Action>) | Missing(log: seq<Action>, key: int)

  /** The loop of `merge_files` over the store's items. */
  function AppendAll(files: Store): (r: Appending)
    ensures r.Appended? <==> AllPresent(files)
    ensures r.Appended? ==> |r.log| == |files|
    ensures r.Missing? ==> |r.log| == FirstMissing(files) && r.key == files[|r.log|].key
    ensures |r.log| <= |files|
    ensures forall i :: 0 <= i < |r.log| ==> files[i].path.Some? && r.log[i] == Append(files[i].path.value)
  {
    if files == [] then Appended([])
    else if files[0].path.None? then Missing([], files[0].key)
    else
      var head := Append(files[0].path.value);
      match AppendAll(files[1..])
      case Appended(log) => Appended([head] + log)
      case Missing(log, key) => Missing([head] + log, key)
  }

  /** One `Append` per path, in order. */
  function Appends(paths: seq<string>): (log: seq<Action>)
    ensures |log| == |paths|
    ensures forall i :: 0 <= i < |paths| ==> log[i] == Append(paths[i])
  {
    if paths == [] then [] else [Append(paths[0])] + Appends(paths[1..])
  }

  /** The append loop's log is exactly one `Append` per path up to the first
      absent one. */
  lemma AppendAllLog(files: Store)
    ensures AllPresent(files) ==> AppendAll(files) == Appended(Appends(Paths(files)))
    ensures !AllPresent(files) ==>
      var i := FirstMissing(files);
      AllPresent(files[..i])
      && AppendAll(files) == Missing(Appends(Paths(files[..i])), files[i].key)
  {
    var r := AppendAll(files);
    if AllPresent(files) {
      var expected := Appends(Paths(files));
      assert |r.log| == |expected|;
      forall j | 0 <= j < |expected|
        ensures r.log[j] == expected[j]
      {
      }
      assert r.log == expected;
    } else {
      var i := FirstMissing(files);
      var prefix := files[..i];
      assert AllPresent(prefix);
      var expected := Appends(Paths(prefix));
      assert |r.log| == |expected|;
      forall j | 0 <= j < |expected|
        ensures r.log[j] == expected[j]
      {
        assert prefix[j] == files[j];
      }
      assert r.log == expected;
    }
  }

  /** The text of the error box for each refusal. */
  function ReasonText(reason: Reason): string {
    match reason
    case NoFilesSelected => "No files were selected"
    case OnlyOneFileSelected => "Only one file was selected"
    case MissingFile(key) => "File " + Messages.Decimal(key) + " not found"
  }

  /** Distinct refusals are reported with distinct texts; in particular the
      missing-file text names the key. */
  lemma {:induction false} ReasonTextIdentifiesReason(a: Reason, b: Reason)
    ensures ReasonText(a) == ReasonText(b) <==> a == b
  {
    ReasonInitial(a);
    ReasonInitial(b);
    if ReasonText(a) == ReasonText(b) && a.MissingFile? && b.MissingFile? {
      var s := ReasonText(a);
      var da, db := Messages.Decimal(a.key), Messages.Decimal(b.key);
      assert |da| == |db|;
      assert s[5..|s| - 10] == da;
      assert s[5..|s| - 10] == db;
      Messages.DecimalInjective(a.key, b.key);
    }
  }

  /** Each kind of refusal text starts with its own letter. */
  lemma ReasonInitial(reason: Reason)
    ensures ReasonText(reason)[0] == match reason
      case NoFilesSelected => 'N'
      case OnlyOneFileSelected => 'O'
      case MissingFile(_) => 'F'
  {
  }

  /** The text of the info box after a save. */
  function SavedText(path: string): string {
    "File sucessfully saved on \n " + path
  }

  /** The info box ends with the output path, so different paths give
      different texts. */
  lemma SavedTextNamesPath(p: string, q: string)
    ensures |SavedText(p)| > |p| && SavedText(p)[|SavedText(p)| - |p|..] == p
    ensures SavedText(p) == SavedText(q) <==> p == q
  {
    var sp, sq := SavedText(p), SavedText(q);
    assert sp[|sp| - |p|..] == p;
    assert sq[|sq| - |q|..] == q;
  }

  /** The message box of the given kind. */
  function Box(kind: string, msg: string): Action
    requires kind == "error" || kind == "info"
  {
    Messages.MessageBox(kind, msg).value.box
  }

  /** Every action is an append: no dialog, write, close or message. */
  predicate OnlyAppends(log: seq<Action>) {
    forall i :: 0 <= i < |log| ==> log[i].Append?
  }

  /** A log of appends holds no other kind of action. */
  lemma AppendsOnly(log: seq<Action>)
    requires OnlyAppends(log)
    ensures AskSavePath !in log && Close !in log
    ensures forall p :: Write(p) !in log
  {
  }

  /** The merge's decision table, stated over the store and the save
      dialog's result alone: the checks in order, first failure wins. */
  function Decide(files: Store, saved: Option<string>): Outcome {
    if |files| == 0 then Failed(NoFilesSelected)
    else if |files| == 1 then Failed(OnlyOneFileSelected)
    else if !AllPresent(files) then Failed(MissingFile(files[FirstMissing(files)].key))
    else if saved.None? then Cancelled
    else Saved(saved.value)
  }

  /** `merge_files`, with `saved` the save dialog's result. */
  function MergeFiles(files: Store, saved: Option<string>): (r: MergeRun)
    ensures r.ret == if Decide(files, saved).Failed? then Some(-1) else None
    ensures |files| < 2 ==> r.log == [ShowMessage("Error!", ReasonText(Decide(files, saved).reason))]
    ensures Decide(files, saved).Failed? ==>
      |r.log| >= 1 && r.log[|r.log| - 1] == ShowMessage("Error!", ReasonText(Decide(files, saved).reason))
    ensures AskSavePath in r.log <==> !Decide(files, saved).Failed?
    ensures forall p :: Write(p) in r.log <==> Decide(files, saved) == Saved(p)
    ensures Decide(files, saved) == Cancelled ==> |r.log| >= 1 && r.log[|r.log| - 1] == AskSavePath
    ensures Decide(files, saved).Saved? ==>
      var p := Decide(files, saved).output;
      |r.log| >= 3 && r.log[|r.log| - 3..] == [Write(p), Close, ShowMessage("PDF Merger", SavedText(p))]
    ensures Close in r.log <==> Decide(files, saved).Saved?
  {
    if |files| == 0 then MergeRun(Some(-1), [Box("error", ReasonText(NoFilesSelected))])
    else if |files| == 1 then MergeRun(Some(-1), [Box("error", ReasonText(OnlyOneFileSelected))])
    else
      match AppendAll(files)
      case Missing(log, key) =>
        assert OnlyAppends(log);
        AppendsOnly(log);
        assert Decide(files, saved) == Failed(MissingFile(key));
        MergeRun(Some(-1), log + [Box("error", ReasonText(MissingFile(key)))])
      case Appended(log) =>
        assert OnlyAppends(log);
        AppendsOnly(log);
        var asked := log + [AskSavePath];
        if saved.Some? then
          assert Decide(files, saved) == Saved(saved.value);
          MergeRun(None, asked + [Write(saved.value), Close, Box("info", SavedText(saved.value))])
        else
          assert Decide(files, saved) == Cancelled;
          MergeRun(None, asked)
  }

  /** The whole log of a merge that saves: the appends, the save dialog,
      the write, the close and the info box, and nothing else. */
  lemma {:induction false} MergeSavedLog(files: Store, p: string)
    requires |files| >= 2 && AllPresent(files)
    ensures MergeFiles(files, Some(p)).log
         == Appends(Paths(files)) + [AskSavePath] + [Write(p), Close, ShowMessage("PDF Merger", SavedText(p))]
  {
    AppendAllLog(files);
  }

  /** The whole log of a cancelled merge: the appends and the save dialog,
      and nothing else (no write, no close, no message). */
  lemma {:induction false} MergeCancelledLog(files: Store)
    requires |files| >= 2 && AllPresent(files)
    ensures MergeFiles(files, None).log == Appends(Paths(files)) + [AskSavePath]
  {
    AppendAllLog(files);
  }

  /** The whole log of a merge that meets an absent path: the appends of the
      paths before it, then the error box naming its key. The save dialog is
      never shown and the PdfMerger is never closed. */
  lemma {:induction false} MergeMissingLog(files: Store, saved: Option<string>)
    requires |files| >= 2 && !AllPresent(files)
    ensures var i := FirstMissing(files);
      AllPresent(files[..i])
      && MergeFiles(files, saved).log
         == Appends(Paths(files[..i])) + [ShowMessage("Error!", ReasonText(MissingFile(files[i].key)))]
  {
    AppendAllLog(files);
  }

  /** With two or more present paths, the merge appends them in the store's
      iteration order (first-insertion order, not key order) and then asks
      for the save path. */
  lemma MergeAppendsInStoreOrder(files: Store, saved: Option<string>)
    requires |files| >= 2 && AllPresent(files)
    ensures var log := MergeFiles(files, saved).log;
      |log| > |files| && log[..|files| + 1] == Appends(Paths(files)) + [AskSavePath]
  {
    var expected := Appends(Paths(files)) + [AskSavePath];
    if saved.Some? {
      MergeSavedLog(files, saved.value);
      var tail := [Write(saved.value), Close, ShowMessage("PDF Merger", SavedText(saved.value))];
      assert MergeFiles(files, saved).log == expected + tail;
      assert (expected + tail)[..|expected|] == expected;
    } else {
      MergeCancelledLog(files);
    }
  }

  /** A store built by loading never hits the missing-file check: once both
      slots are filled, the merge appends exactly the two paths and asks
      where to save. */
  lemma ReachableMergeProceeds(files: Store, saved: Option<string>)
    requires Reachable(files) && |files| >= 2
    ensures |files| == 2
    ensures Decide(files, saved) == if saved.None? then Cancelled else Saved(saved.value)
    ensures MergeFiles(files, saved).log[..3]
         == [Append(files[0].path.value), Append(files[1].path.value), AskSavePath]
  {
    AtMostTwo(files);
    assert AllPresent(files);
    var paths := Paths(files);
    assert paths == [files[0].path.value, files[1].path.value];
    MergeAppendsInStoreOrder(files, saved);
    assert Appends(paths) + [AskSavePath] == [Append(paths[0]), Append(paths[1]), AskSavePath];
  }

  /** The store after loading slot 2, then slot 1, then slot 2 again. */
  function LoadTwoOneTwo(a: string, b: string, c: string, view: SlotView): Store
    requires a != "" && b != "" && c != ""
  {
    var s1 := LoadFile(Init(), 2, view, Some(a)).value.files;
    var s2 := LoadFile(s1, 1, view, Some(b)).value.files;
    LoadFile(s2, 2, view, Some(c)).value.files
  }

  /** Slot 2 loaded first, then slot 1, then slot 2 overwritten: slot 2
      keeps its first place and holds the new path, so the paths the merge
      appends (see MergeAppendsInStoreOrder) come slot 2 first, not in key
      order. */
  lemma OverwriteKeepsFirstPlace(a: string, b: string, c: string, view: SlotView)
    requires a != "" && b != "" && c != ""
    ensures LoadTwoOneTwo(a, b, c, view) == [Entry(2, Some(c)), Entry(1, Some(b))]
    ensures Paths(LoadTwoOneTwo(a, b, c, view)) == [c, b]
    ensures forall saved: Option<string> ::
      MergeFiles(LoadTwoOneTwo(a, b, c, view), saved).log[..3] == [Append(c), Append(b), AskSavePath]
  {
    var s1 := LoadFile(Init(), 2, view, Some(a)).value.files;
    var s2 := LoadFile(s1, 1, view, Some(b)).value.files;
    assert s2 == Put(Put([], 2, Some(a)), 1, Some(b));
    PutKeepsFirstPlace(Some(a), Some(b), Some(c));
    var s := LoadTwoOneTwo(a, b, c, view);
    assert Reachable(s);
    forall saved: Option<string>
      ensures MergeFiles(s, saved).log[..3] == [Append(c), Append(b), AskSavePath]
    {
      ReachableMergeProceeds(s, saved);
    }
  }

  /** A fresh merger is a reachable store, and merging it only reports that
      nothing was selected. */
  lemma InitReportsNoFiles(saved: Option<string>)
    ensures Reachable(Init())
    ensures MergeFiles(Init(), saved) == MergeRun(Some(-1), [ShowMessage("Error!", "No files were selected")])
  {
  }

  /** As written, an empty save result is not a cancel: with both slots
      filled, `write("")` is still called. */
  lemma EmptySavePathIsWritten(files: Store)
    requires |files| >= 2 && AllPresent(files)
    ensures Write("") in MergeFiles(files, Some("")).log
  {
  }

  /** The merge as evidently intended: an empty save result, which is what
      the save dialog gives on cancel, is treated like `None`. */
  function MergeFilesChecked(files: Store, saved: Option<string>): (r: MergeRun)
    ensures forall p :: Write(p) in r.log ==> p != ""
    ensures forall p :: Write(p) in r.log <==> Decide(files, saved) == Saved(p) && p != ""
    ensures saved == Some("") ==> r.ret == MergeFiles(files, None).ret && Write("") !in r.log
    ensures saved == Some("") && !Decide(files, saved).Failed? ==>
      r.ret == None && |r.log| >= 1 && r.log[|r.log| - 1] == AskSavePath && Close !in r.log
    ensures saved == Some("") && |files| >= 2 && AllPresent(files) ==>
      r.log == Appends(Paths(files)) + [AskSavePath]
    ensures saved != Some("") ==> r == MergeFiles(files, saved)
    ensures saved == Some("") ==> r == MergeFiles(files, None)
  {
    var effective := if saved == Some("") then None else saved;
    assert saved == Some("") && |files| >= 2 && AllPresent(files) ==>
      MergeFiles(files, effective).log == Appends(Paths(files)) + [AskSavePath] by {
      if saved == Some("") && |files| >= 2 && AllPresent(files) {
        MergeCancelledLog(files);
      }
    }
    MergeFiles(files, effective)
  }
}
