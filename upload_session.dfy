/** The smart-upload state of the dashboard (Dashboard.jsx, lines 360-373) and the
    handlers that change it: recomputing the merge, adding a batch of files, resetting,
    fixing one row and saving. */
module UploadSession {
  import opened Options
  import opened JsText
  import opened Records
  import opened TableReader
  import opened MergeEngine
  import opened Validation
  import opened Commit

  /** The two row lists of the preview. */
  datatype Lists = Lists(incomplete: seq<IncompleteRow>, complete: seq<MergedRow>)

  /** What `recomputeMergeState` leaves behind. `lists` is `None` when it returns before
      rebuilding the row lists, which then keep their previous contents. */
  datatype Recomputed = Recomputed(
    merged: seq<MergedRow>,
    missing: seq<Field>,
    error: string,
    step: nat,
    lists: Option<Lists>,
    nextId: nat)

  /** Lines 488-607, with identifiers handed out from `firstId` on. */
  function Recompute(files: seq<ParsedFile>, firstId: nat): Recomputed {
    if files == [] then Recomputed([], REQUIRED_FIELDS, "", 1, Some(Lists([], [])), firstId)
    else
      var st := MergeAll(MergeState([], map[], firstId), AllRows(files));
      var unique := KeepFirst(st.merged);
      var missing := MissingUnion(unique);
      var days := DistinctDays(unique);
      if |days| > 1 then Recomputed(unique, missing, ConflictMessage(days), 2, None, st.nextId)
      else
        Recomputed(unique, missing, "", if missing == [] then 3 else 2,
                   Some(Lists(IncompleteRows(unique), CompleteRows(unique))), st.nextId)
  }

  /** With no files: step 1, no rows, every required field missing, no error. With files:
      step 2 or 3, never 1. */
  lemma RecomputeSteps(files: seq<ParsedFile>, firstId: nat)
    ensures var r := Recompute(files, firstId);
      && (files == [] ==> r.step == 1 && r.merged == [] && r.missing == REQUIRED_FIELDS && r.error == "")
      && (files != [] ==> r.step == 2 || r.step == 3)
  {
  }

  /** The date rule: with files, an error is raised exactly when two records name different
      days, the message then names every day, the step is 2 and the row lists are left as
      they were. */
  lemma RecomputeDateConflict(files: seq<ParsedFile>, firstId: nat)
    requires files != []
    ensures var r := Recompute(files, firstId);
      && (r.error != "" <==>
            exists a, b :: a in r.merged && b in r.merged && a.row.appointmentDay != ""
              && b.row.appointmentDay != "" && a.row.appointmentDay != b.row.appointmentDay)
      && (r.error != "" ==>
            (r.step == 2 && r.lists.None?
             && forall i :: 0 <= i < |DistinctDays(r.merged)| ==> Contains(r.error, DistinctDays(r.merged)[i])))
  {
    var r := Recompute(files, firstId);
    SingleDayIffAgree(r.merged);
    ConflictMessageNamesDays(DistinctDays(r.merged));
    assert CONFLICT_PREFIX != "";
  }

  /** Without a date conflict, the step is 3 exactly when no record needs fixing, and the
      lists split the records. */
  lemma RecomputeReady(files: seq<ParsedFile>, firstId: nat)
    requires files != []
    requires Recompute(files, firstId).error == ""
    ensures var r := Recompute(files, firstId);
      && r.lists.Some?
      && (r.step == 3 <==> r.lists.value.incomplete == [])
      && (r.step == 3 <==> forall m :: m in r.merged ==> IsComplete(m.row))
      && |r.lists.value.incomplete| + |r.lists.value.complete| == |r.merged|
  {
    var r := Recompute(files, firstId);
    assert CONFLICT_PREFIX != "";
    ReadyIffNothingToFix(r.merged);
    MissingUnionEmpty(r.merged);
    PartitionFacts(r.merged);
  }

  /** The records shown after a recompute have pairwise distinct dedup keys. */
  lemma RecomputeKeysDistinct(files: seq<ParsedFile>, firstId: nat)
    requires files != []
    ensures var m := Recompute(files, firstId).merged;
      forall i, j :: 0 <= i < j < |m| ==> DedupKey(m[i].row) != DedupKey(m[j].row)
  {
    KeepFirstKeys(MergeAll(MergeState([], map[], firstId), AllRows(files)).merged);
  }

  /** `newMerged[i] = { ...newMerged[i], ...updatedRow }`: the record at `i` replaced by the
      edited one, which carries every field and the identifier; at position -1 the array is
      left as it is. */
  function Patched(rows: seq<MergedRow>, i: int, updated: MergedRow): (r: seq<MergedRow>)
    requires -1 <= i < |rows|
    ensures |r| == |rows|
    ensures forall k :: 0 <= k < |rows| && k != i ==> r[k] == rows[k]
    ensures 0 <= i ==> r[i] == updated
  {
    if 0 <= i then rows[i := updated] else rows
  }

  /** `mergedRows.findIndex(mr => mr.id === id)`. */
  function IndexOfId(rows: seq<MergedRow>, id: nat): (i: int)
    ensures -1 <= i < |rows|
    ensures i == -1 <==> forall j :: 0 <= j < |rows| ==> rows[j].id != id
    ensures i >= 0 ==> rows[i].id == id && forall j :: 0 <= j < i ==> rows[j].id != id
  {
    if rows == [] then -1
    else if rows[0].id == id then 0
    else
      var i := IndexOfId(rows[1..], id);
      if i == -1 then -1 else i + 1
  }

  /** The steps of `recomputeMergeState` with their early returns. */
  method RunRecompute(files: seq<ParsedFile>, firstId: nat) returns (r: Recomputed)
    ensures r == Recompute(files, firstId)
  {
    if files == [] {
      return Recomputed([], REQUIRED_FIELDS, "", 1, Some(Lists([], [])), firstId);
    }
    var st := MergeFiles(files, firstId);
    var unique := Deduplicate(st.merged);
    var missing := CollectMissing(unique);
    var days := CollectDays(unique);
    if |days| > 1 {
      return Recomputed(unique, missing, ConflictMessage(days), 2, None, st.nextId);
    }
    var incomplete, complete := PartitionRows(unique);
    var step := if |missing| == 0 then 3 else 2;
    return Recomputed(unique, missing, "", step, Some(Lists(incomplete, complete)), st.nextId);
  }

  // ---------------------------------------------------------------------------------------
  // The upload state and what each handler makes of it.

  /** The smart-upload state of lines 360-373, plus the identifier counter. */
  datatype SessionState = SessionState(
    parsedFiles: seq<ParsedFile>,
    mergedRows: seq<MergedRow>,
    missingFields: seq<Field>,
    mergeError: string,
    uploadStep: nat,
    incompleteRows: seq<IncompleteRow>,
    completeRows: seq<MergedRow>,
    rowToFix: Option<IncompleteRow>,
    editingIndex: Option<int>,
    nextId: nat)

  const INITIAL_STATE := SessionState([], [], [], "", 1, [], [], None, None, 0)

  /** The state once a recomputed result is stored: the lists are kept as they were when
      the recomputation stopped at a date conflict. */
  function Installed(s: SessionState, r: Recomputed): SessionState {
    s.(mergedRows := r.merged, missingFields := r.missing, mergeError := r.error,
       uploadStep := r.step, nextId := r.nextId,
       incompleteRows := if r.lists.Some? then r.lists.value.incomplete else s.incompleteRows,
       completeRows := if r.lists.Some? then r.lists.value.complete else s.completeRows)
  }

  /** The state after `recomputeMergeState(files)`. */
  function AfterRecompute(s: SessionState, files: seq<ParsedFile>): SessionState {
    Installed(s, Recompute(files, s.nextId))
  }

  /** The state after `handleUploadSmart` with the decoded files. */
  function AfterUpload(s: SessionState, files: seq<UploadFile>, canon: RowMapper): SessionState {
    if files == [] then s
    else
      match ParseBatch(files, canon)
      case Err(_) => s
      case Ok(batch) =>
        var all := s.parsedFiles + batch;
        AfterRecompute(s.(parsedFiles := all), all)
  }

  /** The state after `resetUploads`. */
  function AfterReset(s: SessionState): SessionState {
    s.(parsedFiles := [], mergedRows := [], missingFields := REQUIRED_FIELDS, mergeError := "",
       uploadStep := 1, incompleteRows := [], completeRows := [], rowToFix := None)
  }

  /** The state after the "Fix" button of an entry. */
  function AfterBeginFix(s: SessionState, entry: IncompleteRow): SessionState {
    s.(rowToFix := Some(entry), editingIndex := Some(IndexOfId(s.mergedRows, entry.record.id)))
  }

  /** The position being fixed, when there is one, is -1 or a position of the merged rows. */
  predicate FixTargetOk(s: SessionState) {
    s.editingIndex.Some? ==> -1 <= s.editingIndex.value < |s.mergedRows|
  }

  /** What `saveFixedRow` recomputes: the patched rows, both lists and the missing
      fields. */
  datatype Fixed = Fixed(rows: seq<MergedRow>, incomplete: seq<IncompleteRow>,
                         complete: seq<MergedRow>, missing: seq<Field>)

  function FixedOf(rows: seq<MergedRow>, i: int, updated: MergedRow): Fixed
    requires -1 <= i < |rows|
  {
    var rows' := Patched(rows, i, updated);
    Fixed(rows', IncompleteRows(rows'), CompleteRows(rows'), MissingUnion(rows'))
  }

  /** The state once the result of a fix is stored; the fix dialog closes. */
  function FixInstalled(s: SessionState, f: Fixed): SessionState {
    s.(mergedRows := f.rows, completeRows := f.complete, incompleteRows := f.incomplete,
       missingFields := f.missing, uploadStep := if f.missing == [] then 3 else 2,
       rowToFix := None, editingIndex := None)
  }

  /** The state after `saveFixedRow(updated)`. */
  function AfterSaveFixed(s: SessionState, updated: MergedRow): SessionState
    requires FixTargetOk(s)
  {
    if s.editingIndex.None? then s
    else FixInstalled(s, FixedOf(s.mergedRows, s.editingIndex.value, updated))
  }

  /** The computation of `saveFixedRow` before its `set...` calls (lines 806-831). */
  method RunFix(rows: seq<MergedRow>, i: int, updated: MergedRow) returns (f: Fixed)
    requires -1 <= i < |rows|
    ensures f == FixedOf(rows, i, updated)
  {
    var rows' := rows;
    if 0 <= i {
      rows' := rows'[i := updated];
    }
    var incomplete, complete, missing := Revalidate(rows');
    return Fixed(rows', incomplete, complete, missing);
  }

  /** What `confirmAndSave` decides for a state. */
  function SaveDecisionOf(s: SessionState, clinicId: string, confirmed: bool): SaveDecision {
    DecideSave(clinicId, s.mergedRows, s.completeRows, |s.incompleteRows|, s.mergeError, confirmed)
  }

  /** The state after `confirmAndSave`: reset after a successful insert, unchanged
      otherwise. */
  function AfterSave(s: SessionState, clinicId: string, confirmed: bool, inserted: bool): SessionState {
    if SaveDecisionOf(s, clinicId, confirmed).Insert? && inserted then AfterReset(s) else s
  }

  // ---------------------------------------------------------------------------------------
  // Properties of the handlers.

  /** The step is always 1, 2 or 3. */
  predicate StepInRange(s: SessionState) {
    1 <= s.uploadStep <= 3
  }

  /** Every handler keeps the step in range. */
  lemma HandlersKeepStepInRange(s: SessionState, files: seq<ParsedFile>, upload: seq<UploadFile>,
                                canon: RowMapper, entry: IncompleteRow, updated: MergedRow,
                                clinicId: string, confirmed: bool, inserted: bool)
    requires StepInRange(s)
    ensures StepInRange(AfterRecompute(s, files))
    ensures StepInRange(AfterUpload(s, upload, canon))
    ensures StepInRange(AfterReset(s))
    ensures StepInRange(AfterBeginFix(s, entry))
    ensures FixTargetOk(s) ==> StepInRange(AfterSaveFixed(s, updated))
    ensures StepInRange(AfterSave(s, clinicId, confirmed, inserted))
  {
    RecomputeSteps(files, s.nextId);
    if upload != [] && ParseBatch(upload, canon).Ok? {
      var all := s.parsedFiles + ParseBatch(upload, canon).value;
      RecomputeSteps(all, s.nextId);
    }
  }

  /** Choosing no file, or a batch with a sheet without a header, changes nothing; a good
      batch is appended to the files so far and everything is recomputed from all of them. */
  lemma UploadOutcome(s: SessionState, files: seq<UploadFile>, canon: RowMapper)
    ensures files == [] || ParseBatch(files, canon).Err? ==> AfterUpload(s, files, canon) == s
    ensures files != [] && ParseBatch(files, canon).Ok? ==>
      var s' := AfterUpload(s, files, canon);
      && s'.parsedFiles == s.parsedFiles + ParseBatch(files, canon).value
      && s'.mergedRows == Recompute(s'.parsedFiles, s.nextId).merged
      && s'.rowToFix == s.rowToFix && s'.editingIndex == s.editingIndex
  {
  }

  /** Saving a fixed row changes only the record being fixed, rebuilds both lists from the
      rows so that they split them, moves to step 3 exactly when no record is left to fix,
      and keeps the merge error and the uploaded files. */
  lemma SaveFixedOutcome(s: SessionState, updated: MergedRow)
    requires FixTargetOk(s) && s.editingIndex.Some?
    ensures var s' := AfterSaveFixed(s, updated);
      var i := s.editingIndex.value;
      && |s'.mergedRows| == |s.mergedRows|
      && (forall k :: 0 <= k < |s.mergedRows| && k != i ==> s'.mergedRows[k] == s.mergedRows[k])
      && (0 <= i ==> s'.mergedRows[i] == updated)
      && (s'.uploadStep == 3 <==> s'.incompleteRows == [])
      && (s'.uploadStep == 3 <==> forall m :: m in s'.mergedRows ==> IsComplete(m.row))
      && |s'.incompleteRows| + |s'.completeRows| == |s'.mergedRows|
      && s'.mergeError == s.mergeError && s'.parsedFiles == s.parsedFiles
      && s'.rowToFix.None? && s'.editingIndex.None?
  {
    var rows := Patched(s.mergedRows, s.editingIndex.value, updated);
    ReadyIffNothingToFix(rows);
    MissingUnionEmpty(rows);
    PartitionFacts(rows);
  }

  /** Without a position to fix, saving a fixed row does nothing. */
  lemma SaveFixedWithoutTarget(s: SessionState, updated: MergedRow)
    requires s.editingIndex.None?
    ensures AfterSaveFixed(s, updated) == s
  {
  }

  /** A merge error survives fixing rows, even when the step becomes 3, so saving stays
      refused until files are uploaded again. */
  lemma MergeErrorBlocksSaveAfterFix(s: SessionState, updated: MergedRow, clinicId: string)
    requires FixTargetOk(s) && s.mergeError != ""
    ensures var s' := AfterSaveFixed(s, updated);
      !SaveDecisionOf(s', clinicId, true).Insert? && AfterSave(s', clinicId, true, true) == s'
  {
  }

  /** A successful save empties the upload, and only an insert can change the state. */
  lemma SaveOutcome(s: SessionState, clinicId: string, confirmed: bool, inserted: bool)
    ensures var s' := AfterSave(s, clinicId, confirmed, inserted);
      && (SaveDecisionOf(s, clinicId, confirmed).Insert? && inserted ==>
            s'.parsedFiles == [] && s'.mergedRows == [] && s'.uploadStep == 1
            && s'.missingFields == REQUIRED_FIELDS && s'.incompleteRows == [] && s'.completeRows == [])
      && (s' != s ==> SaveDecisionOf(s, clinicId, confirmed).Insert?)
  {
  }

  /** The "Fix" button leaves a valid position to save into: the first merged row with the
      entry's identifier, or -1 when no merged row has it. */
  lemma BeginFixTarget(s: SessionState, entry: IncompleteRow)
    ensures var s' := AfterBeginFix(s, entry);
      && FixTargetOk(s') && s'.rowToFix == Some(entry)
      && (s'.editingIndex.value == -1 <==> forall m :: m in s.mergedRows ==> m.id != entry.record.id)
      && (s'.editingIndex.value >= 0 ==> s.mergedRows[s'.editingIndex.value].id == entry.record.id)
  {
    var i := IndexOfId(s.mergedRows, entry.record.id);
    if i == -1 {
      forall m | m in s.mergedRows ensures m.id != entry.record.id {
        var j :| 0 <= j < |s.mergedRows| && s.mergedRows[j] == m;
      }
    }
  }

  /** Resetting empties the upload but keeps the position of the row being fixed. */
  lemma ResetOutcome(s: SessionState)
    ensures var s' := AfterReset(s);
      && s'.parsedFiles == [] && s'.mergedRows == [] && s'.missingFields == REQUIRED_FIELDS
      && s'.mergeError == "" && s'.uploadStep == 1 && s'.rowToFix.None?
      && s'.editingIndex == s.editingIndex && s'.nextId == s.nextId
      && AfterReset(s') == s'
  {
  }

  class UploadSession {
    var parsedFiles: seq<ParsedFile>
    var mergedRows: seq<MergedRow>
    var missingFields: seq<Field>
    var mergeError: string
    var uploadStep: nat
    var incompleteRows: seq<IncompleteRow>
    var completeRows: seq<MergedRow>
    var rowToFix: Option<IncompleteRow>
    var editingIndex: Option<int>
    /** The next fresh identifier; stands in for `crypto.randomUUID()`. */
    var nextId: nat

    /** The fields, as one value. */
    function State(): SessionState
      reads this
    {
      SessionState(parsedFiles, mergedRows, missingFields, mergeError, uploadStep,
                   incompleteRows, completeRows, rowToFix, editingIndex, nextId)
    }

    /** The initial state of lines 360-373. */
    constructor ()
      ensures State() == INITIAL_STATE
    {
      parsedFiles := [];
      mergedRows := [];
      missingFields := [];
      mergeError := "";
      uploadStep := 1;
      incompleteRows := [];
      completeRows := [];
      rowToFix := None;
      editingIndex := None;
      nextId := 0;
    }

    /** `recomputeMergeState` (lines 488-608). */
    method RecomputeMergeState(files: seq<ParsedFile>)
      modifies this
      ensures State() == AfterRecompute(old(State()), files)
    {
      var r := RunRecompute(files, nextId);
      Install(r);
    }

    /** The `set...` calls that store a recomputed result. */
    method Install(r: Recomputed)
      modifies this
      ensures State() == Installed(old(State()), r)
    {
      mergeError := r.error;
      mergedRows := r.merged;
      missingFields := r.missing;
      uploadStep := r.step;
      nextId := r.nextId;
      if r.lists.Some? {
        incompleteRows := r.lists.value.incomplete;
        completeRows := r.lists.value.complete;
      }
    }

    /** `handleUploadSmart` (lines 610-684) once the files are decoded. */
    method UploadSmart(files: seq<UploadFile>, canon: RowMapper)
      modifies this
      ensures State() == AfterUpload(old(State()), files, canon)
    {
      if files == [] {
        return;
      }
      var batch := ReadBatch(files, canon);
      if batch.Err? {
        return;
      }
      parsedFiles := parsedFiles + batch.value;
      RecomputeMergeState(parsedFiles);
    }

    /** `resetUploads` (lines 686-695). */
    method ResetUploads()
      modifies this
      ensures State() == AfterReset(old(State()))
    {
      parsedFiles := [];
      mergedRows := [];
      missingFields := REQUIRED_FIELDS;
      mergeError := "";
      uploadStep := 1;
      incompleteRows := [];
      completeRows := [];
      rowToFix := None;
    }

    /** The "Fix" button (lines 1321-1325). */
    method BeginFix(entry: IncompleteRow)
      modifies this
      ensures State() == AfterBeginFix(old(State()), entry)
    {
      rowToFix := Some(entry);
      var i := -1;
      var j := 0;
      while j < |mergedRows|
        invariant 0 <= j <= |mergedRows|
        invariant forall k :: 0 <= k < j ==> mergedRows[k].id != entry.record.id
      {
        if mergedRows[j].id == entry.record.id {
          i := j;
          break;
        }
        j := j + 1;
      }
      editingIndex := Some(i);
    }

    /** `saveFixedRow` (lines 801-848). */
    method SaveFixedRow(updated: MergedRow)
      requires FixTargetOk(State())
      modifies this
      ensures State() == AfterSaveFixed(old(State()), updated)
    {
      if editingIndex.None? {
        return;
      }
      var f := RunFix(mergedRows, editingIndex.value, updated);
      InstallFix(f);
    }

    /** The `set...` calls of `saveFixedRow` (lines 833-847). */
    method InstallFix(f: Fixed)
      modifies this
      ensures State() == FixInstalled(old(State()), f)
    {
      mergedRows := f.rows;
      completeRows := f.complete;
      incompleteRows := f.incomplete;
      missingFields := f.missing;
      if |f.missing| == 0 {
        uploadStep := 3;
      } else {
        uploadStep := 2;
      }
      rowToFix := None;
      editingIndex := None;
    }

    /** `confirmAndSave` (lines 883-972). `confirmed` is the user's answer to the dialog and
        `inserted` whether the database accepted the rows. */
    method ConfirmAndSave(clinicId: string, confirmed: bool, inserted: bool) returns (d: SaveDecision)
      modifies this
      ensures d == SaveDecisionOf(old(State()), clinicId, confirmed)
      ensures State() == AfterSave(old(State()), clinicId, confirmed, inserted)
    {
      if |mergedRows| == 0 {
        return NothingToSave;
      }
      if |completeRows| == 0 {
        return Refused(NO_COMPLETE_MESSAGE);
      }
      if |incompleteRows| > 0 && !confirmed {
        return Declined;
      }
      if mergeError != "" {
        return Refused(MERGE_ERROR_MESSAGE);
      }
      d := Insert(Payload(clinicId, completeRows));
      if inserted {
        ResetUploads();
      }
    }
  }
}
