/** The merge and dedup passes of `recomputeMergeState` (Dashboard.jsx, lines 500-558).
    Records live in a list; the index maps typed keys to positions in it, which is how the
    source's aliasing works: the record reached through the index is the one in the list.
    `crypto.randomUUID()` is replaced by a counter of fresh identifiers. */
module MergeEngine {
  import opened Options
  import opened Records
  import opened TableReader

  /** The merged list, the key index and the next fresh identifier. */
  datatype MergeState = MergeState(merged: seq<MergedRow>, index: map<string, nat>, nextId: nat)

  /** Every indexed key names a record of the list that has that key. */
  predicate IndexSound(merged: seq<MergedRow>, index: map<string, nat>) {
    forall k :: k in index ==> index[k] < |merged| && k in KeyCandidates(merged[index[k]].row)
  }

  /** The identifiers are consecutive and end just below `nextId`, so none repeats and none
      is handed out twice. */
  predicate IdsConsecutive(merged: seq<MergedRow>, nextId: nat) {
    && |merged| <= nextId
    && forall i :: 0 <= i < |merged| ==> merged[i].id + |merged| == nextId + i
  }

  predicate ValidState(st: MergeState) {
    IndexSound(st.merged, st.index) && IdsConsecutive(st.merged, st.nextId)
  }

  /** The fresh-identifier discipline: no two records share an identifier. */
  lemma IdsDistinct(st: MergeState)
    requires ValidState(st)
    ensures forall i, j :: 0 <= i < j < |st.merged| ==> st.merged[i].id < st.merged[j].id < st.nextId
  {
  }

  /** The loop `for (const k of keys) if (index.has(k)) { ...; break; }`: the position of
      the first key already in the index. */
  function FirstIndexed(keys: seq<string>, index: map<string, nat>): (r: Option<nat>)
    ensures r.Some? ==> r.value < |keys| && keys[r.value] in index
    ensures r.Some? ==> forall j :: 0 <= j < r.value ==> keys[j] !in index
    ensures r.None? <==> forall j :: 0 <= j < |keys| ==> keys[j] !in index
  {
    if keys == [] then None
    else if keys[0] in index then Some(0)
    else
      match FirstIndexed(keys[1..], index)
      case None => None
      case Some(i) => Some(i + 1)
  }

  /** `keys.forEach(k => index.set(k, record))`. */
  function Register(index: map<string, nat>, keys: seq<string>, p: nat): (r: map<string, nat>)
    ensures forall k :: k in r <==> k in index || k in keys
    ensures forall k :: k in keys ==> r[k] == p
    ensures forall k :: k in index && k !in keys ==> r[k] == index[k]
    decreases |keys|
  {
    if keys == [] then index
    else
      var n := |keys| - 1;
      assert forall k :: k in keys <==> k in keys[..n] || k == keys[n];
      Register(index, keys[..n], p)[keys[n] := p]
  }

  /** `if (!existing[f] && row[f]) existing[f] = row[f]` for one field. */
  function FillField(current: string, incoming: string): string {
    if current == "" && incoming != "" then incoming else current
  }

  /** The record after a merge: the blanks among the seven merge fields filled from the
      incoming row. */
  function Filled(existing: Row, incoming: Row): Row {
    existing.(
      patientName := FillField(existing.patientName, incoming.patientName),
      phone := FillField(existing.phone, incoming.phone),
      appointmentReason := FillField(existing.appointmentReason, incoming.appointmentReason),
      appointmentDay := FillField(existing.appointmentDay, incoming.appointmentDay),
      appointmentTime := FillField(existing.appointmentTime, incoming.appointmentTime),
      doctorName := FillField(existing.doctorName, incoming.doctorName),
      healthNumber := FillField(existing.healthNumber, incoming.healthNumber))
  }

  /** A merge fills exactly the merge fields the record leaves empty and the row provides;
      every other field, the insurance number among them, keeps the record's value. */
  lemma FilledOnlyFillsBlanks(existing: Row, incoming: Row)
    ensures var r := Filled(existing, incoming);
      && (forall f :: f in MERGE_FIELDS && Get(existing, f) == "" && Get(incoming, f) != "" ==>
            Get(r, f) == Get(incoming, f))
      && (forall f :: !(f in MERGE_FIELDS && Get(existing, f) == "" && Get(incoming, f) != "") ==>
            Get(r, f) == Get(existing, f))
  {
  }

  /** Filling blanks only adds keys: every key the record had, it keeps. */
  lemma FilledKeepsKeys(existing: Row, incoming: Row)
    ensures forall k :: k in KeyCandidates(existing) ==> k in KeyCandidates(Filled(existing, incoming))
  {
    var r := Filled(existing, incoming);
    KeyCandidatesShape(existing);
    KeyCandidatesShape(r);
    assert existing.insuranceNumber != "" ==> InsKey(r) == InsKey(existing);
    assert existing.phone != "" ==> PhoneKey(r) == PhoneKey(existing);
    assert existing.healthNumber != "" ==> HealthKey(r) == HealthKey(existing);
    assert existing.patientName != "" ==> NameKey(r) == NameKey(existing);
  }

  /** Merging is idempotent: filling a record again from the same row changes nothing. */
  lemma FilledIdempotent(existing: Row, incoming: Row)
    ensures Filled(Filled(existing, incoming), incoming) == Filled(existing, incoming)
  {
  }

  /** Lines 518-526: a row with no indexed key becomes a new record with the next
      identifier, and all its keys point at it. */
  function Append(st: MergeState, row: Row): MergeState {
    MergeState(st.merged + [MergedRow(st.nextId, row)],
               Register(st.index, KeyCandidates(row), |st.merged|),
               st.nextId + 1)
  }

  /** Lines 527-544: the record at `p` gets its blanks filled from the row and all its keys
      pointed at it. */
  function Join(st: MergeState, p: nat, row: Row): MergeState
    requires p < |st.merged|
  {
    var filled := Filled(st.merged[p].row, row);
    MergeState(st.merged[p := MergedRow(st.merged[p].id, filled)],
               Register(st.index, KeyCandidates(filled), p),
               st.nextId)
  }

  lemma AppendValid(st: MergeState, row: Row)
    requires ValidState(st)
    ensures ValidState(Append(st, row))
  {
    var r := Append(st, row);
    var keys := KeyCandidates(row);
    forall k | k in r.index
      ensures r.index[k] < |r.merged| && k in KeyCandidates(r.merged[r.index[k]].row)
    {
      if k in keys {
        assert r.index[k] == |st.merged| && r.merged[|st.merged|].row == row;
      } else {
        var q := st.index[k];
        assert r.index[k] == q && r.merged[q] == st.merged[q];
      }
    }
    forall i | 0 <= i < |r.merged| ensures r.merged[i].id + |r.merged| == r.nextId + i {
      if i < |st.merged| {
        assert r.merged[i] == st.merged[i];
      }
    }
  }

  lemma JoinValid(st: MergeState, p: nat, row: Row)
    requires ValidState(st) && p < |st.merged|
    ensures ValidState(Join(st, p, row))
  {
    FilledKeepsKeys(st.merged[p].row, row);
  }

  /** One row of the merge loop (lines 501-546): the row joins the record that owns the
      first of its keys already indexed, or is appended as a new record. An index entry
      outside the list cannot occur in a valid state (`StepValid`); there the state is left
      as it is. */
  function Step(st: MergeState, row: Row): (r: MergeState)
    ensures |st.merged| <= |r.merged| <= |st.merged| + 1
    ensures r.nextId == st.nextId + (|r.merged| - |st.merged|)
  {
    var keys := KeyCandidates(row);
    match FirstIndexed(keys, st.index)
    case None => Append(st, row)
    case Some(i) =>
      var p := st.index[keys[i]];
      if p < |st.merged| then Join(st, p, row) else st
  }

  /** Every step keeps the index sound and the identifiers consecutive. */
  lemma StepValid(st: MergeState, row: Row)
    requires ValidState(st)
    ensures ValidState(Step(st, row))
  {
    match FirstIndexed(KeyCandidates(row), st.index)
    case None => AppendValid(st, row);
    case Some(i) => JoinValid(st, st.index[KeyCandidates(row)[i]], row);
  }

  /** Append: a row none of whose keys is indexed adds exactly one record, at the end,
      with a fresh identifier; no key leaves the index and all the row's keys point at
      the new record. */
  lemma StepAppends(st: MergeState, row: Row)
    requires ValidState(st)
    requires FirstIndexed(KeyCandidates(row), st.index).None?
    ensures var r := Step(st, row);
      && r.merged == st.merged + [MergedRow(st.nextId, row)] && r.nextId == st.nextId + 1
      && (forall k :: k in st.index ==> k in r.index)
      && (forall k :: k in KeyCandidates(row) ==> r.index[k] == |st.merged|)
  {
    assert Step(st, row) == Append(st, row);
  }

  /** Join: a row with an indexed key changes only the record owning the first such key,
      filling its blanks, and hands out no identifier; no key leaves the index and all the
      record's keys point at it. */
  lemma StepJoins(st: MergeState, row: Row, i: nat)
    requires ValidState(st)
    requires FirstIndexed(KeyCandidates(row), st.index) == Some(i)
    ensures var p := st.index[KeyCandidates(row)[i]];
      var r := Step(st, row);
      && |r.merged| == |st.merged| && r.nextId == st.nextId
      && r.merged[p] == MergedRow(st.merged[p].id, Filled(st.merged[p].row, row))
      && (forall q :: 0 <= q < |st.merged| && q != p ==> r.merged[q] == st.merged[q])
      && (forall k :: k in st.index ==> k in r.index)
      && (forall k :: k in KeyCandidates(r.merged[p].row) ==> r.index[k] == p)
  {
    var p := st.index[KeyCandidates(row)[i]];
    assert Step(st, row) == Join(st, p, row);
    JoinChangesOnlyTarget(st, p, row);
  }

  lemma JoinChangesOnlyTarget(st: MergeState, p: nat, row: Row)
    requires p < |st.merged|
    ensures var r := Join(st, p, row);
      && |r.merged| == |st.merged| && r.nextId == st.nextId
      && r.merged[p] == MergedRow(st.merged[p].id, Filled(st.merged[p].row, row))
      && (forall q :: 0 <= q < |st.merged| && q != p ==> r.merged[q] == st.merged[q])
      && (forall k :: k in st.index ==> k in r.index)
      && (forall k :: k in KeyCandidates(r.merged[p].row) ==> r.index[k] == p)
  {
  }

  /** No key ever leaves the index, and each row adds at most one record. */
  lemma StepGrows(st: MergeState, row: Row)
    requires ValidState(st)
    ensures var r := Step(st, row);
      && (forall k :: k in st.index ==> k in r.index)
      && |st.merged| <= |r.merged| <= |st.merged| + 1
      && (forall q :: 0 <= q < |st.merged| ==> r.merged[q].id == st.merged[q].id)
  {
    match FirstIndexed(KeyCandidates(row), st.index)
    case None => StepAppends(st, row);
    case Some(i) => StepJoins(st, row, i);
  }

  /** The merge loop over a sequence of rows, in order. */
  function MergeAll(st: MergeState, rows: seq<Row>): (r: MergeState)
    ensures |st.merged| <= |r.merged| <= |st.merged| + |rows|
    ensures r.nextId == st.nextId + (|r.merged| - |st.merged|)
    decreases |rows|
  {
    if rows == [] then st
    else
      var n := |rows| - 1;
      Step(MergeAll(st, rows[..n]), rows[n])
  }

  /** The merge loop keeps the state valid. */
  lemma {:induction false} MergeAllValid(st: MergeState, rows: seq<Row>)
    requires ValidState(st)
    ensures ValidState(MergeAll(st, rows))
    decreases |rows|
  {
    if rows != [] {
      var n := |rows| - 1;
      MergeAllValid(st, rows[..n]);
      StepValid(MergeAll(st, rows[..n]), rows[n]);
    }
  }

  /** Merging never drops a record nor a key, and never changes an identifier; each row
      adds at most one record. */
  lemma {:induction false} MergeAllGrows(st: MergeState, rows: seq<Row>)
    requires ValidState(st)
    ensures var r := MergeAll(st, rows);
      && (forall k :: k in st.index ==> k in r.index)
      && |st.merged| <= |r.merged| <= |st.merged| + |rows|
      && (forall i :: 0 <= i < |st.merged| ==> r.merged[i].id == st.merged[i].id)
    decreases |rows|
  {
    if rows != [] {
      var n := |rows| - 1;
      MergeAllGrows(st, rows[..n]);
      MergeAllValid(st, rows[..n]);
      StepGrows(MergeAll(st, rows[..n]), rows[n]);
    }
  }

  /** One more row is one more step. */
  lemma MergeAllSnoc(st: MergeState, rows: seq<Row>, row: Row)
    ensures MergeAll(st, rows + [row]) == Step(MergeAll(st, rows), row)
  {
    var all := rows + [row];
    assert all[..|all| - 1] == rows && all[|all| - 1] == row;
  }

  /** Merging in two batches is merging the concatenation. */
  lemma {:induction false} MergeAllAppend(st: MergeState, a: seq<Row>, b: seq<Row>)
    ensures MergeAll(MergeAll(st, a), b) == MergeAll(st, a + b)
    decreases |b|
  {
    if b == [] {
      assert a + b == a;
    } else {
      var n := |b| - 1;
      var init := b[..n];
      assert b == init + [b[n]];
      assert a + b == (a + init) + [b[n]];
      MergeAllAppend(st, a, init);
      MergeAllSnoc(st, a + init, b[n]);
      MergeAllSnoc(MergeAll(st, a), init, b[n]);
    }
  }

  /** Every row of every file, in file order. */
  function AllRows(files: seq<ParsedFile>): (rows: seq<Row>)
    decreases |files|
  {
    if files == [] then [] else AllRows(files[..|files| - 1]) + files[|files| - 1].rows
  }

  /** The row shares a key with the index. */
  predicate Known(row: Row, index: map<string, nat>) {
    exists k :: k in KeyCandidates(row) && k in index
  }

  /** A key of the row is still indexed in any larger index. */
  lemma KnownInLarger(row: Row, small: map<string, nat>, large: map<string, nat>)
    requires Known(row, small)
    requires forall k :: k in small ==> k in large
    ensures Known(row, large)
  {
  }

  /** A row sharing a key with the index joins an existing record. */
  lemma KnownRowJoins(st: MergeState, row: Row)
    requires ValidState(st) && Known(row, st.index)
    ensures |Step(st, row).merged| == |st.merged|
  {
    var keys := KeyCandidates(row);
    var k :| k in keys && k in st.index;
    var i := FirstIndexed(keys, st.index);
    assert i.Some?;
    StepJoins(st, row, i.value);
  }

  /** Uploading rows that each share a key with what is already indexed adds no record:
      every such row joins an existing one. */
  lemma {:induction false} KnownRowsAddNoRecords(st: MergeState, rows: seq<Row>)
    requires ValidState(st)
    requires forall r :: r in rows ==> Known(r, st.index)
    ensures |MergeAll(st, rows).merged| == |st.merged|
    decreases |rows|
  {
    if rows != [] {
      var n := |rows| - 1;
      var init := rows[..n];
      assert forall r :: r in init ==> r in rows;
      KnownRowsAddNoRecords(st, init);
      var mid := MergeAll(st, init);
      MergeAllGrows(st, init);
      MergeAllValid(st, init);
      assert rows[n] in rows;
      KnownInLarger(rows[n], st.index, mid.index);
      KnownRowJoins(mid, rows[n]);
    }
  }

  /** After its step, a row with at least one key shares a key with the index: it was
      indexed already, or it was appended under all its keys. */
  lemma StepKnowsRow(st: MergeState, row: Row)
    requires ValidState(st) && KeyCandidates(row) != []
    ensures Known(row, Step(st, row).index)
  {
    var keys := KeyCandidates(row);
    match FirstIndexed(keys, st.index)
    case None =>
      StepAppends(st, row);
      assert keys[0] in Step(st, row).index;
    case Some(i) =>
      StepGrows(st, row);
      assert keys[i] in Step(st, row).index;
  }

  /** After a merge, every merged row that has a key shares one with the index. */
  lemma {:induction false} MergedRowsAreKnown(st: MergeState, rows: seq<Row>)
    requires ValidState(st)
    ensures forall r :: r in rows && KeyCandidates(r) != [] ==> Known(r, MergeAll(st, rows).index)
    decreases |rows|
  {
    if rows != [] {
      var n := |rows| - 1;
      var init := rows[..n];
      MergedRowsAreKnown(st, init);
      var mid := MergeAll(st, init);
      MergeAllValid(st, init);
      StepGrows(mid, rows[n]);
      forall r | r in rows && KeyCandidates(r) != []
        ensures Known(r, MergeAll(st, rows).index)
      {
        if r == rows[n] {
          StepKnowsRow(mid, r);
        } else {
          assert r in init by {
            var j :| 0 <= j < |rows| && rows[j] == r;
            assert init[j] == r;
          }
          KnownInLarger(r, mid.index, MergeAll(st, rows).index);
        }
      }
    }
  }

  /** Uploading the same rows a second time adds no record when each of them has a key. */
  lemma ReuploadAddsNothing(st: MergeState, rows: seq<Row>)
    requires ValidState(st)
    requires forall r :: r in rows ==> KeyCandidates(r) != []
    ensures |MergeAll(MergeAll(st, rows), rows).merged| == |MergeAll(st, rows).merged|
  {
    MergeAllValid(st, rows);
    MergedRowsAreKnown(st, rows);
    KnownRowsAddNoRecords(MergeAll(st, rows), rows);
  }

  /** A row none of whose keys is indexed becomes a new record at the end of the list. */
  lemma NewRowAppended(st: MergeState, row: Row)
    requires ValidState(st)
    requires forall k :: k in KeyCandidates(row) ==> k !in st.index
    ensures Step(st, row).merged == st.merged + [MergedRow(st.nextId, row)]
  {
  }

  // ---------------------------------------------------------------------------------------
  // The loops of the source.

  /** `keyCandidates(record).forEach((k) => index.set(k, record))`. */
  method IndexAll(index: map<string, nat>, keys: seq<string>, p: nat) returns (r: map<string, nat>)
    ensures r == Register(index, keys, p)
  {
    r := index;
    for i := 0 to |keys|
      invariant r == Register(index, keys[..i], p)
    {
      assert keys[..i + 1][..i] == keys[..i];
      r := r[keys[i] := p];
    }
    assert keys[..|keys|] == keys;
  }

  /** A row is determined by its eight fields. */
  lemma RowByFields(a: Row, b: Row)
    requires forall j :: 0 <= j < |MERGE_FIELDS| ==> Get(a, MERGE_FIELDS[j]) == Get(b, MERGE_FIELDS[j])
    requires a.insuranceNumber == b.insuranceNumber
    ensures a == b
  {
    assert Get(a, MERGE_FIELDS[0]) == Get(b, MERGE_FIELDS[0]);
    assert Get(a, MERGE_FIELDS[1]) == Get(b, MERGE_FIELDS[1]);
    assert Get(a, MERGE_FIELDS[2]) == Get(b, MERGE_FIELDS[2]);
    assert Get(a, MERGE_FIELDS[3]) == Get(b, MERGE_FIELDS[3]);
    assert Get(a, MERGE_FIELDS[4]) == Get(b, MERGE_FIELDS[4]);
    assert Get(a, MERGE_FIELDS[5]) == Get(b, MERGE_FIELDS[5]);
    assert Get(a, MERGE_FIELDS[6]) == Get(b, MERGE_FIELDS[6]);
  }

  /** The merge fields are pairwise distinct. */
  lemma MergeFieldsDistinct()
    ensures forall a, b :: 0 <= a < b < |MERGE_FIELDS| ==> MERGE_FIELDS[a] != MERGE_FIELDS[b]
  {
    assert forall a, b :: 0 <= a < b < |MERGE_FIELDS| ==> Rank(MERGE_FIELDS[a]) < Rank(MERGE_FIELDS[b]);
  }

  /** The fill-blanks loop over `REQUIRED_FIELDS.concat([...])` (lines 529-535). */
  method FillBlanks(existing: Row, incoming: Row) returns (r: Row)
    ensures r == Filled(existing, incoming)
  {
    r := existing;
    for i := 0 to |MERGE_FIELDS|
      invariant forall j :: 0 <= j < i ==> Get(r, MERGE_FIELDS[j]) == FillField(Get(existing, MERGE_FIELDS[j]), Get(incoming, MERGE_FIELDS[j]))
      invariant forall j :: i <= j < |MERGE_FIELDS| ==> Get(r, MERGE_FIELDS[j]) == Get(existing, MERGE_FIELDS[j])
      invariant r.insuranceNumber == existing.insuranceNumber
    {
      var f := MERGE_FIELDS[i];
      MergeFieldsDistinct();
      if Get(r, f) == "" && Get(incoming, f) != "" {
        r := Set(r, f, Get(incoming, f));
      }
      assert Get(r, f) == FillField(Get(existing, f), Get(incoming, f));
    }
    FilledByFields(existing, incoming, r);
  }

  /** A row that agrees with the filled record on each merge field and keeps the insurance
      number is that record. */
  lemma FilledByFields(existing: Row, incoming: Row, r: Row)
    requires forall j :: 0 <= j < |MERGE_FIELDS| ==>
      Get(r, MERGE_FIELDS[j]) == FillField(Get(existing, MERGE_FIELDS[j]), Get(incoming, MERGE_FIELDS[j]))
    requires r.insuranceNumber == existing.insuranceNumber
    ensures r == Filled(existing, incoming)
  {
    var want := Filled(existing, incoming);
    FilledOnlyFillsBlanks(existing, incoming);
    assert forall j :: 0 <= j < |MERGE_FIELDS| ==> Get(want, MERGE_FIELDS[j]) == FillField(Get(existing, MERGE_FIELDS[j]), Get(incoming, MERGE_FIELDS[j]));
    RowByFields(r, want);
  }

  /** The search for an existing record (lines 504-513). */
  method FindIndexed(keys: seq<string>, index: map<string, nat>) returns (found: Option<nat>)
    ensures found == FirstIndexed(keys, index)
  {
    found := None;
    for i := 0 to |keys|
      invariant forall j :: 0 <= j < i ==> keys[j] !in index
    {
      if keys[i] in index {
        found := Some(i);
        return;
      }
    }
  }

  /** One row of the merge loop, as the source runs it. */
  method MergeRow(st: MergeState, row: Row) returns (r: MergeState)
    requires ValidState(st)
    ensures r == Step(st, row)
  {
    var keys := KeyCandidates(row);
    var found := FindIndexed(keys, st.index);
    if found.None? {
      var index := IndexAll(st.index, keys, |st.merged|);
      r := MergeState(st.merged + [MergedRow(st.nextId, row)], index, st.nextId + 1);
      assert r == Append(st, row);
    } else {
      var existingKey := keys[found.value];
      var p := st.index[existingKey];
      var e := st.merged[p];
      var filled := FillBlanks(e.row, row);
      var index := IndexAll(st.index, KeyCandidates(filled), p);
      // Lines 541-543: the key that matched is still indexed, so this never fires.
      if existingKey !in index {
        index := index[existingKey := p];
      }
      r := MergeState(st.merged[p := MergedRow(e.id, filled)], index, st.nextId);
      assert r == Join(st, p, row);
    }
  }

  /** The inner loop of lines 500-547: the rows of one file merged in turn. */
  method MergeRows(st: MergeState, rows: seq<Row>) returns (r: MergeState)
    requires ValidState(st)
    ensures r == MergeAll(st, rows)
  {
    r := st;
    for j := 0 to |rows|
      invariant r == MergeAll(st, rows[..j])
      invariant ValidState(r)
    {
      assert rows[..j + 1][..j] == rows[..j];
      StepValid(r, rows[j]);
      r := MergeRow(r, rows[j]);
    }
    assert rows[..|rows|] == rows;
  }

  /** Lines 500-547: every row of every file merged in turn, starting from an empty list
      and index and the given fresh identifier. */
  method MergeFiles(files: seq<ParsedFile>, firstId: nat) returns (r: MergeState)
    ensures r == MergeAll(MergeState([], map[], firstId), AllRows(files))
  {
    var start := MergeState([], map[], firstId);
    r := start;
    for i := 0 to |files|
      invariant r == MergeAll(start, AllRows(files[..i]))
      invariant ValidState(r)
    {
      MergeAllValid(r, files[i].rows);
      assert files[..i + 1][..i] == files[..i];
      MergeAllAppend(start, AllRows(files[..i]), files[i].rows);
      r := MergeRows(r, files[i].rows);
    }
    assert files[..|files|] == files;
  }

  // ---------------------------------------------------------------------------------------
  // Dedup (lines 549-558).

  /** The dedup keys of a list of records. */
  function DedupKeys(rows: seq<MergedRow>): set<string> {
    set r | r in rows :: DedupKey(r.row)
  }

  /** The first record of each dedup key, in order. */
  function KeepFirst(rows: seq<MergedRow>): (kept: seq<MergedRow>)
    ensures |kept| <= |rows|
    decreases |rows|
  {
    if rows == [] then []
    else
      var n := |rows| - 1;
      var init := rows[..n];
      KeepFirst(init) + (if DedupKey(rows[n].row) in DedupKeys(init) then [] else [rows[n]])
  }

  /** The kept records have pairwise distinct keys, and between them all the keys of the
      list. */
  lemma {:induction false} KeepFirstKeys(rows: seq<MergedRow>)
    ensures DedupKeys(KeepFirst(rows)) == DedupKeys(rows)
    ensures forall i, j :: 0 <= i < j < |KeepFirst(rows)| ==>
      DedupKey(KeepFirst(rows)[i].row) != DedupKey(KeepFirst(rows)[j].row)
    decreases |rows|
  {
    if rows != [] {
      var n := |rows| - 1;
      var init := rows[..n];
      var last := rows[n];
      KeepFirstKeys(init);
      var kept := KeepFirst(init);
      assert DedupKeys(rows) == DedupKeys(init) + {DedupKey(last.row)} by {
        assert rows == init + [last];
      }
      if DedupKey(last.row) !in DedupKeys(init) {
        var all := kept + [last];
        assert DedupKeys(all) == DedupKeys(kept) + {DedupKey(last.row)};
        forall i | 0 <= i < |kept| ensures DedupKey(all[i].row) != DedupKey(last.row) {
          assert all[i] in kept;
        }
      }
    }
  }

  /** A record whose key no earlier record has is kept. */
  lemma {:induction false} KeepFirstKeepsFirst(rows: seq<MergedRow>, i: nat)
    requires i < |rows|
    requires forall j :: 0 <= j < i ==> DedupKey(rows[j].row) != DedupKey(rows[i].row)
    ensures rows[i] in KeepFirst(rows)
    decreases |rows|
  {
    var n := |rows| - 1;
    var init := rows[..n];
    if i < n {
      assert init[i] == rows[i];
      KeepFirstKeepsFirst(init, i);
    } else {
      assert DedupKey(rows[n].row) !in DedupKeys(init);
    }
  }

  /** `a` is `b` with some elements left out, in the same order. */
  ghost predicate IsSubsequence<T>(a: seq<T>, b: seq<T>)
    decreases |b|
  {
    if a == [] then true
    else if b == [] then false
    else if a[|a| - 1] == b[|b| - 1] then IsSubsequence(a[..|a| - 1], b[..|b| - 1])
    else IsSubsequence(a, b[..|b| - 1])
  }

  /** Dropping the later duplicates keeps the order of the merged list. */
  lemma {:induction false} KeepFirstIsSubsequence(rows: seq<MergedRow>)
    ensures IsSubsequence(KeepFirst(rows), rows)
    decreases |rows|
  {
    if rows != [] {
      var n := |rows| - 1;
      var init := rows[..n];
      KeepFirstIsSubsequence(init);
      var kept := KeepFirst(init);
      assert rows == init + [rows[n]];
      if DedupKey(rows[n].row) in DedupKeys(init) {
        assert KeepFirst(rows) == kept;
        SubsequenceOfLonger(kept, init, rows[n]);
      } else {
        var all := kept + [rows[n]];
        assert KeepFirst(rows) == all;
        assert all[..|all| - 1] == kept;
        assert rows[..|rows| - 1] == init;
      }
    }
  }

  lemma {:induction false} SubsequenceOfLonger<T>(a: seq<T>, b: seq<T>, x: T)
    requires IsSubsequence(a, b)
    ensures IsSubsequence(a, b + [x])
    decreases |b|, 1
  {
    var bx := b + [x];
    assert bx[..|bx| - 1] == b;
    if a != [] && a[|a| - 1] == x {
      SubsequenceDropLast(a, b);
    }
  }

  /** A subsequence without its last element is still a subsequence. */
  lemma {:induction false} SubsequenceDropLast<T>(a: seq<T>, b: seq<T>)
    requires a != [] && IsSubsequence(a, b)
    ensures IsSubsequence(a[..|a| - 1], b)
    decreases |b|, 0
  {
    var a' := a[..|a| - 1];
    if a' != [] {
      var b' := b[..|b| - 1];
      assert b' + [b[|b| - 1]] == b;
      if a[|a| - 1] == b[|b| - 1] {
        SubsequenceOfLonger(a', b', b[|b| - 1]);
      } else {
        SubsequenceDropLast(a, b');
        SubsequenceOfLonger(a', b', b[|b| - 1]);
      }
    }
  }

  /** The dedup loop with its `seen` set. */
  method Deduplicate(merged: seq<MergedRow>) returns (unique: seq<MergedRow>)
    ensures unique == KeepFirst(merged)
  {
    unique := [];
    var seen: set<string> := {};
    for i := 0 to |merged|
      invariant seen == DedupKeys(merged[..i])
      invariant unique == KeepFirst(merged[..i])
    {
      var prefix := merged[..i + 1];
      assert prefix[..i] == merged[..i];
      assert prefix == merged[..i] + [merged[i]];
      var key := DedupKey(merged[i].row);
      if key !in seen {
        seen := seen + {key};
        unique := unique + [merged[i]];
      }
      assert DedupKeys(prefix) == DedupKeys(merged[..i]) + {key};
    }
    assert merged[..|merged|] == merged;
  }
}
