/** The validation half of `recomputeMergeState` (Dashboard.jsx, lines 560-607): the
    required fields missing anywhere, the single-date rule, and the split into complete
    rows and rows to fix. */
module Validation {
  import opened JsText
  import opened Records

  /** No element occurs twice. */
  predicate NoDuplicates<T(==)>(s: seq<T>) {
    forall i, j :: 0 <= i < j < |s| ==> s[i] != s[j]
  }

  // ---------------------------------------------------------------------------------------
  // Missing fields overall (lines 561-566).

  /** `fs.forEach(f => set.add(f))` on a set kept in insertion order. */
  function AddAll(acc: seq<Field>, fs: seq<Field>): seq<Field>
    decreases |fs|
  {
    if fs == [] then acc
    else
      var a := AddAll(acc, fs[..|fs| - 1]);
      var f := fs[|fs| - 1];
      if f in a then a else a + [f]
  }

  lemma {:induction false} AddAllFacts(acc: seq<Field>, fs: seq<Field>)
    requires NoDuplicates(acc)
    ensures NoDuplicates(AddAll(acc, fs))
    ensures forall f :: f in AddAll(acc, fs) <==> f in acc || f in fs
    decreases |fs|
  {
    if fs != [] {
      var init := fs[..|fs| - 1];
      AddAllFacts(acc, init);
      assert fs == init + [fs[|fs| - 1]];
    }
  }

  /** `missingOverall` as `Array.from` lists it: the missing required fields of each record,
      each field once, in the order they were first met. */
  function MissingUnion(rows: seq<MergedRow>): seq<Field>
    decreases |rows|
  {
    if rows == [] then []
    else AddAll(MissingUnion(rows[..|rows| - 1]), RowMissingFields(rows[|rows| - 1].row))
  }

  /** A field is listed exactly when some record misses it, and it is listed once. */
  lemma {:induction false} MissingUnionMembers(rows: seq<MergedRow>)
    ensures NoDuplicates(MissingUnion(rows))
    ensures forall f :: f in MissingUnion(rows) <==>
      f in REQUIRED_FIELDS && exists r :: r in rows && IsMissing(r.row, f)
    decreases |rows|
  {
    if rows != [] {
      var init := rows[..|rows| - 1];
      var last := rows[|rows| - 1];
      MissingUnionMembers(init);
      AddAllFacts(MissingUnion(init), RowMissingFields(last.row));
      RowMissingFieldsFacts(last.row);
      assert rows == init + [last];
    }
  }

  /** No required field is missing overall exactly when every record is complete. */
  lemma MissingUnionEmpty(rows: seq<MergedRow>)
    ensures MissingUnion(rows) == [] <==> forall r :: r in rows ==> IsComplete(r.row)
  {
    MissingUnionMembers(rows);
    if MissingUnion(rows) == [] {
      forall r | r in rows ensures IsComplete(r.row) {
        RowMissingFieldsFacts(r.row);
        assert forall f :: f !in RowMissingFields(r.row);
      }
    } else {
      var f := MissingUnion(rows)[0];
      assert f in MissingUnion(rows);
      var r :| r in rows && IsMissing(r.row, f);
      RowMissingFieldsFacts(r.row);
      assert f in RowMissingFields(r.row);
    }
  }

  /** The loops of lines 561-566. */
  method CollectMissing(unique: seq<MergedRow>) returns (missing: seq<Field>)
    ensures missing == MissingUnion(unique)
  {
    missing := [];
    for i := 0 to |unique|
      invariant missing == MissingUnion(unique[..i])
    {
      assert unique[..i + 1][..i] == unique[..i];
      var fs := RowMissingFields(unique[i].row);
      ghost var before := missing;
      for j := 0 to |fs|
        invariant missing == AddAll(before, fs[..j])
      {
        assert fs[..j + 1][..j] == fs[..j];
        if fs[j] !in missing {
          missing := missing + [fs[j]];
        }
      }
      assert fs[..|fs|] == fs;
    }
    assert unique[..|unique|] == unique;
  }

  // ---------------------------------------------------------------------------------------
  // The single-date rule (lines 569-582).

  /** `Array.from(new Set(unique.map(r => r.appointment_day).filter(Boolean)))`. */
  function DistinctDays(rows: seq<MergedRow>): (days: seq<string>)
    ensures |days| <= |rows|
    decreases |rows|
  {
    if rows == [] then []
    else
      var ds := DistinctDays(rows[..|rows| - 1]);
      var d := rows[|rows| - 1].row.appointmentDay;
      if d == "" || d in ds then ds else ds + [d]
  }

  /** The list holds each non-empty day of the records, once. */
  lemma {:induction false} DistinctDaysMembers(rows: seq<MergedRow>)
    ensures NoDuplicates(DistinctDays(rows))
    ensures forall d :: d in DistinctDays(rows) <==>
      d != "" && exists r :: r in rows && r.row.appointmentDay == d
    decreases |rows|
  {
    if rows != [] {
      var init := rows[..|rows| - 1];
      DistinctDaysMembers(init);
      assert rows == init + [rows[|rows| - 1]];
    }
  }

  /** At most one day is listed exactly when all records that name a day name the same
      one: the upload is rejected precisely when two records disagree on the date. */
  lemma SingleDayIffAgree(rows: seq<MergedRow>)
    ensures |DistinctDays(rows)| <= 1 <==>
      forall r, s :: r in rows && s in rows && r.row.appointmentDay != "" && s.row.appointmentDay != "" ==>
        r.row.appointmentDay == s.row.appointmentDay
  {
    DistinctDaysMembers(rows);
    var ds := DistinctDays(rows);
    if |ds| > 1 {
      assert ds[0] in ds && ds[1] in ds && ds[0] != ds[1];
      var r :| r in rows && r.row.appointmentDay == ds[0];
      var s :| s in rows && s.row.appointmentDay == ds[1];
    } else {
      forall r, s | r in rows && s in rows && r.row.appointmentDay != "" && s.row.appointmentDay != ""
        ensures r.row.appointmentDay == s.row.appointmentDay
      {
        assert r.row.appointmentDay in ds && s.row.appointmentDay in ds;
      }
    }
  }

  /** The loop behind lines 569-571. */
  method CollectDays(unique: seq<MergedRow>) returns (days: seq<string>)
    ensures days == DistinctDays(unique)
  {
    days := [];
    for i := 0 to |unique|
      invariant days == DistinctDays(unique[..i])
    {
      assert unique[..i + 1][..i] == unique[..i];
      var d := unique[i].row.appointmentDay;
      if d != "" && d !in days {
        days := days + [d];
      }
    }
    assert unique[..|unique|] == unique;
  }

  const CONFLICT_PREFIX := "Multiple appointment dates detected: "
  const CONFLICT_SUFFIX := ". Please upload files containing ONLY ONE date."

  /** The error shown when the records name more than one date. */
  function ConflictMessage(days: seq<string>): string {
    CONFLICT_PREFIX + Join(days, ", ") + CONFLICT_SUFFIX
  }

  /** `s` occurs inside `a + s + b`. */
  lemma {:induction false} ContainsInfix(a: string, s: string, b: string)
    ensures Contains(a + s + b, s)
    decreases |a|
  {
    var whole := a + s + b;
    if a == [] {
      assert whole[..|s|] == s;
    } else {
      assert whole[1..] == a[1..] + s + b;
      ContainsInfix(a[1..], s, b);
    }
  }

  /** Each part of a join sits between a prefix and a suffix of it. */
  lemma {:induction false} JoinHasPart(parts: seq<string>, sep: string, i: nat)
    requires i < |parts|
    ensures exists pre, post :: Join(parts, sep) == pre + parts[i] + post
    decreases |parts|
  {
    if |parts| == 1 {
      assert Join(parts, sep) == [] + parts[0] + [];
    } else if i == 0 {
      assert Join(parts, sep) == [] + parts[0] + (sep + Join(parts[1..], sep));
    } else {
      JoinHasPart(parts[1..], sep, i - 1);
      var pre, post :| Join(parts[1..], sep) == pre + parts[1..][i - 1] + post;
      assert Join(parts, sep) == (parts[0] + sep + pre) + parts[i] + post;
    }
  }

  /** The message names every conflicting day. */
  lemma ConflictMessageNamesDays(days: seq<string>)
    ensures forall i :: 0 <= i < |days| ==> Contains(ConflictMessage(days), days[i])
  {
    forall i | 0 <= i < |days| ensures Contains(ConflictMessage(days), days[i]) {
      JoinHasPart(days, ", ", i);
      var pre, post :| Join(days, ", ") == pre + days[i] + post;
      assert ConflictMessage(days) == (CONFLICT_PREFIX + pre) + days[i] + (post + CONFLICT_SUFFIX);
      ContainsInfix(CONFLICT_PREFIX + pre, days[i], post + CONFLICT_SUFFIX);
    }
  }

  // ---------------------------------------------------------------------------------------
  // Complete and incomplete rows (lines 588-601).

  /** `{ ...row, missing, _id: row.id }`: a record still to be fixed and the required fields
      it lacks. */
  datatype IncompleteRow = IncompleteRow(record: MergedRow, missing: seq<Field>)

  /** The records with no missing required field, in order. */
  function CompleteRows(rows: seq<MergedRow>): (complete: seq<MergedRow>)
    ensures |complete| <= |rows|
    decreases |rows|
  {
    if rows == [] then []
    else
      var r := rows[|rows| - 1];
      CompleteRows(rows[..|rows| - 1]) + (if IsComplete(r.row) then [r] else [])
  }

  /** The other records, each with its missing fields, in order. */
  function IncompleteRows(rows: seq<MergedRow>): (incomplete: seq<IncompleteRow>)
    ensures |incomplete| <= |rows|
    decreases |rows|
  {
    if rows == [] then []
    else
      var r := rows[|rows| - 1];
      IncompleteRows(rows[..|rows| - 1])
        + (if IsComplete(r.row) then [] else [IncompleteRow(r, RowMissingFields(r.row))])
  }

  /** Every record lands in exactly one of the two lists: complete records in the first,
      the others in the second with their missing fields. */
  lemma {:induction false} PartitionFacts(rows: seq<MergedRow>)
    ensures |CompleteRows(rows)| + |IncompleteRows(rows)| == |rows|
    ensures forall r :: r in CompleteRows(rows) <==> r in rows && IsComplete(r.row)
    ensures forall e :: e in IncompleteRows(rows) <==>
      e.record in rows && !IsComplete(e.record.row) && e.missing == RowMissingFields(e.record.row)
    decreases |rows|
  {
    if rows != [] {
      var init := rows[..|rows| - 1];
      PartitionFacts(init);
      assert rows == init + [rows[|rows| - 1]];
    }
  }

  /** No record needs fixing exactly when no field is missing overall; this is why the
      upload moves to the preview step (3) exactly when the list of rows to fix is empty. */
  lemma ReadyIffNothingToFix(rows: seq<MergedRow>)
    ensures MissingUnion(rows) == [] <==> IncompleteRows(rows) == []
  {
    MissingUnionEmpty(rows);
    NothingToFixIffComplete(rows);
  }

  lemma {:induction false} NothingToFixIffComplete(rows: seq<MergedRow>)
    ensures IncompleteRows(rows) == [] <==> forall r :: r in rows ==> IsComplete(r.row)
    decreases |rows|
  {
    if rows != [] {
      var init := rows[..|rows| - 1];
      NothingToFixIffComplete(init);
      assert rows == init + [rows[|rows| - 1]];
    }
  }

  /** The loop of lines 588-597. */
  method PartitionRows(unique: seq<MergedRow>) returns (incomplete: seq<IncompleteRow>, complete: seq<MergedRow>)
    ensures incomplete == IncompleteRows(unique)
    ensures complete == CompleteRows(unique)
  {
    incomplete := [];
    complete := [];
    for i := 0 to |unique|
      invariant incomplete == IncompleteRows(unique[..i])
      invariant complete == CompleteRows(unique[..i])
    {
      assert unique[..i + 1][..i] == unique[..i];
      var missing := RowMissingFields(unique[i].row);
      if |missing| > 0 {
        incomplete := incomplete + [IncompleteRow(unique[i], missing)];
      } else {
        complete := complete + [unique[i]];
      }
    }
    assert unique[..|unique|] == unique;
  }

  /** The loop of `saveFixedRow` (lines 815-831): one pass that splits the records and
      collects the missing fields from the incomplete ones only, which gives the same union
      as the pass over every record. */
  method Revalidate(rows: seq<MergedRow>)
    returns (incomplete: seq<IncompleteRow>, complete: seq<MergedRow>, missing: seq<Field>)
    ensures incomplete == IncompleteRows(rows)
    ensures complete == CompleteRows(rows)
    ensures missing == MissingUnion(rows)
  {
    incomplete := [];
    complete := [];
    missing := [];
    for i := 0 to |rows|
      invariant incomplete == IncompleteRows(rows[..i])
      invariant complete == CompleteRows(rows[..i])
      invariant missing == MissingUnion(rows[..i])
    {
      assert rows[..i + 1][..i] == rows[..i];
      var fs := RowMissingFields(rows[i].row);
      if |fs| == 0 {
        complete := complete + [rows[i]];
      } else {
        incomplete := incomplete + [IncompleteRow(rows[i], fs)];
        ghost var before := missing;
        for j := 0 to |fs|
          invariant missing == AddAll(before, fs[..j])
        {
          assert fs[..j + 1][..j] == fs[..j];
          if fs[j] !in missing {
            missing := missing + [fs[j]];
          }
        }
        assert fs[..|fs|] == fs;
      }
    }
    assert rows[..|rows|] == rows;
  }
}
