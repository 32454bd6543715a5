/** What `confirmAndSave` (Dashboard.jsx, lines 883-972) decides and sends: the order of its
    guards and the appointment rows it builds from the complete records. */
module Commit {
  import opened Options
  import opened JsText
  import opened Records

  /** `s || null` on a string. */
  function OrNull(s: string): (r: Option<string>)
    ensures r.Some? <==> s != ""
    ensures r.Some? ==> r.value == s
  {
    if s == "" then None else Some(s)
  }

  /** The time with the leading run of non-digits removed (a replace of `^[^\d]*` by
      nothing). */
  function StripLeadingNonDigits(s: string): string
    decreases |s|
  {
    if s == [] || IsDigit(s[0]) then s else StripLeadingNonDigits(s[1..])
  }

  /** The result is a suffix of the input that is empty or starts with a digit, and nothing
      before it is a digit; stripping twice is stripping once. */
  lemma {:induction false} StripLeadingNonDigitsFacts(s: string)
    ensures var r := StripLeadingNonDigits(s);
      && |r| <= |s| && r == s[|s| - |r|..]
      && (r != [] ==> IsDigit(r[0]))
      && (forall i :: 0 <= i < |s| - |r| ==> !IsDigit(s[i]))
      && StripLeadingNonDigits(r) == r
    decreases |s|
  {
    if s != [] && !IsDigit(s[0]) {
      StripLeadingNonDigitsFacts(s[1..]);
    }
  }

  /** `/^\d{1,2}:\d{2}/.test(t)`: one or two digits, a colon, two digits, at the start. */
  predicate HasClockPrefix(t: string) {
    || (|t| >= 4 && IsDigit(t[0]) && t[1] == ':' && IsDigit(t[2]) && IsDigit(t[3]))
    || (|t| >= 5 && IsDigit(t[0]) && IsDigit(t[1]) && t[2] == ':' && IsDigit(t[3]) && IsDigit(t[4]))
  }

  const DEFAULT_TIME := "09:00 AM"

  /** The time written after the day: the stored time without its leading junk when that
      reads as a clock time, otherwise nine in the morning (lines 910-925). */
  function PayloadTime(time: string): string {
    var stripped := StripLeadingNonDigits(time);
    if time == "" || stripped == "" || !HasClockPrefix(stripped) then DEFAULT_TIME else stripped
  }

  /** The time part always reads as a clock time, and a clock time already present (after
      its leading junk) is kept as it is. */
  lemma PayloadTimeIsClock(time: string)
    ensures HasClockPrefix(PayloadTime(time))
    ensures HasClockPrefix(StripLeadingNonDigits(time)) ==> PayloadTime(time) == StripLeadingNonDigits(time)
    ensures !HasClockPrefix(StripLeadingNonDigits(time)) ==> PayloadTime(time) == DEFAULT_TIME
  {
    assert DEFAULT_TIME[0] == '0' && DEFAULT_TIME[2] == ':';
    if time == "" {
      assert StripLeadingNonDigits(time) == "";
    }
  }

  /** One row of the insert. */
  datatype Appointment = Appointment(
    clinicId: string,
    patientName: Option<string>,
    phone: Option<string>,
    doctorName: Option<string>,
    appointmentDay: Option<string>,
    appointmentTime: Option<string>,
    summary: Option<string>,
    status: string)

  /** Lines 909-944 for one complete record. */
  function AppointmentOf(clinicId: string, r: Row): (a: Appointment)
    ensures a.status == "pending" && a.clinicId == clinicId
    ensures a.appointmentDay == OrNull(r.appointmentDay)
    ensures a.summary == OrNull(r.appointmentReason)
  {
    var day := OrNull(r.appointmentDay);
    var stamp := if day.Some? then Some(r.appointmentDay + " " + PayloadTime(r.appointmentTime)) else None;
    Appointment(clinicId, OrNull(r.patientName), OrNull(r.phone), OrNull(r.doctorName),
                day, stamp, OrNull(r.appointmentReason), "pending")
  }

  /** A timestamp is sent exactly when the record has a day, and it is that day, a space
      and a clock time. */
  lemma AppointmentTimestamp(clinicId: string, r: Row)
    ensures var a := AppointmentOf(clinicId, r);
      && (a.appointmentTime.Some? <==> r.appointmentDay != "")
      && (a.appointmentTime.Some? ==>
            exists t :: HasClockPrefix(t) && a.appointmentTime.value == r.appointmentDay + " " + t)
  {
    PayloadTimeIsClock(r.appointmentTime);
    if r.appointmentDay != "" {
      var t := PayloadTime(r.appointmentTime);
      assert AppointmentOf(clinicId, r).appointmentTime.value == r.appointmentDay + " " + t;
    }
  }

  /** A complete record keeps its name, phone, reason and day in the insert. */
  lemma CompleteRowKeepsRequired(clinicId: string, r: Row)
    requires IsComplete(r)
    ensures var a := AppointmentOf(clinicId, r);
      && a.patientName == Some(r.patientName) && a.phone == Some(r.phone)
      && a.summary == Some(r.appointmentReason) && a.appointmentDay == Some(r.appointmentDay)
      && a.appointmentTime.Some?
  {
    RowMissingFieldsFacts(r);
    assert r.patientName != "" by { assert !IsMissing(r, PatientName); }
    assert r.phone != "" by { assert !IsMissing(r, Phone); }
    assert r.appointmentReason != "" by { assert !IsMissing(r, AppointmentReason); }
    assert r.appointmentDay != "" by { assert !IsMissing(r, AppointmentDay); }
  }

  /** `completeRows.map(...)`. */
  function Payload(clinicId: string, complete: seq<MergedRow>): (p: seq<Appointment>)
    ensures |p| == |complete|
    ensures forall i :: 0 <= i < |p| ==> p[i] == AppointmentOf(clinicId, complete[i].row)
  {
    seq(|complete|, i requires 0 <= i < |complete| => AppointmentOf(clinicId, complete[i].row))
  }

  const NO_COMPLETE_MESSAGE := "All rows are missing required fields. Fix them before saving."
  const MERGE_ERROR_MESSAGE := "Fix merge error before saving."

  /** What pressing save leads to. */
  datatype SaveDecision =
    | NothingToSave                  // no merged rows: return silently
    | Refused(message: string)       // an alert, nothing saved
    | Declined                       // the user cancelled the confirmation
    | Insert(payload: seq<Appointment>)

  /** The guards of lines 884-904 in their order, then the payload. `confirmed` is the
      user's answer to the dialog, asked only when some rows are incomplete. */
  function DecideSave(clinicId: string, merged: seq<MergedRow>, complete: seq<MergedRow>,
                      incompleteCount: nat, mergeError: string, confirmed: bool): SaveDecision
  {
    if merged == [] then NothingToSave
    else if complete == [] then Refused(NO_COMPLETE_MESSAGE)
    else if incompleteCount > 0 && !confirmed then Declined
    else if mergeError != "" then Refused(MERGE_ERROR_MESSAGE)
    else Insert(Payload(clinicId, complete))
  }

  /** Rows are inserted exactly when there are merged rows, some complete ones, no merge
      error, and the user agreed to leave the incomplete ones behind (or there are none);
      only the complete rows are sent, all pending. */
  lemma InsertIffGuardsPass(clinicId: string, merged: seq<MergedRow>, complete: seq<MergedRow>,
                            incompleteCount: nat, mergeError: string, confirmed: bool)
    ensures var d := DecideSave(clinicId, merged, complete, incompleteCount, mergeError, confirmed);
      && (d.Insert? <==>
            merged != [] && complete != [] && (incompleteCount == 0 || confirmed) && mergeError == "")
      && (d.Insert? ==>
            (|d.payload| == |complete| && forall i :: 0 <= i < |d.payload| ==> d.payload[i].status == "pending"))
  {
  }

  /** A merge error is reported only after the confirmation: a user who declines never sees
      it. */
  lemma DeclineComesBeforeMergeError(clinicId: string, merged: seq<MergedRow>, complete: seq<MergedRow>,
                                     incompleteCount: nat, mergeError: string)
    requires merged != [] && complete != [] && incompleteCount > 0
    ensures DecideSave(clinicId, merged, complete, incompleteCount, mergeError, false) == Declined
  {
  }
}
