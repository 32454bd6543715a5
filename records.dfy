/** The canonical appointment record of the smart upload (Dashboard.jsx, lines 91-100 and
    520-523), its required fields (lines 375-385) and its merge keys (lines 343-351). */
module Records {
  import opened JsText
  import opened Normalise

  /** The eight canonical fields, in the order the source declares them. */
  datatype Field =
    | PatientName | Phone | AppointmentReason | AppointmentDay
    | AppointmentTime | DoctorName | HealthNumber | InsuranceNumber

  /** The property name the source uses for each field. */
  function FieldName(f: Field): string {
    match f
    case PatientName => "patient_name"
    case Phone => "phone"
    case AppointmentReason => "appointment_reason"
    case AppointmentDay => "appointment_day"
    case AppointmentTime => "appointment_time"
    case DoctorName => "doctor_name"
    case HealthNumber => "health_number"
    case InsuranceNumber => "insurance_number"
  }

  /** Position of a field in declaration order. */
  function Rank(f: Field): nat {
    match f
    case PatientName => 0
    case Phone => 1
    case AppointmentReason => 2
    case AppointmentDay => 3
    case AppointmentTime => 4
    case DoctorName => 5
    case HealthNumber => 6
    case InsuranceNumber => 7
  }

  /** One canonical row, as `mapRowToCanonical` returns it. */
  datatype Row = Row(
    patientName: string,
    phone: string,
    appointmentReason: string,
    appointmentDay: string,
    appointmentTime: string,
    doctorName: string,
    healthNumber: string,
    insuranceNumber: string)

  const EMPTY_ROW := Row("", "", "", "", "", "", "", "")

  /** A merged row: the canonical fields plus the identifier given when it was first
      created (`{ id: crypto.randomUUID(), ...row }`). */
  datatype MergedRow = MergedRow(id: nat, row: Row)

  /** `row[f]`. */
  function Get(r: Row, f: Field): string {
    match f
    case PatientName => r.patientName
    case Phone => r.phone
    case AppointmentReason => r.appointmentReason
    case AppointmentDay => r.appointmentDay
    case AppointmentTime => r.appointmentTime
    case DoctorName => r.doctorName
    case HealthNumber => r.healthNumber
    case InsuranceNumber => r.insuranceNumber
  }

  /** `row[f] = v`. */
  function Set(r: Row, f: Field, v: string): (r': Row)
    ensures Get(r', f) == v
    ensures forall g :: g != f ==> Get(r', g) == Get(r, g)
  {
    match f
    case PatientName => r.(patientName := v)
    case Phone => r.(phone := v)
    case AppointmentReason => r.(appointmentReason := v)
    case AppointmentDay => r.(appointmentDay := v)
    case AppointmentTime => r.(appointmentTime := v)
    case DoctorName => r.(doctorName := v)
    case HealthNumber => r.(healthNumber := v)
    case InsuranceNumber => r.(insuranceNumber := v)
  }

  /** `REQUIRED_FIELDS`. */
  const REQUIRED_FIELDS: seq<Field> := [PatientName, Phone, AppointmentReason, AppointmentDay]

  /** The fields a merge may fill: the required ones, then time, doctor and health number.
      The insurance number is not among them. */
  const MERGE_FIELDS: seq<Field> := REQUIRED_FIELDS + [AppointmentTime, DoctorName, HealthNumber]

  /** `!row[f] || String(row[f]).trim() === ""`. */
  predicate IsMissing(r: Row, f: Field) {
    IsBlank(Get(r, f))
  }

  /** The fields of `fs` the row leaves empty or blank, in order. */
  function MissingAmong(r: Row, fs: seq<Field>): seq<Field> {
    if fs == [] then []
    else if IsMissing(r, fs[0]) then [fs[0]] + MissingAmong(r, fs[1..])
    else MissingAmong(r, fs[1..])
  }

  /** Fields listed in strictly increasing declaration order (so each at most once). */
  predicate RankIncreasing(fs: seq<Field>) {
    forall i, j :: 0 <= i < j < |fs| ==> Rank(fs[i]) < Rank(fs[j])
  }

  /** The missing fields among `fs` are those of `fs` the row leaves blank, and they keep the
      order of `fs`. */
  lemma {:induction false} MissingAmongFacts(r: Row, fs: seq<Field>)
    requires RankIncreasing(fs)
    ensures forall f :: f in MissingAmong(r, fs) <==> f in fs && IsMissing(r, f)
    ensures RankIncreasing(MissingAmong(r, fs))
  {
    if fs != [] {
      var rest := MissingAmong(r, fs[1..]);
      assert RankIncreasing(fs[1..]) by {
        forall i, j | 0 <= i < j < |fs[1..]| ensures Rank(fs[1..][i]) < Rank(fs[1..][j]) {
          assert fs[1..][i] == fs[i + 1] && fs[1..][j] == fs[j + 1];
        }
      }
      MissingAmongFacts(r, fs[1..]);
      forall k | 0 <= k < |rest| ensures Rank(fs[0]) < Rank(rest[k]) {
        assert rest[k] in fs[1..];
        var j :| 0 <= j < |fs[1..]| && fs[1..][j] == rest[k];
        assert fs[j + 1] == rest[k];
      }
      if IsMissing(r, fs[0]) {
        var m := [fs[0]] + rest;
        forall i, j | 0 <= i < j < |m| ensures Rank(m[i]) < Rank(m[j]) {
          assert m[j] == rest[j - 1];
          if 0 < i {
            assert m[i] == rest[i - 1];
          }
        }
        assert RankIncreasing(m);
      }
    }
  }

  /** `getRowMissingFields`. */
  function RowMissingFields(r: Row): seq<Field> {
    MissingAmong(r, REQUIRED_FIELDS)
  }

  /** The missing fields of a row are the required fields it leaves empty or blank, each
      once, in the order of `REQUIRED_FIELDS`. */
  lemma RowMissingFieldsFacts(r: Row)
    ensures forall f :: f in RowMissingFields(r) <==> f in REQUIRED_FIELDS && IsMissing(r, f)
    ensures RankIncreasing(RowMissingFields(r))
    ensures |RowMissingFields(r)| <= 4
  {
    var m := RowMissingFields(r);
    assert RankIncreasing(REQUIRED_FIELDS);
    MissingAmongFacts(r, REQUIRED_FIELDS);
    assert forall f :: f in m ==> Rank(f) < 4;
    RanksBoundLength(m, 4);
  }

  /** Fields in increasing order whose ranks are below `n` number at most `n`. */
  lemma {:induction false} RanksBoundLength(m: seq<Field>, n: nat)
    requires RankIncreasing(m)
    requires forall f :: f in m ==> Rank(f) < n
    ensures |m| <= n
  {
    if m != [] {
      var last := m[|m| - 1];
      assert last in m;
      var init := m[..|m| - 1];
      forall f | f in init ensures Rank(f) < Rank(last) {
        var i :| 0 <= i < |init| && init[i] == f;
        assert m[i] == f;
      }
      assert RankIncreasing(init) by {
        forall i, j | 0 <= i < j < |init| ensures Rank(init[i]) < Rank(init[j]) {
          assert init[i] == m[i] && init[j] == m[j];
        }
      }
      RanksBoundLength(init, Rank(last));
    }
  }

  /** A row is complete when no required field is missing. */
  predicate IsComplete(r: Row) {
    RowMissingFields(r) == []
  }

  /** The kind of a merge key, read off its first letter: `ins:` 0, `phone:` 1,
      `health:` 2, `name:` 3. */
  function KeyRank(k: string): nat {
    if k == [] then 3
    else if k[0] == 'i' then 0
    else if k[0] == 'p' then 1
    else if k[0] == 'h' then 2
    else 3
  }

  /** The four typed keys a row can have; their ranks are 0, 1, 2 and 3. */
  function InsKey(r: Row): string { "ins:" + r.insuranceNumber }
  function PhoneKey(r: Row): string { "phone:" + r.phone }
  function HealthKey(r: Row): string { "health:" + r.healthNumber }
  function NameKey(r: Row): string { "name:" + NormName(r.patientName) }

  lemma TypedKeyRanks(r: Row)
    ensures KeyRank(InsKey(r)) == 0 && KeyRank(PhoneKey(r)) == 1
    ensures KeyRank(HealthKey(r)) == 2 && KeyRank(NameKey(r)) == 3
  {
    assert InsKey(r)[0] == 'i' && PhoneKey(r)[0] == 'p';
    assert HealthKey(r)[0] == 'h' && NameKey(r)[0] == 'n';
  }

  /** Keys listed in strictly increasing kind. */
  predicate RankOrdered(keys: seq<string>) {
    forall i, j :: 0 <= i < j < |keys| ==> KeyRank(keys[i]) < KeyRank(keys[j])
  }

  /** `if (present) keys.push(k)`. */
  function PushIf(keys: seq<string>, present: bool, k: string): seq<string> {
    if present then keys + [k] else keys
  }

  lemma PushIfFacts(keys: seq<string>, present: bool, k: string)
    ensures var r := PushIf(keys, present, k);
      && |r| == |keys| + (if present then 1 else 0)
      && (forall x :: x in r <==> x in keys || (present && x == k))
      && (RankOrdered(keys) && (forall x :: x in keys ==> KeyRank(x) < KeyRank(k)) ==> RankOrdered(r))
  {
  }

  /** `keyCandidates`: one typed key per non-empty identifying field, in the order
      insurance, phone, health number, name. */
  function KeyCandidates(r: Row): (keys: seq<string>)
    ensures |keys| <= 4
    ensures keys == [] <==>
      r.insuranceNumber == "" && r.phone == "" && r.healthNumber == "" && r.patientName == ""
  {
    var k1 := PushIf([], r.insuranceNumber != "", InsKey(r));
    var k2 := PushIf(k1, r.phone != "", PhoneKey(r));
    var k3 := PushIf(k2, r.healthNumber != "", HealthKey(r));
    PushIf(k3, r.patientName != "", NameKey(r))
  }

  /** A row's merge keys are exactly the typed keys of its non-empty identifying fields, at
      most four of them. */
  lemma KeyCandidatesShape(r: Row)
    ensures var keys := KeyCandidates(r);
      && |keys| <= 4
      && (r.insuranceNumber != "" ==> InsKey(r) in keys)
      && (r.phone != "" ==> PhoneKey(r) in keys)
      && (r.healthNumber != "" ==> HealthKey(r) in keys)
      && (r.patientName != "" ==> NameKey(r) in keys)
      && (forall k :: k in keys ==>
            || (r.insuranceNumber != "" && k == InsKey(r))
            || (r.phone != "" && k == PhoneKey(r))
            || (r.healthNumber != "" && k == HealthKey(r))
            || (r.patientName != "" && k == NameKey(r)))
  {
    var k1 := PushIf([], r.insuranceNumber != "", InsKey(r));
    PushIfFacts([], r.insuranceNumber != "", InsKey(r));
    var k2 := PushIf(k1, r.phone != "", PhoneKey(r));
    PushIfFacts(k1, r.phone != "", PhoneKey(r));
    var k3 := PushIf(k2, r.healthNumber != "", HealthKey(r));
    PushIfFacts(k2, r.healthNumber != "", HealthKey(r));
    PushIfFacts(k3, r.patientName != "", NameKey(r));
  }

  /** The keys come in increasing kind: insurance, phone, health number, name. */
  lemma KeyCandidatesOrdered(r: Row)
    ensures RankOrdered(KeyCandidates(r))
  {
    TypedKeyRanks(r);
    var k1 := PushIf([], r.insuranceNumber != "", InsKey(r));
    PushIfFacts([], r.insuranceNumber != "", InsKey(r));
    assert forall x :: x in k1 ==> KeyRank(x) == 0;
    var k2 := PushIf(k1, r.phone != "", PhoneKey(r));
    PushIfFacts(k1, r.phone != "", PhoneKey(r));
    assert forall x :: x in k2 ==> KeyRank(x) <= 1;
    var k3 := PushIf(k2, r.healthNumber != "", HealthKey(r));
    PushIfFacts(k2, r.healthNumber != "", HealthKey(r));
    assert forall x :: x in k3 ==> KeyRank(x) <= 2;
    PushIfFacts(k3, r.patientName != "", NameKey(r));
  }

  /** The merge keys of a row are pairwise distinct. */
  lemma KeyCandidatesDistinct(r: Row)
    ensures forall i, j :: 0 <= i < j < |KeyCandidates(r)| ==> KeyCandidates(r)[i] != KeyCandidates(r)[j]
  {
    KeyCandidatesOrdered(r);
  }

  /** The key the dedup pass groups rows by: `insurance_number || phone || patient_name`,
      without a type prefix. */
  function DedupKey(r: Row): (k: string)
    ensures k == r.insuranceNumber || k == r.phone || k == r.patientName
    ensures k == "" <==> r.insuranceNumber == "" && r.phone == "" && r.patientName == ""
  {
    if r.insuranceNumber != "" then r.insuranceNumber
    else if r.phone != "" then r.phone
    else r.patientName
  }
}
