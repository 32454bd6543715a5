/** `mapRowToCanonical` (Dashboard.jsx, lines 89-341): one decoded spreadsheet row, whatever
    its column labels, to the fixed eight-field record. The specification is a chain of
    functions, one per block of the source; the method `MapRowToCanonical` follows the
    source statement by statement and is proved equal to it. */
module Canonicalise {
  import opened Options
  import opened JsText
  import opened Normalise
  import opened Records

  /** A decoded row: (column label, cell text) pairs in the order `Object.keys` lists them. */
  type RawRow = seq<(string, string)>

  /** The row with every label replaced by its normalised key. */
  function Keyed(raw: RawRow): (kv: RawRow)
    ensures |kv| == |raw|
    ensures forall i :: 0 <= i < |raw| ==> kv[i] == (NormKey(raw[i].0), raw[i].1)
  {
    seq(|raw|, i requires 0 <= i < |raw| => (NormKey(raw[i].0), raw[i].1))
  }

  /** A map built from (key, value) pairs in order, a later pair overriding an earlier one. */
  function Index(kv: RawRow): (m: map<string, string>)
    ensures forall k :: k in m <==> exists i :: 0 <= i < |kv| && kv[i].0 == k
    decreases |kv|
  {
    if kv == [] then map[]
    else
      var init := kv[..|kv| - 1];
      assert forall i :: 0 <= i < |kv| - 1 ==> init[i] == kv[i];
      Index(init)[kv[|kv| - 1].0 := kv[|kv| - 1].1]
  }

  /** `lookup`: normalised label to cell. */
  function Lookup(raw: RawRow): map<string, string> {
    Index(Keyed(raw))
  }

  /** A key maps to the value of the LAST pair that carries it. */
  lemma {:induction false} IndexLastWins(kv: RawRow, i: nat)
    requires i < |kv|
    requires forall j :: i < j < |kv| ==> kv[j].0 != kv[i].0
    ensures kv[i].0 in Index(kv) && Index(kv)[kv[i].0] == kv[i].1
    decreases |kv|
  {
    if i < |kv| - 1 {
      var init := kv[..|kv| - 1];
      assert init[i] == kv[i];
      IndexLastWins(init, i);
    }
  }

  /** The lookup holds every normalised label of the row, and for each the cell of the last
      column that carries it. */
  lemma LookupLastWins(raw: RawRow, i: nat)
    requires i < |raw|
    requires forall j :: i < j < |raw| ==> NormKey(raw[j].0) != NormKey(raw[i].0)
    ensures NormKey(raw[i].0) in Lookup(raw) && Lookup(raw)[NormKey(raw[i].0)] == raw[i].1
  {
    IndexLastWins(Keyed(raw), i);
  }

  /** A normalised synonym yields a value when it is a key of the lookup whose cell is not
      blank (`v !== undefined && v !== null && String(v).trim() !== ""`). */
  predicate Present(lookup: map<string, string>, key: string) {
    key in lookup && !IsBlank(lookup[key])
  }

  /** The synonyms, normalised as `get` does before looking them up. */
  function NormKeys(names: seq<string>): (keys: seq<string>)
    ensures |keys| == |names|
    ensures forall i :: 0 <= i < |names| ==> keys[i] == NormKey(names[i])
  {
    seq(|names|, i requires 0 <= i < |names| => NormKey(names[i]))
  }

  /** What `get(names)` returns, given the normalised synonyms: the cell of the first one
      that yields a value, as it is (untrimmed), or "" when none does. */
  function FirstPresent(lookup: map<string, string>, keys: seq<string>): (v: string)
    ensures v == "" <==> forall i :: 0 <= i < |keys| ==> !Present(lookup, keys[i])
    ensures v != "" ==> !IsBlank(v)
  {
    if keys == [] then ""
    else if Present(lookup, keys[0]) then lookup[keys[0]]
    else
      var v := FirstPresent(lookup, keys[1..]);
      assert forall i :: 1 <= i < |keys| ==> keys[i] == keys[1..][i - 1];
      v
  }

  /** The value of `get` is the cell of the first synonym that has one: earlier synonyms
      take priority over later ones. */
  lemma {:induction false} FirstPresentPicksFirst(lookup: map<string, string>, keys: seq<string>, i: nat)
    requires i < |keys| && Present(lookup, keys[i])
    requires forall j :: 0 <= j < i ==> !Present(lookup, keys[j])
    ensures FirstPresent(lookup, keys) == lookup[keys[i]]
  {
    if i > 0 {
      assert !Present(lookup, keys[0]);
      assert keys[1..][i - 1] == keys[i];
      forall j | 0 <= j < i - 1 ensures !Present(lookup, keys[1..][j]) {
        assert keys[1..][j] == keys[j + 1];
      }
      FirstPresentPicksFirst(lookup, keys[1..], i - 1);
    }
  }

  /** `get(names)`: the loop over the synonyms with its early return. */
  method Get(lookup: map<string, string>, names: seq<string>) returns (v: string)
    ensures v == FirstPresent(lookup, NormKeys(names))
  {
    ghost var keys := NormKeys(names);
    for i := 0 to |names|
      invariant forall j :: 0 <= j < i ==> !Present(lookup, keys[j])
    {
      var k := NormKey(names[i]);
      assert k == keys[i];
      if Present(lookup, k) {
        FirstPresentPicksFirst(lookup, keys, i);
        return lookup[k];
      }
    }
    return "";
  }

  // The synonym tables, in the source's order (lines 156-226).
  const PATIENT_NAME_SYNONYMS := ["patient_name", "patientname", "name", "fullname", "patient", "client"]
  const HEALTH_NUMBER_SYNONYMS := ["healthnumber", "health_number", "ahn", "uhc", "hin", "phn"]
  const REASON_SYNONYMS :=
    ["reason", "appointment_reason", "appointmentreason", "visitreason", "type", "service"]
  const DAY_SYNONYMS :=
    ["appointment_day", "appointmentdate", "appointment_date", "date", "day", "apptdate", "time_and_date"]
  const TIME_SYNONYMS :=
    ["appointment_time", "time", "appttime", "starttime", "start_time", "time_and_date"]
  const DOCTOR_SYNONYMS := ["doctor", "doctor_name", "providername", "provider", "physician"]

  /** The tests the source applies to a normalised column label. */
  datatype ColumnRule =
    | CombinedDescription  // line 112
    | PhoneLike            // lines 170-176
    | AreaCodeColumn       // line 260
    | PhoneNumberColumn    // line 269
    | InsuranceId          // lines 309-316
    | Named(key: string)   // `normKey(k) === key`

  predicate Matches(rule: ColumnRule, nk: string) {
    match rule
    case CombinedDescription => Contains(nk, "patient") && Contains(nk, "description")
    case PhoneLike =>
      Contains(nk, "phone") || Contains(nk, "phonenumber") || Contains(nk, "cell")
      || Contains(nk, "mobile") || Contains(nk, "contact")
    case AreaCodeColumn => nk == "areacode" || Contains(nk, "areacode") || nk == "area"
    case PhoneNumberColumn => Contains(nk, "phone") || nk == "phonenumber" || nk == "number"
    case InsuranceId =>
      nk == "ins" || Contains(nk, "insurance") || Contains(nk, "primaryid")
      || Contains(nk, "healthnumber") || nk == "hin" || EndsWith(nk, "id")
    case Named(key) => nk == key
  }

  /** Whether each column's normalised label passes the rule, in column order. */
  function Hits(raw: RawRow, rule: ColumnRule): (h: seq<bool>)
    ensures |h| == |raw|
  {
    seq(|raw|, i requires 0 <= i < |raw| => Matches(rule, NormKey(raw[i].0)))
  }

  predicate ColumnMatches(raw: RawRow, i: nat, rule: ColumnRule)
    requires i < |raw|
  {
    Hits(raw, rule)[i]
  }

  /** The first position holding `true`. */
  function FirstTrue(h: seq<bool>): (r: Option<nat>)
    ensures r.Some? ==> r.value < |h| && h[r.value]
    ensures r.Some? ==> forall j :: 0 <= j < r.value ==> !h[j]
    ensures r.None? ==> forall j :: 0 <= j < |h| ==> !h[j]
  {
    if h == [] then None
    else if h[0] then Some(0)
    else
      match FirstTrue(h[1..])
      case None => None
      case Some(i) => Some(i + 1)
  }

  /** The last position holding `true`. */
  function LastTrue(h: seq<bool>): (r: Option<nat>)
    ensures r.Some? ==> r.value < |h| && h[r.value]
    ensures r.Some? ==> forall j :: r.value < j < |h| ==> !h[j]
    ensures r.None? ==> forall j :: 0 <= j < |h| ==> !h[j]
  {
    if h == [] then None
    else if h[|h| - 1] then Some(|h| - 1)
    else LastTrue(h[..|h| - 1])
  }

  /** `Object.keys(raw).find(...)`: the first column the rule accepts. */
  function FindColumn(raw: RawRow, rule: ColumnRule): (r: Option<nat>)
    ensures r.Some? ==> r.value < |raw| && ColumnMatches(raw, r.value, rule)
    ensures r.Some? ==> forall j :: 0 <= j < r.value ==> !ColumnMatches(raw, j, rule)
    ensures r.None? ==> forall j :: 0 <= j < |raw| ==> !ColumnMatches(raw, j, rule)
  {
    FirstTrue(Hits(raw, rule))
  }

  /** The column the phone detection loop ends on: the last one the rule accepts. */
  function LastColumn(raw: RawRow, rule: ColumnRule): (r: Option<nat>)
    ensures r.Some? ==> r.value < |raw| && ColumnMatches(raw, r.value, rule)
    ensures r.Some? ==> forall j :: r.value < j < |raw| ==> !ColumnMatches(raw, j, rule)
    ensures r.None? ==> forall j :: 0 <= j < |raw| ==> !ColumnMatches(raw, j, rule)
  {
    LastTrue(Hits(raw, rule))
  }

  /** The first column whose cell holds at least ten digits. */
  function FirstLongDigits(raw: RawRow): (r: Option<nat>)
    ensures r.Some? ==> r.value < |raw| && |Digits(raw[r.value].1)| >= 10
    ensures r.Some? ==> forall j :: 0 <= j < r.value ==> |Digits(raw[j].1)| < 10
    ensures r.None? ==> forall j :: 0 <= j < |raw| ==> |Digits(raw[j].1)| < 10
  {
    var h := seq(|raw|, i requires 0 <= i < |raw| => |Digits(raw[i].1)| >= 10);
    assert forall j :: 0 <= j < |raw| ==> h[j] == (|Digits(raw[j].1)| >= 10);
    FirstTrue(h)
  }

  /** The cell of a found column, or `otherwise` when there is none. */
  function CellAt(raw: RawRow, col: Option<nat>, otherwise: string): string {
    match col
    case Some(i) => if i < |raw| then raw[i].1 else otherwise
    case None => otherwise
  }

  /** Lines 156-226: the synonym lookups and the phone detection. The combined
      Patient/Description split of lines 108-144 runs before them, but both fields it writes
      are overwritten here, so it leaves no trace. */
  function Detected(raw: RawRow): Row {
    var lookup := Lookup(raw);
    Row(
      patientName := FirstPresent(lookup, NormKeys(PATIENT_NAME_SYNONYMS)),
      phone := NormPhone(CellAt(raw, LastColumn(raw, PhoneLike), "")),
      appointmentReason := FirstPresent(lookup, NormKeys(REASON_SYNONYMS)),
      appointmentDay := FirstPresent(lookup, NormKeys(DAY_SYNONYMS)),
      appointmentTime := FirstPresent(lookup, NormKeys(TIME_SYNONYMS)),
      doctorName := FirstPresent(lookup, NormKeys(DOCTOR_SYNONYMS)),
      healthNumber := FirstPresent(lookup, NormKeys(HEALTH_NUMBER_SYNONYMS)),
      insuranceNumber := "")
  }

  /** `if (!current) { key = find(normKey(k) === name); if (key) current = trim(raw[key]) }`. */
  function FromNamedColumn(raw: RawRow, current: string, name: string): string {
    if current != "" then current
    else match FindColumn(raw, Named(name))
      case Some(i) => Trim(raw[i].1)
      case None => current
  }

  /** Lines 228-250: name from an exact "Patient/Description" column, reason from
      "Concern" and then from "Type", doctor from "Provider", each only when still empty. */
  function TextFallbacks(raw: RawRow, r: Row): Row {
    r.(
      patientName := FromNamedColumn(raw, r.patientName, "patientdescription"),
      appointmentReason :=
        FromNamedColumn(raw, FromNamedColumn(raw, r.appointmentReason, "concern"), "type"),
      doctorName := FromNamedColumn(raw, r.doctorName, "provider"))
  }

  /** Lines 252-281: area code and number from two columns. */
  function AreaCodeFallback(raw: RawRow, phone: string): string {
    if |phone| < 10 then
      var area := Digits(CellAt(raw, FindColumn(raw, AreaCodeColumn), ""));
      var num := Digits(CellAt(raw, FindColumn(raw, PhoneNumberColumn), ""));
      if area != "" || num != "" then
        var combined := Digits(area + num);
        if |combined| >= 10 then TakeLast(combined, 10) else phone
      else phone
    else phone
  }

  /** Lines 283-292: digits found in the "Concern" column. */
  function ConcernFallback(raw: RawRow, phone: string): string {
    if |phone| < 10 then
      match FindColumn(raw, Named("concern"))
      case Some(i) =>
        var digits := Digits(raw[i].1);
        if |digits| >= 10 then TakeLast(digits, 10) else phone
      case None => phone
    else phone
  }

  /** Lines 294-303: the first column with ten or more digits. */
  function ScanFallback(raw: RawRow, phone: string): string {
    if |phone| < 10 then
      match FirstLongDigits(raw)
      case Some(i) => TakeLast(Digits(raw[i].1), 10)
      case None => phone
    else phone
  }

  /** Lines 252-322: the three phone fallbacks, then the insurance or primary id. */
  function NumberFallbacks(raw: RawRow, r: Row): (out: Row)
    ensures r.insuranceNumber == "" ==> AllDigits(out.insuranceNumber)
    ensures out.(phone := r.phone, insuranceNumber := r.insuranceNumber) == r
  {
    var phone := ScanFallback(raw, ConcernFallback(raw, AreaCodeFallback(raw, r.phone)));
    var insurance :=
      if r.insuranceNumber != "" then r.insuranceNumber
      else match FindColumn(raw, InsuranceId)
        case Some(i) => Digits(raw[i].1)
        case None => r.insuranceNumber;
    r.(phone := phone, insuranceNumber := insurance)
  }

  /** Lines 324-331: every field put in its normal form. */
  function Normalised(r: Row, parse: DateParser): (out: Row)
    ensures AllDigits(out.phone) && |out.phone| <= 10 && AllDigits(out.healthNumber)
    ensures IsTrimmed(out.patientName) && IsTrimmed(out.appointmentReason)
    ensures IsTrimmed(out.doctorName) && IsTrimmed(out.appointmentDay)
    ensures out.insuranceNumber == r.insuranceNumber
  {
    r.(
      patientName := Trim(r.patientName),
      phone := NormPhone(r.phone),
      healthNumber := NormHealth(r.healthNumber),
      appointmentReason := Trim(r.appointmentReason),
      appointmentDay := NormDate(r.appointmentDay, parse),
      appointmentTime := Trim(r.appointmentTime),
      doctorName := Trim(r.doctorName))
  }

  /** Lines 333-338: a day holding a space is cut at its spaces; the first piece becomes the
      day and a non-empty second piece replaces the time. */
  function DateTimeSplit(r: Row, parse: DateParser): (out: Row)
    ensures out.(appointmentDay := r.appointmentDay, appointmentTime := r.appointmentTime) == r
  {
    if r.appointmentDay != "" && ' ' in r.appointmentDay then
      SplitShape(r.appointmentDay, ' ');
      var parts := Split(r.appointmentDay, ' ');
      r.(
        appointmentDay := NormDate(parts[0], parse),
        appointmentTime := if parts[1] != "" then parts[1] else r.appointmentTime)
    else r
  }

  /** The canonical record of a raw row. Whatever the columns: the phone is at most ten
      digits, the health and insurance numbers are digits, name, reason, doctor and day carry
      no surrounding whitespace and the day holds no space. */
  function Canonical(raw: RawRow, parse: DateParser): (r: Row)
    ensures AllDigits(r.phone) && |r.phone| <= 10
    ensures AllDigits(r.healthNumber) && AllDigits(r.insuranceNumber)
    ensures IsTrimmed(r.patientName) && IsTrimmed(r.appointmentReason) && IsTrimmed(r.doctorName)
    ensures IsTrimmed(r.appointmentDay) && ' ' !in r.appointmentDay
  {
    var found := TextFallbacks(raw, Detected(raw));
    assert found.insuranceNumber == "";
    var normal := Normalised(NumberFallbacks(raw, found), parse);
    SplitDayHasNoSpace(normal, parse);
    DateTimeSplit(normal, parse)
  }

  /** After the split the day holds no space, whatever it held before. */
  lemma SplitDayHasNoSpace(r: Row, parse: DateParser)
    ensures ' ' !in DateTimeSplit(r, parse).appointmentDay
    ensures IsTrimmed(r.appointmentDay) ==> IsTrimmed(DateTimeSplit(r, parse).appointmentDay)
  {
    if r.appointmentDay != "" && ' ' in r.appointmentDay {
      SplitShape(r.appointmentDay, ' ');
      var parts := Split(r.appointmentDay, ' ');
      NormDateHasNoSpace(parts[0], parse);
    }
  }

  /** A normalised date keeps no space, unless the original, trimmed, already had one. */
  lemma NormDateHasNoSpace(v: string, parse: DateParser)
    ensures ' ' !in v ==> ' ' !in NormDate(v, parse)
  {
    if v != "" && ' ' !in v {
      var s := Trim(v);
      assert ' ' !in s;
      if !IsIsoDate(s) && parse(s).Some? {
        var f := FormatDate(parse(s).value);
        assert forall i :: 0 <= i < |f| ==> f[i] != ' ';
      }
    }
  }

  /** The phone fallbacks never touch a phone that already has ten digits, and whatever
      they put in its place is exactly ten digits. */
  lemma PhoneFallbacksOnlyCompleteShortPhones(raw: RawRow, phone: string)
    ensures KeepsOrCompletes(phone, ScanFallback(raw, ConcernFallback(raw, AreaCodeFallback(raw, phone))))
  {
    var p1 := AreaCodeFallback(raw, phone);
    var p2 := ConcernFallback(raw, p1);
    var p3 := ScanFallback(raw, p2);
    AreaCodeFallbackShape(raw, phone);
    ConcernFallbackShape(raw, p1);
    ScanFallbackShape(raw, p2);
    KeepsOrCompletesChains(phone, p1, p2);
    KeepsOrCompletesChains(phone, p2, p3);
  }

  /** A fallback leaves a phone of ten or more characters alone, and otherwise either
      leaves it or puts exactly ten digits in its place. */
  predicate KeepsOrCompletes(phone: string, p: string) {
    (|phone| >= 10 ==> p == phone) && (p == phone || (|p| == 10 && AllDigits(p)))
  }

  lemma KeepsOrCompletesChains(phone: string, p: string, q: string)
    requires KeepsOrCompletes(phone, p) && KeepsOrCompletes(p, q)
    ensures KeepsOrCompletes(phone, q)
  {
  }

  lemma AreaCodeFallbackShape(raw: RawRow, phone: string)
    ensures KeepsOrCompletes(phone, AreaCodeFallback(raw, phone))
  {
  }

  lemma ConcernFallbackShape(raw: RawRow, phone: string)
    ensures KeepsOrCompletes(phone, ConcernFallback(raw, phone))
  {
  }

  lemma ScanFallbackShape(raw: RawRow, phone: string)
    ensures KeepsOrCompletes(phone, ScanFallback(raw, phone))
  {
  }

  /** The name of the canonical record is the name found by the lookups and text
      fallbacks, trimmed; nothing after them touches it. */
  lemma CanonicalNameIsFoundName(raw: RawRow, parse: DateParser)
    ensures Canonical(raw, parse).patientName == Trim(TextFallbacks(raw, Detected(raw)).patientName)
  {
    var found := TextFallbacks(raw, Detected(raw));
    var numbered := NumberFallbacks(raw, found);
    assert numbered.patientName == found.patientName;
    var normal := Normalised(numbered, parse);
    assert normal.patientName == Trim(found.patientName);
    assert DateTimeSplit(normal, parse).patientName == normal.patientName;
  }

  /** No patient-name synonym normalises to "patientdescription", so a row whose only
      column carries that key finds no name in the lookups. */
  lemma DescriptionIsNoNameSynonym(title: string, v: string)
    requires NormKey(title) == "patientdescription"
    ensures Detected([(title, v)]).patientName == ""
  {
    var raw := [(title, v)];
    var keys := NormKeys(PATIENT_NAME_SYNONYMS);
    var kv := Keyed(raw);
    assert kv == [(NormKey(title), v)];
    assert kv[..0] == [];
    assert Lookup(raw) == map["patientdescription" := v];
    forall i | 0 <= i < |keys| ensures !Present(Lookup(raw), keys[i]) {
      assert |keys[i]| <= |PATIENT_NAME_SYNONYMS[i]| < 18;
    }
  }

  /** The combined Patient/Description split leaves no trace: when no name synonym yields a
      value, the patient name is the whole cell of the first "Patient/Description" column,
      trimmed, whatever separators it holds. */
  lemma WholeDescriptionBecomesName(raw: RawRow, i: nat, parse: DateParser)
    requires i < |raw| && FindColumn(raw, Named("patientdescription")) == Some(i)
    requires Detected(raw).patientName == ""
    ensures Canonical(raw, parse).patientName == Trim(raw[i].1)
  {
    NameFromDescriptionColumn(raw, Detected(raw), i);
    CanonicalNameIsFoundName(raw, parse);
    assert Trim(Trim(raw[i].1)) == Trim(raw[i].1);
  }

  lemma NameFromDescriptionColumn(raw: RawRow, r: Row, i: nat)
    requires i < |raw| && FindColumn(raw, Named("patientdescription")) == Some(i)
    requires r.patientName == ""
    ensures TextFallbacks(raw, r).patientName == Trim(raw[i].1)
  {
  }

  /** A day that reads "<date> <time>" gives its date to the day and its time to the time,
      replacing any time the row had. */
  lemma DayWithTimeOverridesTime(r: Row, d: string, t: string, parse: DateParser)
    requires r.appointmentDay == d + " " + t
    requires ' ' !in d && ' ' !in t && t != ""
    ensures DateTimeSplit(r, parse).appointmentDay == NormDate(d, parse)
    ensures DateTimeSplit(r, parse).appointmentTime == t
  {
    SplitConcat(d, ' ', t);
    SplitShape(d, ' ');
    SplitShape(t, ' ');
    assert d + " " + t == d + [' '] + t;
    SplitShape(r.appointmentDay, ' ');
  }

  // ---------------------------------------------------------------------------------------
  // The statement-by-statement version.

  /** `Object.keys(raw).forEach(k => lookup[normKey(k)] = raw[k])`. */
  method BuildLookup(raw: RawRow) returns (lookup: map<string, string>)
    ensures lookup == Lookup(raw)
  {
    ghost var kv := Keyed(raw);
    lookup := map[];
    for i := 0 to |raw|
      invariant lookup == Index(kv[..i])
    {
      assert kv[..i + 1][..i] == kv[..i];
      lookup := lookup[NormKey(raw[i].0) := raw[i].1];
    }
    assert kv[..|raw|] == kv;
  }

  /** `Object.keys(raw).find(...)` for one rule. */
  method Find(raw: RawRow, rule: ColumnRule) returns (col: Option<nat>)
    ensures col == FindColumn(raw, rule)
  {
    ghost var h := Hits(raw, rule);
    for i := 0 to |raw|
      invariant forall j :: 0 <= j < i ==> !h[j]
    {
      if Matches(rule, NormKey(raw[i].0)) {
        assert h[i];
        FirstTrueIsFirst(h, i);
        return Some(i);
      }
    }
    return None;
  }

  /** The first `true` in a sequence is where the search stops. */
  lemma {:induction false} FirstTrueIsFirst(h: seq<bool>, i: nat)
    requires i < |h| && h[i]
    requires forall j :: 0 <= j < i ==> !h[j]
    ensures FirstTrue(h) == Some(i)
  {
    if i > 0 {
      assert h[1..][i - 1] == h[i];
      FirstTrueIsFirst(h[1..], i - 1);
    }
  }

  /** The smart phone detection loop (lines 167-180): the cell of the last column whose
      label looks like a phone, even a blank one, or "" when there is none. */
  method DetectPhone(raw: RawRow) returns (detected: string)
    ensures detected == CellAt(raw, LastColumn(raw, PhoneLike), "")
  {
    ghost var h := Hits(raw, PhoneLike);
    detected := "";
    for i := 0 to |raw|
      invariant detected == CellAt(raw, LastTrue(h[..i]), "")
    {
      assert h[..i + 1][..i] == h[..i];
      if Matches(PhoneLike, NormKey(raw[i].0)) {
        assert h[i];
        detected := raw[i].1;
      }
    }
    assert h[..|raw|] == h;
  }

  /** The final fallback's loop with its `break` (lines 295-302). */
  method ScanForLongNumber(raw: RawRow) returns (col: Option<nat>)
    ensures col == FirstLongDigits(raw)
  {
    ghost var h := seq(|raw|, i requires 0 <= i < |raw| => |Digits(raw[i].1)| >= 10);
    assert forall j :: 0 <= j < |raw| ==> h[j] == (|Digits(raw[j].1)| >= 10);
    col := None;
    var i := 0;
    while i < |raw|
      invariant i <= |raw|
      invariant forall j :: 0 <= j < i ==> !h[j]
    {
      var digits := Digits(raw[i].1);
      if |digits| >= 10 {
        FirstTrueIsFirst(h, i);
        col := Some(i);
        break;
      }
      i := i + 1;
    }
  }

  /** `.filter(Boolean)` on strings: the non-empty ones, in order. */
  function NonEmpty(parts: seq<string>): (r: seq<string>)
    ensures forall i :: 0 <= i < |r| ==> r[i] != ""
    ensures |r| <= |parts|
  {
    if parts == [] then []
    else (if parts[0] != "" then [parts[0]] else []) + NonEmpty(parts[1..])
  }

  /** `.map(s => s.trim())`. */
  function TrimEach(parts: seq<string>): (r: seq<string>)
    ensures |r| == |parts|
    ensures forall i :: 0 <= i < |parts| ==> r[i] == Trim(parts[i])
  {
    seq(|parts|, i requires 0 <= i < |parts| => Trim(parts[i]))
  }

  /** The combined Patient/Description pass (lines 108-144): a name and a description cut
      at '-' or ':', or the first two words as the name. It writes only the name and the
      reason, and both are assigned again by the synonym lookups that follow, so its result
      never reaches the canonical record. */
  method CombinedDescriptionPass(raw: RawRow, out: Row) returns (res: Row)
    ensures res.(patientName := out.patientName, appointmentReason := out.appointmentReason) == out
  {
    res := out;
    for i := 0 to |raw|
      invariant res.(patientName := out.patientName, appointmentReason := out.appointmentReason) == out
    {
      if !Matches(CombinedDescription, NormKey(raw[i].0)) {
        continue;
      }
      var val := Trim(raw[i].1);
      if val == "" {
        continue;
      }
      if '-' in val || ':' in val {
        var sep := if '-' in val then '-' else ':';
        SplitShape(val, sep);
        var parts := TrimEach(Split(val, sep));
        if res.patientName == "" {
          res := res.(patientName := parts[0]);
        }
        if res.appointmentReason == "" {
          res := res.(appointmentReason := parts[1]);
        }
        continue;
      }
      var words := NonEmpty(Split(val, ' '));
      if |words| >= 2 {
        var rest := Join(words[2..], " ");
        res := res.(
          patientName := Join(words[..2], " "),
          appointmentReason := if rest != "" then rest else res.appointmentReason);
      } else {
        res := res.(patientName := val);
      }
    }
  }

  /** `if (!current) { key = find(...); if (key) current = String(raw[key]).trim() }`. */
  method FillFromNamedColumn(raw: RawRow, current: string, name: string) returns (v: string)
    ensures v == FromNamedColumn(raw, current, name)
  {
    v := current;
    if v == "" {
      var col := Find(raw, Named(name));
      if col.Some? {
        v := Trim(raw[col.value].1);
      }
    }
  }

  /** Lines 91-218: the empty record, the lookup, the combined pass, the synonym lookups
      and the smart phone detection. */
  method DetectFields(raw: RawRow) returns (out: Row)
    ensures out == Detected(raw)
  {
    out := EMPTY_ROW;
    var lookup := BuildLookup(raw);
    out := CombinedDescriptionPass(raw, out);
    var name := Get(lookup, PATIENT_NAME_SYNONYMS);
    var detected := DetectPhone(raw);
    var health := Get(lookup, HEALTH_NUMBER_SYNONYMS);
    var reason := Get(lookup, REASON_SYNONYMS);
    var day := Get(lookup, DAY_SYNONYMS);
    var time := Get(lookup, TIME_SYNONYMS);
    var doctor := Get(lookup, DOCTOR_SYNONYMS);
    out := out.(
      patientName := name, phone := NormPhone(detected), healthNumber := health,
      appointmentReason := reason, appointmentDay := day, appointmentTime := time,
      doctorName := doctor);
  }

  /** Lines 228-250. */
  method ApplyTextFallbacks(raw: RawRow, r: Row) returns (out: Row)
    ensures out == TextFallbacks(raw, r)
  {
    var name := FillFromNamedColumn(raw, r.patientName, "patientdescription");
    var reason := FillFromNamedColumn(raw, r.appointmentReason, "concern");
    reason := FillFromNamedColumn(raw, reason, "type");
    var doctor := FillFromNamedColumn(raw, r.doctorName, "provider");
    out := r.(patientName := name, appointmentReason := reason, doctorName := doctor);
  }

  /** Lines 252-281: area code and number. */
  method FillFromAreaCode(raw: RawRow, phone: string) returns (p: string)
    ensures p == AreaCodeFallback(raw, phone)
  {
    p := phone;
    if |p| < 10 {
      var area, num := "", "";
      var areaCol := Find(raw, AreaCodeColumn);
      if areaCol.Some? {
        area := Digits(raw[areaCol.value].1);
      }
      var numberCol := Find(raw, PhoneNumberColumn);
      if numberCol.Some? {
        num := Digits(raw[numberCol.value].1);
      }
      if area != "" || num != "" {
        var combined := Digits(area + num);
        if |combined| >= 10 {
          p := TakeLast(combined, 10);
        }
      }
    }
  }

  /** Lines 252-303: the three phone fallbacks in turn. */
  method ApplyPhoneFallbacks(raw: RawRow, phone: string) returns (p: string)
    ensures p == ScanFallback(raw, ConcernFallback(raw, AreaCodeFallback(raw, phone)))
  {
    p := FillFromAreaCode(raw, phone);
    if |p| < 10 {
      var concernCol := Find(raw, Named("concern"));
      if concernCol.Some? {
        var digits := Digits(raw[concernCol.value].1);
        if |digits| >= 10 {
          p := TakeLast(digits, 10);
        }
      }
    }
    if |p| < 10 {
      var col := ScanForLongNumber(raw);
      if col.Some? {
        p := TakeLast(Digits(raw[col.value].1), 10);
      }
    }
  }

  /** Lines 252-322. */
  method ApplyNumberFallbacks(raw: RawRow, r: Row) returns (out: Row)
    ensures out == NumberFallbacks(raw, r)
  {
    var phone := ApplyPhoneFallbacks(raw, r.phone);
    out := r.(phone := phone);
    if out.insuranceNumber == "" {
      var insCol := Find(raw, InsuranceId);
      if insCol.Some? {
        out := out.(insuranceNumber := Digits(raw[insCol.value].1));
      }
    }
  }

  /** Lines 324-331: each field is replaced by its normal form. */
  method NormaliseFields(r: Row, parse: DateParser) returns (out: Row)
    ensures out == Normalised(r, parse)
  {
    out := r.(
      patientName := Trim(r.patientName),
      phone := NormPhone(r.phone),
      healthNumber := NormHealth(r.healthNumber),
      appointmentReason := Trim(r.appointmentReason),
      appointmentDay := NormDate(r.appointmentDay, parse),
      appointmentTime := Trim(r.appointmentTime),
      doctorName := Trim(r.doctorName));
  }

  /** Lines 333-338: a day holding a space gives its first piece to the day and a non-empty
      second piece to the time. */
  method SplitDayAndTime(r: Row, parse: DateParser) returns (out: Row)
    ensures out == DateTimeSplit(r, parse)
  {
    out := r;
    if out.appointmentDay != "" && ' ' in out.appointmentDay {
      SplitShape(out.appointmentDay, ' ');
      var parts := Split(out.appointmentDay, ' ');
      out := out.(
        appointmentDay := NormDate(parts[0], parse),
        appointmentTime := if parts[1] != "" then parts[1] else out.appointmentTime);
    }
  }

  /** `mapRowToCanonical`, statement by statement; it computes `Canonical`, so its record has
      a phone of at most ten digits and a day without spaces whatever the columns. */
  method MapRowToCanonical(raw: RawRow, parse: DateParser) returns (out: Row)
    ensures out == Canonical(raw, parse)
    ensures AllDigits(out.phone) && |out.phone| <= 10
    ensures IsTrimmed(out.appointmentDay) && ' ' !in out.appointmentDay
  {
    out := DetectFields(raw);
    out := ApplyTextFallbacks(raw, out);
    out := ApplyNumberFallbacks(raw, out);
    out := NormaliseFields(out, parse);
    out := SplitDayAndTime(out, parse);
  }
}
