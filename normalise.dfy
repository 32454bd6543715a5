/** The normalisers of the smart upload (Dashboard.jsx, lines 35-74): column labels and
    names to `[a-z0-9]` keys, phone and health numbers to digits, dates to `YYYY-MM-DD`
    where possible. */
module Normalise {
  import opened Options
  import opened JsText

  /** `normKey`: lower-case the label and drop everything that is not `[a-z0-9]`. The
      source trims the result as well; `NormKeyTrimIsNoOp` shows that this removes nothing. */
  function NormKey(k: string): (r: string)
    ensures AllLowerAlnum(r)
    ensures |r| <= |k|
    ensures |k| == 1 ==> r == if IsLowerAlnum(AsciiLower(k[0])) then [AsciiLower(k[0])] else []
  {
    KeepLowerAlnum(Lower(k))
  }

  /** Every letter and digit of the label reaches the key, lower-cased, and nothing else
      does. */
  lemma NormKeyMembers(k: string)
    ensures forall i :: 0 <= i < |k| && IsLowerAlnum(AsciiLower(k[i])) ==> AsciiLower(k[i]) in NormKey(k)
    ensures forall c :: c in NormKey(k) ==> IsLowerAlnum(c) && exists i :: 0 <= i < |k| && AsciiLower(k[i]) == c
  {
    var l := Lower(k);
    KeepLowerAlnumMembers(l);
    forall c | c in NormKey(k) ensures exists i :: 0 <= i < |k| && AsciiLower(k[i]) == c {
      var i :| 0 <= i < |l| && l[i] == c;
    }
    forall i | 0 <= i < |k| && IsLowerAlnum(AsciiLower(k[i])) ensures AsciiLower(k[i]) in NormKey(k) {
      assert l[i] in l;
    }
  }

  lemma AlnumIsTrimmed(s: string)
    requires AllLowerAlnum(s)
    ensures IsTrimmed(s)
  {
    if s != [] {
      assert IsLowerAlnum(s[0]) && IsLowerAlnum(s[|s| - 1]);
    }
  }

  /** The trailing `trim()` of `normKey` never changes the key. */
  lemma NormKeyTrimIsNoOp(k: string)
    ensures Trim(NormKey(k)) == NormKey(k)
  {
    AlnumIsTrimmed(NormKey(k));
  }

  /** `normName`: the same pipeline as `normKey`, applied to a patient name. */
  function NormName(v: string): string {
    NormKey(v)
  }

  lemma {:induction false} LowerOfLowerAlnum(s: string)
    requires AllLowerAlnum(s)
    ensures Lower(s) == s
  {
  }

  lemma {:induction false} KeepLowerAlnumAppend(a: string, b: string)
    ensures KeepLowerAlnum(a + b) == KeepLowerAlnum(a) + KeepLowerAlnum(b)
    decreases |a|
  {
    if a == [] {
      assert a + b == b;
    } else {
      var head := if IsLowerAlnum(a[0]) then [a[0]] else [];
      assert (a + b)[0] == a[0] && (a + b)[1..] == a[1..] + b;
      calc {
        KeepLowerAlnum(a + b);
        head + KeepLowerAlnum(a[1..] + b);
        { KeepLowerAlnumAppend(a[1..], b); }
        head + (KeepLowerAlnum(a[1..]) + KeepLowerAlnum(b));
        (head + KeepLowerAlnum(a[1..])) + KeepLowerAlnum(b);
        KeepLowerAlnum(a) + KeepLowerAlnum(b);
      }
    }
  }

  /** Normalising a normalised key changes nothing. */
  lemma NormKeyIdempotent(k: string)
    ensures NormKey(NormKey(k)) == NormKey(k)
  {
    var n := NormKey(k);
    LowerOfLowerAlnum(n);
  }

  lemma LowerAppend(a: string, b: string)
    ensures Lower(a + b) == Lower(a) + Lower(b)
  {
    var l, r := Lower(a + b), Lower(a) + Lower(b);
    assert |l| == |r|;
    forall i | 0 <= i < |l| ensures l[i] == r[i] {
      if i < |a| {
        assert (a + b)[i] == a[i];
      } else {
        assert (a + b)[i] == b[i - |a|];
      }
    }
  }

  /** The key of a concatenation is the concatenation of the keys. */
  lemma NormKeyAppend(a: string, b: string)
    ensures NormKey(a + b) == NormKey(a) + NormKey(b)
  {
    LowerAppend(a, b);
    KeepLowerAlnumAppend(Lower(a), Lower(b));
  }

  /** Labels that differ only in the case of their letters have the same key. */
  lemma NormKeyIgnoresCase(a: string, b: string)
    requires |a| == |b|
    requires forall i :: 0 <= i < |a| ==> AsciiLower(a[i]) == AsciiLower(b[i])
    ensures NormKey(a) == NormKey(b)
  {
    assert Lower(a) == Lower(b);
  }

  /** Inserting a character that is neither a letter nor a digit (a space, `_`, `/`, `#`,
      ...) anywhere in a label leaves its key unchanged. */
  lemma NormKeyIgnoresPunctuation(a: string, c: char, b: string)
    requires !IsLowerAlnum(AsciiLower(c))
    ensures NormKey(a + [c] + b) == NormKey(a + b)
  {
    NormKeyAppend(a + [c], b);
    NormKeyAppend(a, [c]);
    NormKeyAppend(a, b);
    assert Lower([c]) == [AsciiLower(c)];
    assert NormKey([c]) == [];
  }

  /** `normPhone`: the digits of `v`, and only the last ten of them when there are more. */
  function NormPhone(v: string): (r: string)
    ensures AllDigits(r) && |r| <= 10
    ensures |Digits(v)| <= 10 ==> r == Digits(v)
    ensures |Digits(v)| > 10 ==> |r| == 10 && r == Digits(v)[|Digits(v)| - 10..]
  {
    TakeLast(Digits(v), 10)
  }

  /** A normalised phone number is its own normal form. */
  lemma NormPhoneIdempotent(v: string)
    ensures NormPhone(NormPhone(v)) == NormPhone(v)
  {
  }

  /** `normHealth`: the digits of `v`. */
  function NormHealth(v: string): (r: string)
    ensures AllDigits(r) && |r| <= |v|
    ensures AllDigits(v) ==> r == v
    ensures forall c :: c in r <==> c in v && IsDigit(c)
    ensures |v| == 1 ==> r == if IsDigit(v[0]) then v else []
  {
    Digits(v)
  }

  /** What the host's `new Date(s)` yields when it is a valid date: the local year, the
      month counted from 1 and the day of the month. */
  datatype CalendarDate = CalendarDate(year: int, month: nat, day: nat)

  /** The host's date parser: `None` when `new Date(s)` is an invalid date. Its behaviour
      depends on the browser and the time zone, so the model takes it as a parameter. */
  type DateParser = string -> Option<CalendarDate>

  /** `/^\d{4}-\d{2}-\d{2}$/`. */
  predicate IsIsoDate(s: string) {
    && |s| == 10
    && IsDigit(s[0]) && IsDigit(s[1]) && IsDigit(s[2]) && IsDigit(s[3])
    && s[4] == '-' && IsDigit(s[5]) && IsDigit(s[6])
    && s[7] == '-' && IsDigit(s[8]) && IsDigit(s[9])
  }

  /** `${yyyy}-${mm}-${dd}` with the month and day padded to two digits. */
  function FormatDate(d: CalendarDate): (r: string)
    ensures forall i :: 0 <= i < |r| ==> IsDigit(r[i]) || r[i] == '-'
  {
    IntToString(d.year) + "-" + PadTwo(NatToString(d.month)) + "-" + PadTwo(NatToString(d.day))
  }

  /** A formatted date starts and ends with a digit or a dash, never with white space. */
  lemma FormattedDateIsTrimmed(d: CalendarDate)
    ensures IsTrimmed(FormatDate(d))
  {
    var f := FormatDate(d);
    if f != [] {
      var first, last := f[0], f[|f| - 1];
      assert IsDigit(first) || first == '-';
      assert IsDigit(last) || last == '-';
    }
  }

  /** A date with a four-digit year is formatted as `YYYY-MM-DD`. */
  lemma FormatDateIsIso(d: CalendarDate)
    requires 1000 <= d.year <= 9999 && d.month <= 99 && d.day <= 99
    ensures IsIsoDate(FormatDate(d))
  {
    FourDigitYear(d.year);
    TwoDigitsAtMost(d.month);
    TwoDigitsAtMost(d.day);
  }

  lemma FourDigitYear(n: nat)
    requires 1000 <= n <= 9999
    ensures |NatToString(n)| == 4
  {
    assert |NatToString(n / 1000)| == 1;
    assert n / 100 / 10 == n / 1000 && |NatToString(n / 100)| == 2;
    assert n / 10 / 10 == n / 100 && |NatToString(n / 10)| == 3;
  }

  lemma TwoDigitsAtMost(n: nat)
    requires n <= 99
    ensures |NatToString(n)| <= 2
  {
  }

  /** `normDate`: empty stays empty; a trimmed `YYYY-MM-DD` is kept; otherwise the host
      parse, reformatted, or failing that the trimmed original. */
  function NormDate(v: string, parse: DateParser): (r: string)
    ensures v == "" ==> r == ""
    ensures v != "" && IsIsoDate(Trim(v)) ==> r == Trim(v)
    ensures v != "" && !IsIsoDate(Trim(v)) && parse(Trim(v)).None? ==> r == Trim(v)
    ensures IsTrimmed(r)
  {
    if v == "" then ""
    else
      var s := Trim(v);
      if IsIsoDate(s) then s
      else match parse(s)
        case Some(d) =>
          FormattedDateIsTrimmed(d);
          FormatDate(d)
        case None => s
  }

  /** Normalising a normalised date changes nothing, as long as a parse the host performs
      produces a four-digit year. */
  lemma NormDateIdempotent(v: string, parse: DateParser)
    requires v != "" && !IsIsoDate(Trim(v)) && parse(Trim(v)).Some? ==>
      var d := parse(Trim(v)).value; 1000 <= d.year <= 9999 && d.month <= 99 && d.day <= 99
    ensures NormDate(NormDate(v, parse), parse) == NormDate(v, parse)
  {
    var r := NormDate(v, parse);
    if v != "" {
      var s := Trim(v);
      if !IsIsoDate(s) && parse(s).Some? {
        FormatDateIsIso(parse(s).value);
      }
    }
  }
}
