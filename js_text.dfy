/** The string primitives of the browser runtime that the upload pipeline leans on:
    `String.prototype.trim`, `toLowerCase` (on ASCII letters), `replace(/\D/g, "")`,
    `replace(/[^a-z0-9]/g, "")`, `includes`, `endsWith`, `slice(-n)`, `split` and `join`. */
module JsText {

  /** The WhiteSpace and LineTerminator code points that `trim` removes. */
  predicate IsWhitespace(c: char) {
    || c == ' ' || c == '\t' || c == '\n' || c == '\r'
    || c == '\U{000B}' || c == '\U{000C}' || c == '\U{00A0}' || c == '\U{1680}'
    || ('\U{2000}' <= c <= '\U{200A}')
    || c == '\U{2028}' || c == '\U{2029}' || c == '\U{202F}' || c == '\U{205F}'
    || c == '\U{3000}' || c == '\U{FEFF}'
  }

  /** What `\d` matches. */
  predicate IsDigit(c: char) { '0' <= c <= '9' }

  /** What `[a-z0-9]` matches. */
  predicate IsLowerAlnum(c: char) { 'a' <= c <= 'z' || IsDigit(c) }

  predicate AllDigits(s: string) { forall i :: 0 <= i < |s| ==> IsDigit(s[i]) }

  predicate AllLowerAlnum(s: string) { forall i :: 0 <= i < |s| ==> IsLowerAlnum(s[i]) }

  /** `s.trim() === ""`: the string is empty or whitespace only. */
  predicate IsBlank(s: string) { forall i :: 0 <= i < |s| ==> IsWhitespace(s[i]) }

  /** No whitespace at either end: what `trim` leaves. */
  predicate IsTrimmed(s: string) {
    s == [] || (!IsWhitespace(s[0]) && !IsWhitespace(s[|s| - 1]))
  }

  function TrimStart(s: string): (r: string)
    ensures |r| <= |s| && r == s[|s| - |r|..]
    ensures forall i :: 0 <= i < |s| - |r| ==> IsWhitespace(s[i])
    ensures r == [] || !IsWhitespace(r[0])
  {
    if s != [] && IsWhitespace(s[0]) then TrimStart(s[1..]) else s
  }

  function TrimEnd(s: string): (r: string)
    ensures |r| <= |s| && r == s[..|r|]
    ensures forall i :: |r| <= i < |s| ==> IsWhitespace(s[i])
    ensures r == [] || !IsWhitespace(r[|r| - 1])
  {
    if s != [] && IsWhitespace(s[|s| - 1]) then TrimEnd(s[..|s| - 1]) else s
  }

  /** `String.prototype.trim`. */
  function Trim(s: string): (r: string)
    ensures |r| <= |s|
    ensures forall c :: c in r ==> c in s
    ensures IsTrimmed(r)
    ensures r == [] <==> IsBlank(s)
    ensures IsTrimmed(s) ==> r == s
  {
    TrimShape(s);
    TrimEnd(TrimStart(s))
  }

  /** `trim` removes a run of whitespace at each end and keeps the middle as it is:
      the result is the slice of `s` starting after the leading run. */
  lemma TrimIsSlice(s: string)
    ensures var r := Trim(s); var a := |s| - |TrimStart(s)|;
      && a + |r| <= |s|
      && (forall i :: 0 <= i < a ==> IsWhitespace(s[i]))
      && (forall i :: a + |r| <= i < |s| ==> IsWhitespace(s[i]))
      && (forall j :: 0 <= j < |r| ==> r[j] == s[a + j])
  {
    TrimSlice(s);
  }

  lemma TrimShape(s: string)
    ensures var r := TrimEnd(TrimStart(s));
      && |r| <= |s|
      && (forall c :: c in r ==> c in s)
      && IsTrimmed(r)
      && (r == [] <==> IsBlank(s))
      && (IsTrimmed(s) ==> r == s)
  {
    var t := TrimStart(s);
    assert t == [] ==> IsBlank(s);
    var r := TrimEnd(t);
    assert t != [] ==> r != [];
    assert IsTrimmed(s) && s != [] ==> t == s && r == t;
  }

  lemma TrimSlice(s: string)
    ensures var r := TrimEnd(TrimStart(s)); var a := |s| - |TrimStart(s)|;
      && a + |r| <= |s|
      && (forall i :: 0 <= i < a ==> IsWhitespace(s[i]))
      && (forall i :: a + |r| <= i < |s| ==> IsWhitespace(s[i]))
      && (forall j :: 0 <= j < |r| ==> r[j] == s[a + j])
  {
    var t := TrimStart(s);
    var r := TrimEnd(t);
    var a := |s| - |t|;
    SliceOfSlice(s, a, |r|);
    WhitespaceAfter(s, t, a, |r|);
  }

  lemma SliceOfSlice(s: string, a: nat, m: nat)
    requires a + m <= |s|
    ensures s[a..][..m] == s[a..a + m]
  {
  }

  lemma WhitespaceAfter(s: string, t: string, a: nat, m: nat)
    requires a <= |s| && t == s[a..] && m <= |t|
    requires forall i :: m <= i < |t| ==> IsWhitespace(t[i])
    ensures forall i :: a + m <= i < |s| ==> IsWhitespace(s[i])
  {
    forall i | a + m <= i < |s| ensures IsWhitespace(s[i]) {
      assert s[i] == t[i - a];
    }
  }

  /** `replace(/\D/g, "")`: the digits of `s`, in order. */
  function Digits(s: string): (r: string)
    ensures |r| <= |s|
    ensures AllDigits(r)
    ensures AllDigits(s) ==> r == s
    ensures forall c :: c in r <==> c in s && IsDigit(c)
    ensures |s| == 1 ==> r == if IsDigit(s[0]) then s else []
  {
    if s == [] then []
    else (if IsDigit(s[0]) then [s[0]] else []) + Digits(s[1..])
  }

  /** The pieces of a string are filtered independently; with the one-character case of
      `Digits` this fixes the result as the input's digits, in order and with repeats. */
  lemma {:induction false} DigitsAppend(a: string, b: string)
    ensures Digits(a + b) == Digits(a) + Digits(b)
    decreases |a|
  {
    if a == [] {
      assert a + b == b;
    } else {
      var head := if IsDigit(a[0]) then [a[0]] else [];
      assert (a + b)[0] == a[0] && (a + b)[1..] == a[1..] + b;
      calc {
        Digits(a + b);
        head + Digits(a[1..] + b);
        { DigitsAppend(a[1..], b); }
        head + (Digits(a[1..]) + Digits(b));
        (head + Digits(a[1..])) + Digits(b);
        Digits(a) + Digits(b);
      }
    }
  }

  /** `s.slice(-n)` for `|s| > n`, and `s` itself otherwise. */
  function TakeLast(s: string, n: nat): (r: string)
    ensures |r| <= n && |r| <= |s|
    ensures |s| > n ==> |r| == n
    ensures r == s[|s| - |r|..]
    ensures |s| <= n ==> r == s
  {
    if |s| > n then s[|s| - n..] else s
  }

  /** `toLowerCase` on one character; letters outside ASCII are left as they are. */
  function AsciiLower(c: char): char {
    if 'A' <= c <= 'Z' then (c as int + 32) as char else c
  }

  function Lower(s: string): (r: string)
    ensures |r| == |s|
    ensures forall i :: 0 <= i < |s| ==> r[i] == AsciiLower(s[i])
  {
    if s == [] then [] else [AsciiLower(s[0])] + Lower(s[1..])
  }

  /** `replace(/[^a-z0-9]/g, "")`. */
  function KeepLowerAlnum(s: string): (r: string)
    ensures |r| <= |s|
    ensures AllLowerAlnum(r)
    ensures AllLowerAlnum(s) ==> r == s
    ensures |s| == 1 ==> r == if IsLowerAlnum(s[0]) then s else []
  {
    if s == [] then []
    else (if IsLowerAlnum(s[0]) then [s[0]] else []) + KeepLowerAlnum(s[1..])
  }

  /** A character survives the filter exactly when it is a lower-case letter or digit. */
  lemma {:induction false} KeepLowerAlnumMembers(s: string)
    ensures forall c :: c in KeepLowerAlnum(s) <==> c in s && IsLowerAlnum(c)
    decreases |s|
  {
    if s != [] {
      KeepLowerAlnumMembers(s[1..]);
      assert forall c :: c in s <==> c == s[0] || c in s[1..];
    }
  }

  /** `s.includes(sub)`. */
  predicate Contains(s: string, sub: string)
    decreases |s|
  {
    if |sub| > |s| then false
    else s[..|sub|] == sub || (s != [] && Contains(s[1..], sub))
  }

  /** `s.endsWith(suffix)`. */
  predicate EndsWith(s: string, suffix: string) {
    |suffix| <= |s| && s[|s| - |suffix|..] == suffix
  }

  /** `s.split(d)` for a one-character separator: the maximal pieces between separators,
      at least one of them. */
  function Split(s: string, d: char): (parts: seq<string>)
    ensures |parts| >= 1
    decreases |s|
  {
    if s == [] then [""]
    else
      var rest := Split(s[1..], d);
      if s[0] == d then [""] + rest
      else [[s[0]] + rest[0]] + rest[1..]
  }

  /** No piece holds the separator; a string without it is its own only piece, and a
      string with it has at least two. */
  lemma {:induction false} SplitShape(s: string, d: char)
    ensures forall i :: 0 <= i < |Split(s, d)| ==> d !in Split(s, d)[i]
    ensures d !in s ==> Split(s, d) == [s]
    ensures d in s ==> |Split(s, d)| >= 2
    decreases |s|
  {
    if s != [] {
      SplitShape(s[1..], d);
      var rest := Split(s[1..], d);
      if s[0] != d {
        var parts := Split(s, d);
        assert parts == [[s[0]] + rest[0]] + rest[1..];
        forall i | 0 <= i < |parts| ensures d !in parts[i] {
          if i > 0 {
            assert parts[i] == rest[i];
          }
        }
        if d !in s {
          assert d !in s[1..] && rest == [s[1..]];
          assert [s[0]] + s[1..] == s;
        }
        if d in s {
          assert d in s[1..];
        }
      }
    }
  }

  /** One step of `Split`: the first character either is a separator, opening a new
      piece, or joins the first piece of the rest. */
  lemma SplitCons(s: string, d: char)
    requires s != []
    ensures Split(s, d) == if s[0] == d then [""] + Split(s[1..], d)
      else [[s[0]] + Split(s[1..], d)[0]] + Split(s[1..], d)[1..]
  {
  }

  /** A separator between two strings separates their pieces. */
  lemma {:induction false} SplitConcat(a: string, d: char, b: string)
    ensures Split(a + [d] + b, d) == Split(a, d) + Split(b, d)
    decreases |a|
  {
    var s := a + [d] + b;
    if a == [] {
      assert s == [d] + b && s[1..] == b;
    } else {
      assert s[1..] == a[1..] + [d] + b;
      SplitConcat(a[1..], d, b);
      SplitCons(s, d);
      SplitCons(a, d);
    }
  }

  /** `parts.join(sep)`. */
  function Join(parts: seq<string>, sep: string): string {
    if parts == [] then ""
    else if |parts| == 1 then parts[0]
    else parts[0] + sep + Join(parts[1..], sep)
  }

  /** Splitting and joining back with the same separator gives the original string. */
  lemma {:induction false} JoinSplit(s: string, d: char)
    ensures Join(Split(s, d), [d]) == s
    decreases |s|
  {
    if s != [] {
      var rest := Split(s[1..], d);
      JoinSplit(s[1..], d);
      if s[0] == d {
        assert Split(s, d) == [""] + rest;
        assert s == [d] + s[1..];
      } else {
        var parts := Split(s, d);
        assert parts == [[s[0]] + rest[0]] + rest[1..];
        if |rest| == 1 {
          assert rest == [s[1..]];
        } else {
          assert rest == [rest[0]] + rest[1..];
          assert Join(rest, [d]) == rest[0] + [d] + Join(rest[1..], [d]);
        }
      }
    }
  }

  /** Decimal digits of a natural number, as `String(n)` writes them. */
  function NatToString(n: nat): (r: string)
    ensures |r| >= 1 && AllDigits(r)
    decreases n
  {
    if n < 10 then [('0' as int + n) as char]
    else NatToString(n / 10) + [('0' as int + n % 10) as char]
  }

  /** `String(n)` for an integer. */
  function IntToString(n: int): (r: string)
    ensures |r| >= 1
    ensures forall i :: 0 <= i < |r| ==> IsDigit(r[i]) || r[i] == '-'
    ensures 0 <= n ==> AllDigits(r)
  {
    if n < 0 then "-" + NatToString(-n) else NatToString(n)
  }

  /** `String(n).padStart(2, "0")`. */
  function PadTwo(s: string): (r: string)
    ensures |r| >= 2
    ensures |s| <= 2 ==> |r| == 2
    ensures AllDigits(s) ==> AllDigits(r)
  {
    if |s| == 0 then "00" else if |s| == 1 then "0" + s else s
  }
}
