/** The JavaScript string and number primitives the frontend relies on:
    `trim`, `includes`, `split(",")`, `String(n)`, `parseInt(s, 10)`,
    `parseFloat(s)` and the string-to-number conversion behind `isNaN(s)`.
    Numbers are modelled on decimal literals only (see README). */
module Text {
  import opened Wrappers

  /** The characters JavaScript's `trim` removes and the regular-expression
      class `\s` matches (WhiteSpace and LineTerminator). */
  predicate IsSpace(c: char) {
    || c == ' ' || c == '\t' || c == '\n' || c == '\r'
    || c == '\U{000B}' || c == '\U{000C}' || c == '\U{00A0}' || c == '\U{1680}'
    || ('\U{2000}' <= c <= '\U{200A}')
    || c == '\U{2028}' || c == '\U{2029}' || c == '\U{202F}' || c == '\U{205F}'
    || c == '\U{3000}' || c == '\U{FEFF}'
  }

  predicate IsDigit(c: char) {
    '0' <= c <= '9'
  }

  predicate AllSpace(s: string) {
    forall i :: 0 <= i < |s| ==> IsSpace(s[i])
  }

  predicate AllDigits(s: string) {
    forall i :: 0 <= i < |s| ==> IsDigit(s[i])
  }

  // ---------------------------------------------------------------------------
  // trim
  // ---------------------------------------------------------------------------

  /** The first index at or after `i` that does not hold white space. */
  function SkipSpaceFrom(s: string, i: nat): (j: nat)
    requires i <= |s|
    ensures i <= j <= |s|
    ensures forall k :: i <= k < j ==> IsSpace(s[k])
    ensures j < |s| ==> !IsSpace(s[j])
    decreases |s| - i
  {
    if i < |s| && IsSpace(s[i]) then SkipSpaceFrom(s, i + 1) else i
  }

  /** The least `j` with `lo <= j <= hi` such that `s[j..hi]` is all white space. */
  function BackSpaceTo(s: string, lo: nat, hi: nat): (j: nat)
    requires lo <= hi <= |s|
    ensures lo <= j <= hi
    ensures forall k :: j <= k < hi ==> IsSpace(s[k])
    ensures j > lo ==> !IsSpace(s[j - 1])
    decreases hi
  {
    if hi > lo && IsSpace(s[hi - 1]) then BackSpaceTo(s, lo, hi - 1) else hi
  }

  /** `trimStart`: the suffix left after dropping leading white space. */
  function TrimStart(s: string): (r: string)
    ensures |r| <= |s| && r == s[|s| - |r|..]
    ensures forall k :: 0 <= k < |s| - |r| ==> IsSpace(s[k])
    ensures r != [] ==> !IsSpace(r[0])
  {
    if s != [] && IsSpace(s[0]) then
      var r := TrimStart(s[1..]);
      assert forall k :: 1 <= k < |s| - |r| ==> s[k] == s[1..][k - 1];
      r
    else s
  }

  /** A string not starting with white space is its own `trimStart`. */
  lemma TrimStartOfUnspaced(s: string)
    requires s != [] ==> !IsSpace(s[0])
    ensures TrimStart(s) == s
  {
  }

  /** `trim`: the middle slice of `s` between white-space margins. */
  function Trim(s: string): (r: string)
    ensures |r| <= |s|
    ensures TrimmedMargins(s, r, SkipSpaceFrom(s, 0))
    ensures r == [] <==> AllSpace(s)
    ensures r != [] ==> !IsSpace(r[0]) && !IsSpace(r[|r| - 1])
  {
    var i := SkipSpaceFrom(s, 0);
    var j := BackSpaceTo(s, i, |s|);
    assert j > i ==> !IsSpace(s[i]);
    s[i..j]
  }

  /** `r` is `s` with the white space before index `i` and after `i + |r|` cut off. */
  predicate TrimmedMargins(s: string, r: string, i: int) {
    && 0 <= i <= |s| - |r|
    && r == s[i..i + |r|]
    && (forall k :: 0 <= k < i ==> IsSpace(s[k]))
    && (forall k :: i + |r| <= k < |s| ==> IsSpace(s[k]))
  }

  /** A string that is not all white space trims to one that starts and
      ends with something else. */
  lemma TrimmedEnds(s: string)
    requires !AllSpace(s)
    ensures var t := Trim(s); t != [] && !IsSpace(t[0]) && !IsSpace(t[|t| - 1])
  {
  }

  /** Trimming twice is trimming once. */
  lemma TrimIdempotent(s: string)
    ensures Trim(Trim(s)) == Trim(s)
  {
    TrimOfTrimmed(Trim(s));
  }

  /** A string with no white space at either end is its own trim. */
  lemma TrimOfTrimmed(s: string)
    requires s != [] ==> !IsSpace(s[0]) && !IsSpace(s[|s| - 1])
    ensures Trim(s) == s
  {
    if s != [] {
      assert SkipSpaceFrom(s, 0) == 0;
      assert BackSpaceTo(s, 0, |s|) == |s|;
    }
  }

  /** The forms' required-field rule `if (!s.trim())`: `message` when the
      field is blank after trimming, nothing otherwise. */
  function BlankMessage(s: string, message: string): (m: Option<string>)
    ensures m.None? <==> !AllSpace(s)
    ensures m.Some? ==> m.value == message
  {
    if Trim(s) == [] then Some(message) else None
  }

  /** `s.length`: the number of UTF-16 code units, two for a character
      outside the Basic Multilingual Plane. */
  function Utf16Length(s: string): (n: nat)
    ensures |s| <= n <= 2 * |s|
    ensures (forall i :: 0 <= i < |s| ==> s[i] <= '\U{FFFF}') ==> n == |s|
  {
    if s == [] then 0 else (if s[0] > '\U{FFFF}' then 2 else 1) + Utf16Length(s[1..])
  }

  /** One character is one code unit, or two outside the Basic Multilingual
      Plane. */
  lemma Utf16LengthOfChar(c: char)
    ensures Utf16Length([c]) == if c > '\U{FFFF}' then 2 else 1
  {
    assert [c][1..] == [];
  }

  /** The code units of a concatenation are those of its parts. */
  lemma {:induction false} Utf16LengthAppend(a: string, b: string)
    ensures Utf16Length(a + b) == Utf16Length(a) + Utf16Length(b)
  {
    if a != [] {
      Utf16LengthAppend(a[1..], b);
      assert (a + b)[1..] == a[1..] + b;
    } else {
      assert a + b == b;
    }
  }

  // ---------------------------------------------------------------------------
  // includes and split
  // ---------------------------------------------------------------------------

  /** `s.includes(pat)`. */
  predicate Contains(s: string, pat: string) {
    StartsWith(s, pat) || (s != [] && Contains(s[1..], pat))
  }

  predicate StartsWith(s: string, pat: string) {
    |pat| <= |s| && s[..|pat|] == pat
  }

  /** An occurrence at any position is found by `includes`. */
  lemma {:induction false} ContainsAt(s: string, pat: string, i: nat)
    requires i <= |s| && StartsWith(s[i..], pat)
    ensures Contains(s, pat)
  {
    if i > 0 {
      assert s[1..][i - 1..] == s[i..];
      ContainsAt(s[1..], pat, i - 1);
    }
  }

  /** Number of occurrences of `c` in `s`. */
  function CountChar(s: string, c: char): nat {
    if s == [] then 0 else (if s[0] == c then 1 else 0) + CountChar(s[1..], c)
  }

  /** `s.split(sep)` for a one-character separator: one piece more than there are
      separators, and no piece holds the separator. */
  function Split(s: string, sep: char): (pieces: seq<string>)
    ensures |pieces| == CountChar(s, sep) + 1
    ensures forall k :: 0 <= k < |pieces| ==> sep !in pieces[k]
  {
    if s == [] then [""]
    else
      var rest := Split(s[1..], sep);
      if s[0] == sep then [""] + rest
      else [[s[0]] + rest[0]] + rest[1..]
  }

  /** `pieces.join(sep)`, the inverse of Split. */
  function Join(pieces: seq<string>, sep: char): string
    requires |pieces| >= 1
  {
    if |pieces| == 1 then pieces[0] else pieces[0] + [sep] + Join(pieces[1..], sep)
  }

  /** Splitting loses nothing: joining the pieces back gives the input. */
  lemma {:induction false} JoinSplit(s: string, sep: char)
    ensures Join(Split(s, sep), sep) == s
  {
    if s != [] {
      var rest := Split(s[1..], sep);
      JoinSplit(s[1..], sep);
      if s[0] == sep {
        assert Split(s, sep)[1..] == rest;
      } else {
        var p := Split(s, sep);
        if |rest| == 1 {
          assert p == [[s[0]] + rest[0]];
        } else {
          assert p[1..] == rest[1..];
          assert Join(rest, sep) == rest[0] + [sep] + Join(rest[1..], sep);
        }
      }
    }
  }

  /** Splitting at one separator splits the two sides apart. */
  lemma {:induction false} SplitAppend(a: string, b: string, sep: char)
    ensures Split(a + [sep] + b, sep) == Split(a, sep) + Split(b, sep)
  {
    var s := a + [sep] + b;
    if a == [] {
      assert s[1..] == b;
    } else {
      assert s[1..] == a[1..] + [sep] + b;
      SplitAppend(a[1..], b, sep);
    }
  }

  /** A string without the separator is a single piece. */
  lemma SplitWithoutSeparator(s: string, sep: char)
    requires sep !in s
    ensures Split(s, sep) == [s]
  {
    CountAbsent(s, sep);
    JoinSplit(s, sep);
  }

  lemma {:induction false} CountAbsent(s: string, c: char)
    requires c !in s
    ensures CountChar(s, c) == 0
  {
    if s != [] {
      assert s[0] != c;
      forall i | 0 <= i < |s[1..]| ensures s[1..][i] != c {
        assert s[1..][i] == s[i + 1];
      }
      CountAbsent(s[1..], c);
    }
  }

  // ---------------------------------------------------------------------------
  // Decimal digits
  // ---------------------------------------------------------------------------

  function DigitValue(c: char): nat
    requires IsDigit(c)
  {
    (c as int - '0' as int) as nat
  }

  function DigitChar(d: nat): (c: char)
    requires d < 10
    ensures IsDigit(c) && DigitValue(c) == d
  {
    ('0' as int + d) as char
  }

  /** Length of the run of decimal digits at the start of `s`. */
  function DigitRun(s: string): (n: nat)
    ensures n <= |s| && AllDigits(s[..n])
    ensures n < |s| ==> !IsDigit(s[n])
  {
    if s != [] && IsDigit(s[0]) then 1 + DigitRun(s[1..]) else 0
  }

  /** Value of a digit string read in base 10 (most significant digit first). */
  function DigitsValue(ds: string): nat
    requires AllDigits(ds)
  {
    if ds == [] then 0 else 10 * DigitsValue(ds[..|ds| - 1]) + DigitValue(ds[|ds| - 1])
  }

  function Pow10(k: nat): (p: nat)
    ensures p >= 1
  {
    if k == 0 then 1 else 10 * Pow10(k - 1)
  }

  /** Decimal digits of `n`, without leading zeros. */
  function NatToString(n: nat): (r: string)
    ensures |r| >= 1 && AllDigits(r)
    ensures |r| > 1 ==> r[0] != '0'
    ensures DigitsValue(r) == n
  {
    if n < 10 then [DigitChar(n)]
    else
      var r := NatToString(n / 10) + [DigitChar(n % 10)];
      assert r[..|r| - 1] == NatToString(n / 10);
      r
  }

  /** `String(n)` for an integer. */
  function IntToString(n: int): (r: string)
    ensures r != [] && !IsSpace(r[0])
  {
    if n < 0 then "-" + NatToString(-n) else NatToString(n)
  }

  // ---------------------------------------------------------------------------
  // parseInt(s, 10)
  // ---------------------------------------------------------------------------

  /** `parseInt(s, 10)`: skip leading white space, read an optional sign and the
      longest run of digits; `None` (NaN) when there is no digit. */
  function ParseInt(s: string): (r: Option<int>)
    ensures r.None? <==> DigitRun(SignFree(TrimStart(s))) == 0
  {
    var t := TrimStart(s);
    var u := SignFree(t);
    var n := DigitRun(u);
    if n == 0 then None
    else Some(if IsNegative(t) then -(DigitsValue(u[..n]) as int) else DigitsValue(u[..n]) as int)
  }

  predicate IsNegative(t: string) {
    t != [] && t[0] == '-'
  }

  /** `t` without its leading sign character, if any. */
  function SignFree(t: string): (u: string)
    ensures u == t || (t != [] && (t[0] == '+' || t[0] == '-') && u == t[1..])
  {
    if t != [] && (t[0] == '+' || t[0] == '-') then t[1..] else t
  }

  /** `parseInt` reads back what `String` writes. */
  lemma ParseIntOfIntToString(n: int)
    ensures ParseInt(IntToString(n)) == Some(n)
  {
    if n < 0 {
      ParseIntOfNegativeDigits(NatToString(-n));
    } else {
      ParseIntOfDigits(NatToString(n));
    }
  }

  /** A run of digits reads back as its value. */
  lemma ParseIntOfDigits(ds: string)
    requires ds != [] && AllDigits(ds)
    ensures ParseInt(ds) == Some(DigitsValue(ds) as int)
  {
    assert IsDigit(ds[0]);
    TrimStartOfUnspaced(ds);
    assert SignFree(ds) == ds && !IsNegative(ds);
    DigitRunOfDigits(ds);
    assert ds[..|ds|] == ds;
  }

  /** A run of digits behind `-` reads back as the negated value. */
  lemma ParseIntOfNegativeDigits(ds: string)
    requires ds != [] && AllDigits(ds)
    ensures ParseInt("-" + ds) == Some(-(DigitsValue(ds) as int))
  {
    NegativeSign(ds);
    DigitRunOfDigits(ds);
    ParseIntOfSigned("-" + ds, ds);
  }

  /** `parseInt` of a string with no leading white space whose sign is `-`
      and whose digits run to its end. */
  lemma ParseIntOfSigned(s: string, ds: string)
    requires TrimStart(s) == s && SignFree(s) == ds && IsNegative(s)
    requires AllDigits(ds) && ds != [] && DigitRun(ds) == |ds|
    ensures ParseInt(s) == Some(-(DigitsValue(ds) as int))
  {
    assert ds[..|ds|] == ds;
  }

  /** `"-" + ds` needs no trimming and its sign is `-`. */
  lemma NegativeSign(ds: string)
    requires ds != [] && AllDigits(ds)
    ensures TrimStart("-" + ds) == "-" + ds
    ensures SignFree("-" + ds) == ds && IsNegative("-" + ds)
  {
    var s := "-" + ds;
    TrimStartOfUnspaced(s);
    assert s[1..] == ds;
  }

  lemma {:induction false} DigitRunOfDigits(ds: string)
    requires AllDigits(ds)
    ensures DigitRun(ds) == |ds|
  {
    if ds != [] {
      DigitRunOfDigits(ds[1..]);
    }
  }

  /** `String` is injective on integers, so distinct ids give distinct strings. */
  lemma IntToStringInjective(a: int, b: int)
    requires IntToString(a) == IntToString(b)
    ensures a == b
  {
    ParseIntOfIntToString(a);
    ParseIntOfIntToString(b);
  }

  // ---------------------------------------------------------------------------
  // Number(s) and parseFloat(s)
  // ---------------------------------------------------------------------------

  /** The longest decimal literal `[+-]? (D+ (. D*)? | . D+)` at the start of a
      string: how many characters it spans and its value. */
  datatype Scan = Scan(length: nat, value: real)

  function Fraction(ds: string): real
    requires AllDigits(ds)
  {
    DigitsValue(ds) as real / Pow10(|ds|) as real
  }

  function ScanDecimal(t: string): (r: Option<Scan>)
    ensures r.Some? ==> 0 < r.value.length <= |t|
  {
    var u := SignFree(t);
    var signLen := |t| - |u|;
    var n := DigitRun(u);
    var whole := DigitsValue(u[..n]) as real;
    if n < |u| && u[n] == '.' then
      var f := DigitRun(u[n + 1..]);
      assert AllDigits(u[n + 1..][..f]);
      if n == 0 && f == 0 then None
      else
        var v := whole + Fraction(u[n + 1..][..f]);
        Some(Scan(signLen + n + 1 + f, if IsNegative(t) then -v else v))
    else if n == 0 then None
    else Some(Scan(signLen + n, if IsNegative(t) then -whole else whole))
  }

  /** JavaScript's string-to-number conversion (`Number(s)`, used by `isNaN`):
      a blank string is 0, otherwise the trimmed string must be one whole
      decimal literal; `None` is NaN. */
  function ToNumber(s: string): (r: Option<real>)
    ensures AllSpace(s) ==> r == Some(0.0)
  {
    var t := Trim(s);
    if t == [] then Some(0.0)
    else match ScanDecimal(t)
      case Some(sc) => if sc.length == |t| then Some(sc.value) else None
      case None => None
  }

  /** `isNaN(s)` on a string. */
  predicate IsNaN(s: string) {
    ToNumber(s).None?
  }

  /** `parseFloat(s)`: the longest decimal literal after leading white space. */
  function ParseFloat(s: string): (r: Option<real>)
    ensures AllSpace(s) ==> r.None?
  {
    var t := TrimStart(s);
    assert AllSpace(s) ==> t == [];
    match ScanDecimal(t)
    case Some(sc) => Some(sc.value)
    case None => None
  }

  /** A digit string scans as one whole decimal literal of its own value. */
  lemma ScanOfNatString(n: nat)
    ensures ScanDecimal(NatToString(n)) == Some(Scan(|NatToString(n)|, n as real))
  {
    var ds := NatToString(n);
    assert IsDigit(ds[0]);
    assert SignFree(ds) == ds;
    DigitRunOfDigits(ds);
    assert ds[..|ds|] == ds;
  }

  /** `Number`, `parseFloat` and `parseInt` all read back what `String` writes
      for a non-negative integer. */
  lemma NumberOfNatString(n: nat)
    ensures ToNumber(NatToString(n)) == Some(n as real)
    ensures ParseFloat(NatToString(n)) == Some(n as real)
    ensures ParseInt(NatToString(n)) == Some(n)
  {
    var ds := NatToString(n);
    assert IsDigit(ds[0]) && IsDigit(ds[|ds| - 1]);
    TrimOfTrimmed(ds);
    TrimStartOfUnspaced(ds);
    ScanOfNatString(n);
    ParseIntOfIntToString(n);
  }
}
