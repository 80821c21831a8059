/**
 * The parts of Go's standard library that parsePingOutput and ToJoson rely on,
 * each modelled on the inputs the parser can give it: RE2's character classes,
 * strings.Split with a one-character separator, strconv.ParseUint in base 10
 * with bit size 32 (and the text of the error it returns), strconv.ParseFloat
 * on the numerals the loss pattern admits, and the one-decimal rendering of a
 * loss. Floating-point values are represented exactly, as counts of tenths.
 */
module GoLib {

  /** RE2's `\s`: tab, newline, form feed, carriage return and space (no vertical tab). */
  predicate IsSpace(c: char) {
    c == '\t' || c == '\n' || c == '\U{000C}' || c == '\r' || c == ' '
  }

  predicate IsDigit(c: char) {
    '0' <= c <= '9'
  }

  predicate AllDigits(s: string) {
    forall i :: 0 <= i < |s| ==> IsDigit(s[i])
  }

  function DigitValue(c: char): (d: nat)
    requires IsDigit(c)
    ensures d < 10
  {
    (c as int) - ('0' as int)
  }

  function DigitChar(d: nat): (c: char)
    requires d < 10
    ensures IsDigit(c) && DigitValue(c) == d
  {
    (('0' as int) + d) as char
  }

  /** The value of a run of decimal digits, most significant digit first. */
  function DecimalValue(s: string): nat
    requires AllDigits(s)
  {
    if s == [] then 0 else DecimalValue(s[..|s| - 1]) * 10 + DigitValue(s[|s| - 1])
  }

  /** The decimal numeral of n, without leading zeros. */
  function DecimalString(n: nat): (s: string)
    ensures s != [] && AllDigits(s)
  {
    if n < 10 then [DigitChar(n)] else DecimalString(n / 10) + [DigitChar(n % 10)]
  }

  lemma {:induction false} DecimalRoundTrip(n: nat)
    ensures DecimalValue(DecimalString(n)) == n
  {
    if n >= 10 {
      DecimalRoundTrip(n / 10);
      var s := DecimalString(n);
      assert s[..|s| - 1] == DecimalString(n / 10);
    }
  }

  /** Appending digits never makes a digit run smaller. */
  lemma {:induction false} DecimalValueGrows(p: string, q: string)
    requires AllDigits(p + q)
    ensures AllDigits(p) && DecimalValue(p) <= DecimalValue(p + q)
  {
    assert forall i :: 0 <= i < |p| ==> (p + q)[i] == p[i];
    if q == [] {
      assert p + q == p;
    } else {
      var q' := q[..|q| - 1];
      assert (p + q)[..|p + q| - 1] == p + q';
      assert forall i :: 0 <= i < |p + q'| ==> (p + q')[i] == (p + q)[i];
      DecimalValueGrows(p, q');
    }
  }

  // ---------------------------------------------------------------------------
  // strings.Split

  /** The index of the first occurrence of c in s. */
  function IndexOf(s: string, c: char): (k: nat)
    requires c in s
    ensures k < |s| && s[k] == c && c !in s[..k]
  {
    if s[0] == c then 0
    else
      var k := IndexOf(s[1..], c) + 1;
      assert s[..k] == [s[0]] + s[1..][..k - 1];
      k
  }

  /** strings.Split(s, sep) for a one-character sep: the pieces between the separators, in order. */
  function Split(s: string, sep: char): (parts: seq<string>)
    ensures |parts| >= 1
    ensures forall i :: 0 <= i < |parts| ==> sep !in parts[i]
    decreases |s|
  {
    if sep !in s then [s]
    else
      var k := IndexOf(s, sep);
      var rest := Split(s[k + 1..], sep);
      assert forall i :: 1 <= i < |rest| + 1 ==> ([s[..k]] + rest)[i] == rest[i - 1];
      [s[..k]] + rest
  }

  /** strings.Join, the inverse of Split. */
  function Join(parts: seq<string>, sep: char): string
    requires |parts| >= 1
  {
    if |parts| == 1 then parts[0] else parts[0] + [sep] + Join(parts[1..], sep)
  }

  lemma {:induction false} JoinSplit(s: string, sep: char)
    ensures Join(Split(s, sep), sep) == s
    decreases |s|
  {
    if sep in s {
      var k := IndexOf(s, sep);
      var rest := Split(s[k + 1..], sep);
      var parts := Split(s, sep);
      assert parts == [s[..k]] + rest;
      assert parts[0] == s[..k] && parts[1..] == rest;
      assert Join(parts, sep) == s[..k] + [sep] + Join(rest, sep);
      JoinSplit(s[k + 1..], sep);
      assert s == s[..k] + [sep] + s[k + 1..];
    }
  }

  /** Split yields one piece more than there are separators. */
  lemma {:induction false} SplitPieces(s: string, sep: char)
    ensures |Split(s, sep)| == multiset(s)[sep] + 1
    decreases |s|
  {
    if sep !in s {
      assert multiset(s)[sep] == 0;
    } else {
      var k := IndexOf(s, sep);
      SplitPieces(s[k + 1..], sep);
      assert s == s[..k] + [sep] + s[k + 1..];
      assert multiset(s) == multiset(s[..k]) + multiset{sep} + multiset(s[k + 1..]);
      assert multiset(s[..k])[sep] == 0;
    }
  }

  /** Splitting at a first separator: the text before it is the first piece. */
  lemma SplitAtFirst(p: string, sep: char, rest: string)
    requires sep !in p
    ensures Split(p + [sep] + rest, sep) == [p] + Split(rest, sep)
  {
    var s := p + [sep] + rest;
    assert s[|p|] == sep;
    var k := IndexOf(s, sep);
    assert s[..k] == p;
    assert s[k + 1..] == rest;
  }

  // ---------------------------------------------------------------------------
  // strconv.ParseUint(s, 10, 32)

  const MaxUint32: nat := 0xFFFF_FFFF

  /** strconv's two failure reasons: ErrSyntax and ErrRange. */
  datatype NumErrorKind = ErrSyntax | ErrRange

  datatype NumResult = Parsed(value: nat) | NumFailed(kind: NumErrorKind)

  /** strconv.ParseUint(s, 10, 32). */
  function ParseUint32(s: string): (r: NumResult)
    ensures r.Parsed? ==> r.value <= MaxUint32 && s != [] && AllDigits(s)
  {
    if s == [] then NumFailed(ErrSyntax) else ScanUint32(s, 0, 0)
  }

  /**
   * ParseUint's loop, from index i with n accumulated so far. Go checks each
   * byte in turn: a byte that is not a base-10 digit is a syntax error, and a
   * digit that takes the value past 2^32 - 1 is a range error at once, before
   * any later byte is looked at. Go's separate test against the 64-bit
   * cutoff never fires here, because n stays at most 2^32 - 1.
   */
  function ScanUint32(s: string, i: nat, n: nat): (r: NumResult)
    requires i <= |s| && n <= MaxUint32
    ensures r.Parsed? ==> r.value <= MaxUint32 && r.value >= n && AllDigits(s[i..])
    decreases |s| - i
  {
    if i == |s| then Parsed(n)
    else if !IsDigit(s[i]) then NumFailed(ErrSyntax)
    else if n * 10 + DigitValue(s[i]) > MaxUint32 then NumFailed(ErrRange)
    else
      var r := ScanUint32(s, i + 1, n * 10 + DigitValue(s[i]));
      assert r.Parsed? ==> forall k :: 1 <= k < |s| - i ==> s[i..][k] == s[i + 1..][k - 1];
      r
  }

  /**
   * ParseUint on a non-empty digit run d followed by text t that does not
   * start with a digit: the value of d when it fits in 32 bits and t is empty,
   * a range error when d is too large (whatever t is), a syntax error otherwise.
   */
  lemma ParseUint32OfDigitRun(d: string, t: string)
    requires d != [] && AllDigits(d)
    requires t == [] || !IsDigit(t[0])
    ensures ParseUint32(d + t) ==
      if DecimalValue(d) > MaxUint32 then NumFailed(ErrRange)
      else if t == [] then Parsed(DecimalValue(d))
      else NumFailed(ErrSyntax)
  {
    assert d[..0] == [];
    ScanDigitRun(d, t, 0);
  }

  lemma {:induction false} ScanDigitRun(d: string, t: string, i: nat)
    requires AllDigits(d) && i <= |d|
    requires t == [] || !IsDigit(t[0])
    requires AllDigits(d[..i]) && DecimalValue(d[..i]) <= MaxUint32
    ensures ScanUint32(d + t, i, DecimalValue(d[..i])) ==
      if DecimalValue(d) > MaxUint32 then NumFailed(ErrRange)
      else if t == [] then Parsed(DecimalValue(d))
      else NumFailed(ErrSyntax)
    decreases |d| - i
  {
    var s := d + t;
    if i == |d| {
      assert d[..i] == d;
      if t != [] {
        assert s[i] == t[0];
      }
    } else {
      assert s[i] == d[i];
      var next := d[..i + 1];
      assert next[..i] == d[..i];
      assert AllDigits(next);
      assert DecimalValue(next) == DecimalValue(d[..i]) * 10 + DigitValue(d[i]);
      if DecimalValue(next) > MaxUint32 {
        assert next + d[i + 1..] == d;
        DecimalValueGrows(next, d[i + 1..]);
      } else {
        ScanDigitRun(d, t, i + 1);
      }
    }
  }

  // ---------------------------------------------------------------------------
  // The text of a *strconv.NumError

  /** strconv.Quote on the characters a rejected count can hold: digits, letters and RE2 spaces. */
  function Quote(s: string): (q: string)
    ensures |q| >= 2 && q[0] == '"' && q[|q| - 1] == '"'
  {
    "\"" + Escape(s) + "\""
  }

  function Escape(s: string): string
  {
    if s == [] then [] else EscapeChar(s[0]) + Escape(s[1..])
  }

  function EscapeChar(c: char): string
  {
    if c == '\t' then "\\t"
    else if c == '\n' then "\\n"
    else if c == '\U{000C}' then "\\f"
    else if c == '\r' then "\\r"
    else if c == '"' then "\\\""
    else if c == '\\' then "\\\\"
    else [c]
  }

  /** Digits are quoted as they are. */
  lemma {:induction false} QuoteDigits(d: string)
    requires AllDigits(d)
    ensures Quote(d) == "\"" + d + "\""
  {
    EscapeDigits(d);
  }

  lemma {:induction false} EscapeDigits(d: string)
    requires AllDigits(d)
    ensures Escape(d) == d
  {
    if d != [] {
      EscapeDigits(d[1..]);
      assert d == [d[0]] + d[1..];
    }
  }

  /** err.Error() of the *NumError that ParseUint returns for num. */
  function NumErrorText(kind: NumErrorKind, num: string): (t: string)
    ensures |t| > 27 && t[..27] == "strconv.ParseUint: parsing "
  {
    "strconv.ParseUint: parsing " + Quote(num) + ": "
      + (if kind == ErrSyntax then "invalid syntax" else "value out of range")
  }

  /** The text of ParseUint's range error for a run of digits quotes the digits unchanged. */
  lemma RangeErrorTextOfDigits(d: string)
    requires AllDigits(d)
    ensures NumErrorText(ErrRange, d) == "strconv.ParseUint: parsing \"" + d + "\": value out of range"
  {
    QuoteDigits(d);
  }

  // ---------------------------------------------------------------------------
  // strconv.ParseFloat(s, 64) on loss numerals, and "%3.1f" of a loss

  /** What the loss pattern admits before its `%`: one digit, or digits, a point and one digit. */
  predicate IsLossNumeral(s: string) {
    |s| >= 1 && IsDigit(s[|s| - 1]) &&
    (|s| == 1 || (s[|s| - 2] == '.' && AllDigits(s[..|s| - 2])))
  }

  /**
   * A loss numeral's digits read in tenths: the point dropped, or a zero
   * tenths digit appended when there is no point ("5" gives "50", "12.5"
   * gives "125", ".5" gives "5").
   */
  function TenthsDigits(s: string): (d: string)
    requires IsLossNumeral(s)
    ensures d != [] && AllDigits(d)
  {
    if |s| == 1 then s + "0" else s[..|s| - 2] + [s[|s| - 1]]
  }

  /** Appending a digit multiplies a run's value by ten and adds the digit. */
  lemma DecimalValueAppend(w: string, c: char)
    requires AllDigits(w) && IsDigit(c)
    ensures AllDigits(w + [c]) && DecimalValue(w + [c]) == DecimalValue(w) * 10 + DigitValue(c)
  {
    assert (w + [c])[..|w|] == w;
  }

  /** The exact value of a loss numeral, in tenths: ten times its whole part plus its tenths digit. */
  function NumeralTenths(s: string): (t: nat)
    requires IsLossNumeral(s)
    ensures t == DecimalValue(TenthsDigits(s))
  {
    if |s| == 1 then
      DecimalValueAppend([], s[0]);
      assert [] + [s[0]] == s;
      DecimalValueAppend(s, '0');
      DigitValue(s[0]) * 10
    else
      DecimalValueAppend(s[..|s| - 2], s[|s| - 1]);
      DecimalValue(s[..|s| - 2]) * 10 + DigitValue(s[|s| - 1])
  }

  /**
   * 2^1024 - 2^970, in tenths: the least value that rounding to the nearest
   * float64 (ties to even) carries past the largest finite float64 to +Inf.
   * ParseFloat reports ErrRange from there on.
   */
  const FloatOverflowTenths: nat := 1797693134862315807937289714053034150799341327100378269361737789804449682927647509466490179775872070963302864166928879109465555478519404026306574886715058206819089020007083836762738548458177115317644757302700698555713669596228429148198608349364752927190741684443655107043427115596995080930428801779041744977920

  /**
   * strconv.ParseFloat(s, 64) on a loss numeral: the numeral's digits read in
   * tenths, or ErrRange once float64 overflows.
   */
  function ParseFloatTenths(s: string): (r: NumResult)
    requires IsLossNumeral(s)
    ensures r.Parsed? <==> DecimalValue(TenthsDigits(s)) < FloatOverflowTenths
    ensures r.Parsed? ==> r.value == DecimalValue(TenthsDigits(s))
    ensures r.NumFailed? ==> r.kind == ErrRange
  {
    var t := NumeralTenths(s);
    if t >= FloatOverflowTenths then NumFailed(ErrRange) else Parsed(t)
  }

  /**
   * fmt.Sprintf("%3.1f", v) for v = tenths / 10: whole part, point, one
   * decimal. The rendering is a loss numeral whose digits read in tenths give
   * back the value.
   */
  function FormatTenths(tenths: nat): (s: string)
    ensures |s| >= 3 && s[|s| - 2] == '.'
    ensures IsLossNumeral(s) && DecimalValue(TenthsDigits(s)) == tenths
  {
    var w := DecimalString(tenths / 10);
    var c := DigitChar(tenths % 10);
    var s := w + "." + [c];
    assert s[..|s| - 2] == w;
    DecimalRoundTrip(tenths / 10);
    DecimalValueAppend(w, c);
    s
  }

  /** Rendering a loss and parsing the rendering back gives the same loss. */
  lemma FormatThenParseFloat(tenths: nat)
    requires tenths < FloatOverflowTenths
    ensures IsLossNumeral(FormatTenths(tenths))
    ensures ParseFloatTenths(FormatTenths(tenths)) == Parsed(tenths)
  {
  }
}
