/**
 * The four regular expressions of pingResult.go, each as a hand-written
 * matcher that follows Go's RE2 leftmost-first semantics, and findingPattern,
 * which returns the text of the leftmost match.
 *
 *   regexpSubmitted    [0-9]+\stransactions submitted
 *   regexpConfirmed    [0-9]+\stransactions confirmed
 *   regexpLoss         ([0-9]*[.])?[0-9]%\stransaction loss
 *   regexpConfirmation min/mean/max/stddev\s*=\s*[\s\S]*ms
 *
 * MatchAt(p, s, i) is the end of the match that RE2 prefers among those
 * starting at i (None when none starts there); FindIndex takes the least such
 * start, as regexp.FindIndex does.
 */
module Patterns {
  import opened Wrappers
  import opened GoLib
  import opened Errors

  datatype Pattern = SubmittedPattern | ConfirmedPattern | LossPattern | ConfirmationPattern

  const CountNoun: string := "transactions"
  const LossWords: string := "transaction loss"
  const StatsHeader: string := "min/mean/max/stddev"
  const MsUnit: string := "ms"

  predicate IsCountPattern(p: Pattern) {
    p == SubmittedPattern || p == ConfirmedPattern
  }

  /** The last word of a count pattern. */
  function CountVerb(p: Pattern): string
    requires IsCountPattern(p)
  {
    if p == SubmittedPattern then "submitted" else "confirmed"
  }

  /** The literal words that follow the count in a count pattern. */
  function CountWords(p: Pattern): string
    requires IsCountPattern(p)
  {
    CountNoun + " " + CountVerb(p)
  }

  /** s holds the literal lit at index i. */
  predicate HasAt(s: string, i: nat, lit: string) {
    i + |lit| <= |s| && s[i..i + |lit|] == lit
  }

  /** The end of the longest run of digits starting at i. */
  function DigitRunEnd(s: string, i: nat): (j: nat)
    requires i <= |s|
    ensures i <= j <= |s| && AllDigits(s[i..j]) && (j == |s| || !IsDigit(s[j]))
    decreases |s| - i
  {
    if i < |s| && IsDigit(s[i]) then DigitRunEnd(s, i + 1) else i
  }

  /** A digit run ends at the first non-digit, so it can end nowhere else. */
  lemma DigitRunEndOnly(s: string, i: nat)
    requires i <= |s|
    ensures forall j :: i <= j <= |s| && AllDigits(s[i..j]) && (j == |s| || !IsDigit(s[j])) ==> j == DigitRunEnd(s, i)
  {
    var r := DigitRunEnd(s, i);
    forall k | i <= k < r
      ensures IsDigit(s[k])
    {
      assert s[i..r][k - i] == s[k];
    }
    forall j | i <= j <= |s| && AllDigits(s[i..j]) && (j == |s| || !IsDigit(s[j]))
      ensures j == r
    {
      forall k | i <= k < j
        ensures IsDigit(s[k])
      {
        assert s[i..j][k - i] == s[k];
      }
    }
  }

  predicate AllSpaces(t: string) {
    forall k :: 0 <= k < |t| ==> IsSpace(t[k])
  }

  /** The end of the longest run of RE2 spaces starting at i. */
  function SpaceRunEnd(s: string, i: nat): (j: nat)
    requires i <= |s|
    ensures i <= j <= |s| && (j == |s| || !IsSpace(s[j]))
    decreases |s| - i
  {
    if i < |s| && IsSpace(s[i]) then SpaceRunEnd(s, i + 1) else i
  }

  /** Everything a space run covers is an RE2 space. */
  lemma {:induction false} SpaceRunIsSpaces(s: string, i: nat)
    requires i <= |s|
    ensures AllSpaces(s[i..SpaceRunEnd(s, i)])
    decreases |s| - i
  {
    if i < |s| && IsSpace(s[i]) {
      var j := SpaceRunEnd(s, i + 1);
      SpaceRunIsSpaces(s, i + 1);
      assert forall k :: 1 <= k < j - i ==> s[i..j][k] == s[i + 1..j][k - 1];
    }
  }

  /** A space run ends at the first non-space, so it can end nowhere else. */
  lemma SpaceRunEndOnly(s: string, i: nat)
    requires i <= |s|
    ensures forall j :: i <= j <= |s| && AllSpaces(s[i..j]) && (j == |s| || !IsSpace(s[j])) ==> j == SpaceRunEnd(s, i)
  {
    var r := SpaceRunEnd(s, i);
    SpaceRunIsSpaces(s, i);
    forall k | i <= k < r
      ensures IsSpace(s[k])
    {
      assert s[i..r][k - i] == s[k];
    }
    forall j | i <= j <= |s| && AllSpaces(s[i..j]) && (j == |s| || !IsSpace(s[j]))
      ensures j == r
    {
      forall k | i <= k < j
        ensures IsSpace(s[k])
      {
        assert s[i..j][k - i] == s[k];
      }
    }
  }

  /** `[0-9]+\s<words>` matches at i with the digits ending at j. */
  predicate CountAt(s: string, i: nat, j: nat, words: string) {
    i < j < |s| && AllDigits(s[i..j]) && IsSpace(s[j]) && HasAt(s, j + 1, words)
  }

  /**
   * `[0-9]+\s<words>` at i. The greedy `[0-9]+` can only be followed by `\s`
   * once it has taken the whole digit run, so the run's end decides; the
   * match exists exactly when some split into digits, space and words does.
   */
  function CountMatchAt(s: string, i: nat, words: string): Option<nat>
    requires i <= |s|
  {
    var j := DigitRunEnd(s, i);
    if i < j && j < |s| && IsSpace(s[j]) && HasAt(s, j + 1, words) then Some(j + 1 + |words|)
    else None
  }

  /** CountMatchAt finds a match exactly when some split into digits, space and words exists. */
  lemma CountMatchAtMeaning(s: string, i: nat, words: string)
    requires i <= |s|
    ensures var e := CountMatchAt(s, i, words);
      e.Some? ==> e.value >= |words| + 1 && CountAt(s, i, e.value - |words| - 1, words)
    ensures CountMatchAt(s, i, words).None? ==> forall j :: !CountAt(s, i, j, words)
  {
    DigitRunEndOnly(s, i);
  }

  /** `[0-9]%\stransaction loss` at p. */
  predicate LossTailAt(s: string, p: nat) {
    p + 3 <= |s| && IsDigit(s[p]) && s[p + 1] == '%' && IsSpace(s[p + 2]) && HasAt(s, p + 3, LossWords)
  }

  /** `([0-9]*[.])?[0-9]%\stransaction loss` matches at i with the numeral ending at n. */
  predicate LossAt(s: string, i: nat, n: nat) {
    i < n && n + 2 <= |s| && IsLossNumeral(s[i..n]) && s[n] == '%' && IsSpace(s[n + 1]) && HasAt(s, n + 2, LossWords)
  }

  /**
   * `([0-9]*[.])?[0-9]%\stransaction loss` at i. The greedy `?` tries the
   * group first; `[0-9]*[.]` can only end at the first non-digit, which must
   * be the point. Without the group, the single digit must sit at i. The
   * match exists exactly when some loss numeral starting at i is followed by
   * the rest of the pattern.
   */
  function LossMatchAt(s: string, i: nat): Option<nat>
    requires i <= |s|
  {
    var k := DigitRunEnd(s, i);
    if k < |s| && s[k] == '.' && LossTailAt(s, k + 1) then Some(k + 4 + |LossWords|)
    else if LossTailAt(s, i) then Some(i + 3 + |LossWords|)
    else None
  }

  /** LossMatchAt finds a match exactly when some loss numeral at i is followed by the rest of the pattern. */
  lemma LossMatchAtMeaning(s: string, i: nat)
    requires i <= |s|
    ensures var e := LossMatchAt(s, i);
      e.Some? ==> e.value >= |LossWords| + 2 && LossAt(s, i, e.value - |LossWords| - 2)
    ensures LossMatchAt(s, i).None? ==> forall n :: !LossAt(s, i, n)
  {
    var k := DigitRunEnd(s, i);
    LossAtOnly(s, i);
    if k < |s| && s[k] == '.' && LossTailAt(s, k + 1) {
      assert s[i..k + 2][..k - i] == s[i..k];
    }
  }

  /** Every loss match at i is one of the two that LossMatchAt tries. */
  lemma LossAtOnly(s: string, i: nat)
    requires i <= |s|
    ensures forall n :: LossAt(s, i, n) ==>
      var k := DigitRunEnd(s, i);
      (k < |s| && s[k] == '.' && LossTailAt(s, k + 1) && n == k + 2) || (LossTailAt(s, i) && n == i + 1)
  {
    DigitRunEndOnly(s, i);
    forall n: nat | LossAt(s, i, n)
      ensures var k := DigitRunEnd(s, i);
        (k < |s| && s[k] == '.' && LossTailAt(s, k + 1) && n == k + 2) || (LossTailAt(s, i) && n == i + 1)
    {
      var num := s[i..n];
      if |num| == 1 {
        assert num[0] == s[i];
      } else {
        assert num[..|num| - 2] == s[i..n - 2];
        assert num[|num| - 2] == s[n - 2];
        assert num[|num| - 1] == s[n - 1];
      }
    }
  }

  /**
   * The start of the last "ms" lying in s[lo..hi], if any. This is where the
   * greedy `[\s\S]*` gives back just enough for the final `ms` to match.
   */
  function LastMs(s: string, lo: nat, hi: nat): (r: Option<nat>)
    requires hi <= |s|
    ensures r.Some? ==> lo <= r.value && r.value + |MsUnit| <= hi && HasAt(s, r.value, MsUnit)
    ensures forall q :: (if r.Some? then r.value < q else lo <= q) && q + |MsUnit| <= hi ==> !HasAt(s, q, MsUnit)
    decreases hi
  {
    if hi < lo + |MsUnit| then None
    else if HasAt(s, hi - |MsUnit|, MsUnit) then Some(hi - |MsUnit|)
    else LastMs(s, lo, hi - 1)
  }

  /**
   * `min/mean/max/stddev\s*=\s*[\s\S]*ms` matches at i with the spaces
   * ending at the `=` at j and the final "ms" at q.
   */
  predicate SummaryAt(s: string, i: nat, j: nat, q: nat) {
    HasAt(s, i, StatsHeader) && i + |StatsHeader| <= j < q && HasAt(s, q, MsUnit) &&
    AllSpaces(s[i + |StatsHeader|..j]) && s[j] == '='
  }

  /**
   * `min/mean/max/stddev\s*=\s*[\s\S]*ms` at i. The first `\s*` must take
   * every space before the `=`; the second `\s*` and `[\s\S]*` together
   * reach the last "ms" after the `=` (an "ms" never lies inside a space run).
   * The match exists exactly when some such split does, and its "ms" is the
   * last one in s.
   */
  function ConfirmationMatchAt(s: string, i: nat): Option<nat>
    requires i <= |s|
  {
    if !HasAt(s, i, StatsHeader) then None
    else
      var j := SpaceRunEnd(s, i + |StatsHeader|);
      if j < |s| && s[j] == '=' then
        match LastMs(s, j + 1, |s|)
        case Some(p) => Some(p + |MsUnit|)
        case None => None
      else None
  }

  /**
   * ConfirmationMatchAt finds a match exactly when some split into header,
   * spaces, `=`, anything and "ms" exists; the match found ends at the last
   * "ms" of s.
   */
  lemma ConfirmationMatchAtMeaning(s: string, i: nat)
    requires i <= |s|
    ensures var e := ConfirmationMatchAt(s, i);
      e.Some? ==>
        e.value >= |MsUnit| && HasAt(s, i, StatsHeader) &&
        SummaryAt(s, i, SpaceRunEnd(s, i + |StatsHeader|), e.value - |MsUnit|) &&
        forall q :: e.value - |MsUnit| < q && q + |MsUnit| <= |s| ==> !HasAt(s, q, MsUnit)
    ensures ConfirmationMatchAt(s, i).None? ==> forall j, q :: !SummaryAt(s, i, j, q)
  {
    if HasAt(s, i, StatsHeader) {
      SpaceRunIsSpaces(s, i + |StatsHeader|);
      SpaceRunEndOnly(s, i + |StatsHeader|);
    }
  }

  /** The end of RE2's preferred match of p starting at i; every match is non-empty. */
  function MatchAt(p: Pattern, s: string, i: nat): (e: Option<nat>)
    requires i <= |s|
    ensures e.Some? ==> i < e.value <= |s|
  {
    match p
    case SubmittedPattern => CountMatchAt(s, i, CountWords(p))
    case ConfirmedPattern => CountMatchAt(s, i, CountWords(p))
    case LossPattern => LossMatchAt(s, i)
    case ConfirmationPattern => ConfirmationMatchAt(s, i)
  }

  /** The leftmost match starting at i or later, as (start, end). */
  function FirstMatchFrom(p: Pattern, s: string, i: nat): (r: Option<(nat, nat)>)
    ensures r.Some? ==> i <= r.value.0 < r.value.1 <= |s| && MatchAt(p, s, r.value.0) == Some(r.value.1)
    ensures forall k :: i <= k <= |s| && (r.None? || k < r.value.0) ==> MatchAt(p, s, k).None?
    decreases |s| + 1 - i
  {
    if i > |s| then None
    else
      match MatchAt(p, s, i)
      case Some(e) => Some((i, e))
      case None => FirstMatchFrom(p, s, i + 1)
  }

  /** regexp.FindIndex: the leftmost match of p in s, as (start, end). */
  function FindIndex(p: Pattern, s: string): (r: Option<(nat, nat)>)
    ensures r.Some? ==> r.value.0 < r.value.1 <= |s| && MatchAt(p, s, r.value.0) == Some(r.value.1)
    ensures forall k :: 0 <= k <= |s| && (r.None? || k < r.value.0) ==> MatchAt(p, s, k).None?
  {
    FirstMatchFrom(p, s, 0)
  }

  /**
   * findingPattern: the text of the leftmost match, or ("", FindIndexNotFound)
   * when p matches nowhere in s.
   */
  function FindingPattern(p: Pattern, s: string): (r: (string, Option<GoError>))
    ensures r.1.Some? ==> r == ("", Some(FindIndexNotFound))
    ensures r.1.None? <==> FindIndex(p, s).Some?
    ensures r.1.None? ==> r.0 != []
  {
    match FindIndex(p, s)
    case None => ("", Some(FindIndexNotFound))
    case Some((a, b)) => (s[a..b], None)
  }

  /** findingPattern finds a match exactly when p matches at some position of s. */
  lemma FindingPatternFinds(p: Pattern, s: string)
    ensures FindingPattern(p, s).1.None? <==> exists a :: 0 <= a <= |s| && MatchAt(p, s, a).Some?
  {
    if FindIndex(p, s).None? {
      assert forall a :: 0 <= a <= |s| ==> MatchAt(p, s, a).None?;
    }
  }

  /**
   * When findingPattern finds a match, it returns the contiguous text
   * s[a..a + |t|] of the match with the least start a.
   */
  lemma FindingPatternLeftmost(p: Pattern, s: string)
    requires FindingPattern(p, s).1.None?
    ensures var t := FindingPattern(p, s).0;
      exists a :: 0 <= a && a + |t| <= |s| && MatchAt(p, s, a) == Some(a + |t|) && s[a..a + |t|] == t &&
        forall k :: 0 <= k < a ==> MatchAt(p, s, k).None?
  {
    var m := FindIndex(p, s).value;
    var t := FindingPattern(p, s).0;
    assert t == s[m.0..m.1] && m.0 + |t| == m.1;
    assert MatchAt(p, s, m.0) == Some(m.0 + |t|);
  }

  // ---------------------------------------------------------------------------
  // What a found segment looks like

  /**
   * A count pattern's leftmost match starts a maximal digit run (no digit
   * just before it), followed by one RE2 space and the pattern's words.
   */
  lemma CountMatchShape(p: Pattern, s: string, a: nat, b: nat)
    requires IsCountPattern(p) && FindIndex(p, s) == Some((a, b))
    ensures var j := DigitRunEnd(s, a);
      a < j < |s| && AllDigits(s[a..j]) && IsSpace(s[j]) &&
      b == j + 1 + |CountWords(p)| && HasAt(s, j + 1, CountWords(p)) &&
      (a == 0 || !IsDigit(s[a - 1]))
  {
    var w := CountWords(p);
    assert MatchAt(p, s, a) == CountMatchAt(s, a, w);
    if a > 0 {
      assert MatchAt(p, s, a - 1) == CountMatchAt(s, a - 1, w);
    }
    CountMatchAtShape(s, a, w, b);
  }

  lemma CountMatchAtShape(s: string, a: nat, w: string, b: nat)
    requires a <= |s| && CountMatchAt(s, a, w) == Some(b)
    requires a > 0 ==> CountMatchAt(s, a - 1, w).None?
    ensures var j := DigitRunEnd(s, a);
      a < j < |s| && IsSpace(s[j]) && b == j + 1 + |w| && HasAt(s, j + 1, w) &&
      (a == 0 || !IsDigit(s[a - 1]))
  {
  }

  /**
   * The loss pattern's leftmost match is a loss numeral, `%`, one RE2 space
   * and "transaction loss"; the numeral ends just before the `%`.
   */
  lemma LossMatchShape(s: string, a: nat, b: nat)
    requires FindIndex(LossPattern, s) == Some((a, b))
    ensures var n := b - |LossWords| - 2;
      a < n && b <= |s| && IsLossNumeral(s[a..n]) && s[n] == '%' && IsSpace(s[n + 1]) && HasAt(s, n + 2, LossWords)
  {
    var k := DigitRunEnd(s, a);
    var n := b - |LossWords| - 2;
    if k < |s| && s[k] == '.' && LossTailAt(s, k + 1) {
      assert n == k + 2;
      var num := s[a..n];
      assert num[..|num| - 2] == s[a..k];
    } else {
      assert LossTailAt(s, a);
      assert n == a + 1;
    }
  }

  /**
   * The confirmation pattern's leftmost match is never empty: it starts with
   * "min/mean/max/stddev" and ends with "ms", and because `[\s\S]*` is greedy
   * no "ms" of s starts after the one that ends it.
   */
  lemma ConfirmationMatchShape(s: string, a: nat, b: nat)
    requires FindIndex(ConfirmationPattern, s) == Some((a, b))
    ensures a + |StatsHeader| + |MsUnit| < b && HasAt(s, a, StatsHeader) && HasAt(s, b - |MsUnit|, MsUnit) &&
      forall q :: b - |MsUnit| < q && q + |MsUnit| <= |s| ==> !HasAt(s, q, MsUnit)
  {
    assert MatchAt(ConfirmationPattern, s, a) == ConfirmationMatchAt(s, a);
    ConfirmationMatchAtMeaning(s, a);
  }
}
