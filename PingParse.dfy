/**
 * PingResult.parsePingOutput and ToJoson (pingResult.go). The parser runs four
 * extractions in a fixed order (submitted count, confirmed count, loss,
 * confirmation summary), writes each converted value into the record, and
 * stops at the first failure, leaving the record partly filled. The clock read
 * by time.Now().UTC().Unix() is the parameter `now`; the loss, a float64 in
 * the source, is kept exactly as a count of tenths.
 */
module PingParse {
  import opened Wrappers
  import opened GoLib
  import opened Errors
  import opened Patterns

  /** The probed target's cluster tag, declared outside pingResult.go and only ever copied. */
  type Cluster(==)

  /** What parsePingOutput returns: Go's nil error, or one of the error values. */
  datatype Outcome = Nil | Fail(err: GoError)

  /** The fields of a PingResult, as a value. */
  datatype PingRecord = PingRecord(
    hostname: string,
    cluster: Cluster,
    submitted: int,
    confirmed: int,
    lossTenths: nat,
    timeStamp: int,
    confirmationMessage: string,
    error: string)

  // ---------------------------------------------------------------------------
  // The four extractions, each with its conversion

  /** A count step: pattern absent, conversion rejected (with err.Error()), or the count. */
  datatype CountRead = CountNotFound | CountRejected(text: string) | CountOk(n: nat)

  /** findingPattern, strings.Split on " " and strconv.ParseUint(tmp[0], 10, 32) (pingResult.go:43-51, 60-68). */
  function ReadCount(p: Pattern, output: string): (c: CountRead)
    requires IsCountPattern(p)
    ensures c == CountNotFound <==> FindIndex(p, output).None?
    ensures c.CountOk? ==> c.n <= MaxUint32
  {
    var found := FindingPattern(p, output);
    if found.1.Some? then CountNotFound
    else
      var tmp := Split(found.0, ' ');
      match ParseUint32(tmp[0])
      case NumFailed(kind) => CountRejected(NumErrorText(kind, tmp[0]))
      case Parsed(n) => CountOk(n)
  }

  /** The loss step; LossSplitMismatch is the `len(tmp) != 2` branch. */
  datatype LossRead = LossNotFound | LossSplitMismatch | LossRejected | LossOk(tenths: nat)

  /** findingPattern, strings.Split on "%" and strconv.ParseFloat(tmp[0], 64) (pingResult.go:77-89). */
  function ReadLoss(output: string): (l: LossRead)
    ensures l == LossNotFound <==> FindIndex(LossPattern, output).None?
  {
    var found := FindingPattern(LossPattern, output);
    if found.1.Some? then LossNotFound
    else
      var tmp := Split(found.0, '%');
      if |tmp| != 2 then LossSplitMismatch
      else
        LossSegmentSplits(output);
        match ParseFloatTenths(tmp[0])
        case NumFailed(_) => LossRejected
        case Parsed(tenths) => LossOk(tenths)
  }

  /** The confirmation step; ConfirmationEmpty is the `len(subSentence) <= 0` branch. */
  datatype ConfirmationRead = ConfirmationNotFound | ConfirmationEmpty | ConfirmationOk(segment: string)

  /** findingPattern for the summary and the emptiness test (pingResult.go:98-105). */
  function ReadConfirmation(output: string): (c: ConfirmationRead)
    ensures c == ConfirmationNotFound <==> FindIndex(ConfirmationPattern, output).None?
  {
    var found := FindingPattern(ConfirmationPattern, output);
    if found.1.Some? then ConfirmationNotFound
    else if |found.0| <= 0 then ConfirmationEmpty
    else ConfirmationOk(found.0)
  }

  // ---------------------------------------------------------------------------
  // The whole parse, as a function of the record before and the input

  /** A missing pattern: the time stamp is set and the error is FindIndexNotFound. */
  function NotFound(r: PingRecord, now: int): (PingRecord, Outcome)
  {
    (r.(timeStamp := now, error := ErrorText(FindIndexNotFound)), Fail(FindIndexNotFound))
  }

  /** The record parsePingOutput leaves behind and the error it returns; the target is never written. */
  function Parse(r: PingRecord, output: string, now: int): (res: (PingRecord, Outcome))
    ensures res.0.hostname == r.hostname && res.0.cluster == r.cluster
  {
    match ReadCount(SubmittedPattern, output)
    case CountNotFound => NotFound(r, now)
    case CountRejected(text) => (r.(error := text), Fail(ParseOutputError))
    case CountOk(submitted) => ParseConfirmed(r.(submitted := submitted), output, now)
  }

  /** The parse from the confirmed count on; the submitted count is no longer written. */
  function ParseConfirmed(r: PingRecord, output: string, now: int): (res: (PingRecord, Outcome))
    ensures res.0.hostname == r.hostname && res.0.cluster == r.cluster && res.0.submitted == r.submitted
  {
    match ReadCount(ConfirmedPattern, output)
    case CountNotFound => NotFound(r, now)
    case CountRejected(text) => (r.(error := text), Fail(ConvertWrongType))
    case CountOk(confirmed) => ParseLoss(r.(confirmed := confirmed), output, now)
  }

  /** The parse from the loss on; neither count is written any more. */
  function ParseLoss(r: PingRecord, output: string, now: int): (res: (PingRecord, Outcome))
    ensures res.0.hostname == r.hostname && res.0.cluster == r.cluster
    ensures res.0.submitted == r.submitted && res.0.confirmed == r.confirmed
  {
    match ReadLoss(output)
    case LossNotFound => NotFound(r, now)
    case LossSplitMismatch => (r.(error := ErrorText(ParseSplitError)), Fail(ParseSplitError))
    case LossRejected => (r.(error := ErrorText(ConvertWrongType)), Fail(ConvertWrongType))
    case LossOk(tenths) => ParseConfirmation(r.(lossTenths := tenths), output, now)
  }

  /**
   * The last step, the confirmation summary: whatever happens, the time stamp
   * is set, and only the message and the error change besides.
   */
  function ParseConfirmation(r: PingRecord, output: string, now: int): (res: (PingRecord, Outcome))
    ensures res.0 == r.(timeStamp := now, confirmationMessage := res.0.confirmationMessage, error := res.0.error)
  {
    match ReadConfirmation(output)
    case ConfirmationNotFound => NotFound(r, now)
    case ConfirmationEmpty => (r.(timeStamp := now, error := ErrorText(ParseSplitError)), Fail(ParseSplitError))
    case ConfirmationOk(segment) => (r.(timeStamp := now, confirmationMessage := segment, error := ""), Nil)
  }

  // ---------------------------------------------------------------------------
  // The record the parser fills in

  class PingResult {
    var hostname: string
    var cluster: Cluster
    var submitted: int
    var confirmed: int
    var lossTenths: nat
    var timeStamp: int
    var confirmationMessage: string
    var error: string

    /** A result for a target, every other field at Go's zero value. */
    constructor (hostname: string, cluster: Cluster)
      ensures Snapshot() == PingRecord(hostname, cluster, 0, 0, 0, 0, "", "")
    {
      this.hostname := hostname;
      this.cluster := cluster;
      submitted, confirmed, lossTenths, timeStamp := 0, 0, 0, 0;
      confirmationMessage, error := "", "";
    }

    function Snapshot(): PingRecord
      reads this
    {
      PingRecord(hostname, cluster, submitted, confirmed, lossTenths, timeStamp, confirmationMessage, error)
    }

    /**
     * parsePingOutput: the fields change exactly as Parse says, step by step,
     * and the returned error is Parse's. The two branches the source guards
     * against (a loss segment that does not split in two, an empty summary)
     * are proved unreachable here.
     */
    method ParsePingOutput(output: string, now: int) returns (err: Outcome)
      modifies this
      ensures (Snapshot(), err) == Parse(old(Snapshot()), output, now)
    {
      ghost var r0 := Snapshot();

      // Submitted
      var found := FindingPattern(SubmittedPattern, output);
      var subSentence := found.0;
      if found.1.Some? {
        timeStamp := now;
        error := ErrorText(found.1.value);
        return Fail(found.1.value);
      }
      var tmp := Split(subSentence, ' ');
      var n := ParseUint32(tmp[0]);
      if n.NumFailed? {
        error := NumErrorText(n.kind, tmp[0]);
        return Fail(ParseOutputError);
      }
      submitted := n.value;
      assert ReadCount(SubmittedPattern, output) == CountOk(submitted);
      ghost var r1 := Snapshot();
      assert r1 == r0.(submitted := submitted);
      assert Parse(r0, output, now) == ParseConfirmed(r1, output, now);

      // Confirmed
      found := FindingPattern(ConfirmedPattern, output);
      subSentence := found.0;
      if found.1.Some? {
        timeStamp := now;
        error := ErrorText(found.1.value);
        return Fail(found.1.value);
      }
      tmp := Split(subSentence, ' ');
      n := ParseUint32(tmp[0]);
      if n.NumFailed? {
        error := NumErrorText(n.kind, tmp[0]);
        return Fail(ConvertWrongType);
      }
      confirmed := n.value;
      assert ReadCount(ConfirmedPattern, output) == CountOk(confirmed);
      ghost var r2 := Snapshot();
      assert r2 == r1.(confirmed := confirmed);
      assert ParseConfirmed(r1, output, now) == ParseLoss(r2, output, now);

      // Loss
      found := FindingPattern(LossPattern, output);
      subSentence := found.0;
      if found.1.Some? {
        timeStamp := now;
        error := ErrorText(found.1.value);
        return Fail(found.1.value);
      }
      LossSegmentSplits(output);
      tmp := Split(subSentence, '%');
      if |tmp| != 2 {
        assert false;
      }
      var lossval := ParseFloatTenths(tmp[0]);
      if lossval.NumFailed? {
        error := ErrorText(ConvertWrongType);
        return Fail(ConvertWrongType);
      }
      lossTenths := lossval.value;
      assert ReadLoss(output) == LossOk(lossTenths);
      ghost var r3 := Snapshot();
      assert r3 == r2.(lossTenths := lossTenths);
      assert ParseLoss(r2, output, now) == ParseConfirmation(r3, output, now);

      // Confirmation
      found := FindingPattern(ConfirmationPattern, output);
      subSentence := found.0;
      if found.1.Some? {
        timeStamp := now;
        error := ErrorText(found.1.value);
        return Fail(found.1.value);
      }
      if |subSentence| <= 0 {
        assert false;
      }
      assert ReadConfirmation(output) == ConfirmationOk(subSentence);
      timeStamp := now;
      confirmationMessage := subSentence;
      error := "";
      return Nil;
    }
  }

  // ---------------------------------------------------------------------------
  // ToJoson

  /** PingResultJSON without its time stamp (see README). */
  datatype PingResultJson = PingResultJson(
    hostname: string,
    cluster: Cluster,
    submitted: int,
    confirmed: int,
    loss: string,
    confirmationMessage: string,
    errorMessage: string)

  /** ToJoson: the fields copied through, the loss rendered as "%3.1f%". */
  function ToJson(r: PingRecord): (j: PingResultJson)
    ensures j.hostname == r.hostname && j.cluster == r.cluster
    ensures j.submitted == r.submitted && j.confirmed == r.confirmed
    ensures j.confirmationMessage == r.confirmationMessage && j.errorMessage == r.error
    ensures j.loss == FormatTenths(r.lossTenths) + "%"
  {
    PingResultJson(r.hostname, r.cluster, r.submitted, r.confirmed,
      FormatTenths(r.lossTenths) + "%", r.confirmationMessage, r.error)
  }

  // ---------------------------------------------------------------------------
  // What each extraction yields

  /** The loss segment always splits in two at its `%`, and the first piece is a loss numeral. */
  lemma LossSegmentSplits(output: string)
    requires FindingPattern(LossPattern, output).1.None?
    ensures var tmp := Split(FindingPattern(LossPattern, output).0, '%');
      |tmp| == 2 && IsLossNumeral(tmp[0])
  {
    var (a, b) := FindIndex(LossPattern, output).value;
    LossSegmentPieces(output, a, b);
  }

  lemma LossSegmentPieces(s: string, a: nat, b: nat)
    requires FindIndex(LossPattern, s) == Some((a, b))
    ensures var n := b - |LossWords| - 2;
      a < n < b <= |s| && IsLossNumeral(s[a..n]) &&
      Split(s[a..b], '%') == [s[a..n], s[n + 1..b]]
  {
    LossMatchShape(s, a, b);
    var n := b - |LossWords| - 2;
    assert '%' !in LossWords;
    SplitAtPercent(s, a, n, b);
  }

  /** s[a..b] is a loss numeral, `%`, and text without `%`: Split on "%" gives those two pieces. */
  lemma SplitAtPercent(s: string, a: nat, n: nat, b: nat)
    requires a < n < b <= |s| && IsLossNumeral(s[a..n]) && s[n] == '%' && '%' !in s[n + 1..b]
    ensures Split(s[a..b], '%') == [s[a..n], s[n + 1..b]]
  {
    var num := s[a..n];
    var rest := s[n + 1..b];
    assert s[a..b] == num + ['%'] + rest;
    assert '%' !in num;
    SplitAtFirst(num, '%', rest);
  }

  /**
   * A count step reads the maximal digit run that starts the leftmost match.
   * It yields that run's value when the space after it is ' ' and the value
   * fits in 32 bits; otherwise it yields ParseUint's error text: a range
   * error when the value is too large, a syntax error when the space is
   * another RE2 space (Split on " " then leaves "<digits><space>transactions").
   */
  lemma ReadCountOfMatch(p: Pattern, s: string, a: nat, b: nat)
    requires IsCountPattern(p) && FindIndex(p, s) == Some((a, b))
    ensures a < b <= |s|
    ensures var j := DigitRunEnd(s, a);
      j < |s| && (a == 0 || !IsDigit(s[a - 1])) &&
      var v := DecimalValue(s[a..j]);
      var num := s[a..j] + (if s[j] == ' ' then [] else [s[j]] + CountNoun);
      ReadCount(p, s) ==
        if v > MaxUint32 then CountRejected(NumErrorText(ErrRange, num))
        else if s[j] == ' ' then CountOk(v)
        else CountRejected(NumErrorText(ErrSyntax, num))
  {
    CountMatchShape(p, s, a, b);
    var j := DigitRunEnd(s, a);
    var d := s[a..j];
    var t := if s[j] == ' ' then [] else [s[j]] + CountNoun;
    CountSegmentParts(p, s, a, j, b);
    if s[j] == ' ' {
      SpaceSegmentHead(d, CountNoun + " " + CountVerb(p));
    } else {
      OtherSpaceSegmentHead(d, s[j], CountNoun, CountVerb(p));
    }
    ParseUint32OfDigitRun(d, t);
    ReadCountOfHead(p, s, d + t);
  }

  lemma CountSegmentParts(p: Pattern, s: string, a: nat, j: nat, b: nat)
    requires IsCountPattern(p) && a < j < b <= |s| && HasAt(s, j + 1, CountWords(p)) && b == j + 1 + |CountWords(p)|
    ensures s[a..b] == s[a..j] + [s[j]] + (CountNoun + " " + CountVerb(p))
    ensures ' ' !in CountNoun
  {
    assert s[j + 1..b] == CountWords(p);
  }

  /** The segment "<digits> <words>" splits on " " to the digits first. */
  lemma SpaceSegmentHead(d: string, words: string)
    requires AllDigits(d)
    ensures Split(d + [' '] + words, ' ')[0] == d
  {
    assert ' ' !in d;
    SplitAtFirst(d, ' ', words);
  }

  /** The segment "<digits><c><noun> <verb>", c an RE2 space other than ' ', splits to "<digits><c><noun>" first. */
  lemma OtherSpaceSegmentHead(d: string, c: char, noun: string, verb: string)
    requires AllDigits(d) && IsSpace(c) && c != ' ' && ' ' !in noun
    ensures Split(d + [c] + (noun + " " + verb), ' ')[0] == d + ([c] + noun)
  {
    var head := d + [c] + noun;
    assert ' ' !in d;
    assert ' ' !in head;
    assert d + [c] + (noun + " " + verb) == head + [' '] + verb;
    SplitAtFirst(head, ' ', verb);
    assert d + ([c] + noun) == head;
  }

  /** ReadCount converts the first piece of the found segment with ParseUint. */
  lemma ReadCountOfHead(p: Pattern, s: string, head: string)
    requires IsCountPattern(p) && FindingPattern(p, s).1.None?
    requires Split(FindingPattern(p, s).0, ' ')[0] == head
    ensures ReadCount(p, s) ==
      match ParseUint32(head)
      case NumFailed(kind) => CountRejected(NumErrorText(kind, head))
      case Parsed(n) => CountOk(n)
  {
  }

  /**
   * The loss step reads the numeral before the `%` of the leftmost match: its
   * value in tenths, or a rejection when float64 cannot hold it. The split
   * mismatch of pingResult.go:85 never happens.
   */
  lemma ReadLossOfMatch(s: string, a: nat, b: nat)
    requires FindIndex(LossPattern, s) == Some((a, b))
    ensures var num := s[a..b - |LossWords| - 2];
      IsLossNumeral(num) &&
      ReadLoss(s) == if NumeralTenths(num) < FloatOverflowTenths then LossOk(NumeralTenths(num)) else LossRejected
  {
    LossSegmentPieces(s, a, b);
  }

  /**
   * The confirmation step yields the leftmost match, which starts with
   * "min/mean/max/stddev", ends with the last "ms" of the input and is never
   * empty; the empty branch of pingResult.go:105 never happens.
   */
  lemma ReadConfirmationOfMatch(s: string, a: nat, b: nat)
    requires FindIndex(ConfirmationPattern, s) == Some((a, b))
    ensures ReadConfirmation(s) == ConfirmationOk(s[a..b])
    ensures HasAt(s, a, StatsHeader) && HasAt(s, b - |MsUnit|, MsUnit)
    ensures forall q :: b - |MsUnit| < q && q + |MsUnit| <= |s| ==> !HasAt(s, q, MsUnit)
  {
    ConfirmationMatchShape(s, a, b);
  }

  /** "5% transaction loss" is read as a loss of 5.0, that is 50 tenths. */
  lemma FivePercentReadsAsFive()
    ensures ReadLoss("5% transaction loss") == LossOk(50)
  {
    var s := "5% transaction loss";
    FivePercentMatch();
    assert s[0..1] == "5";
    LossOfFoundNumeral(s, 0, 19, "5");
    assert NumeralTenths("5") == 50;
  }

  /** ToJoson renders a loss of 5.0 as "5.0%". */
  lemma FiveRendersAsFivePointZero(r: PingRecord)
    requires r.lossTenths == 50
    ensures ToJson(r).loss == "5.0%"
  {
    assert FormatTenths(50) == "5.0";
  }

  lemma FivePercentMatch()
    ensures FindIndex(LossPattern, "5% transaction loss") == Some((0, 19))
  {
    var s := "5% transaction loss";
    assert s == "5% " + LossWords;
    assert DigitRunEnd(s, 1) == 1;
    assert DigitRunEnd(s, 0) == 1;
    assert s[3..19] == LossWords;
    assert LossTailAt(s, 0);
    assert MatchAt(LossPattern, s, 0) == Some(19);
  }

  /** "100% transaction loss" is read as a loss of 0%: only the digit before `%` is taken. */
  lemma HundredPercentReadsAsZero()
    ensures ReadLoss("100% transaction loss") == LossOk(0)
  {
    var s := "100% transaction loss";
    HundredPercentMatch();
    assert s[2..3] == "0";
    LossOfFoundNumeral(s, 2, 21, "0");
  }

  /** The loss step on a found numeral num that float64 can hold. */
  lemma LossOfFoundNumeral(s: string, a: nat, b: nat, num: string)
    requires FindIndex(LossPattern, s) == Some((a, b))
    requires b >= |LossWords| + 2 && a <= b - |LossWords| - 2 && s[a..b - |LossWords| - 2] == num
    ensures IsLossNumeral(num)
    ensures ReadLoss(s) == if NumeralTenths(num) < FloatOverflowTenths then LossOk(NumeralTenths(num)) else LossRejected
  {
    ReadLossOfMatch(s, a, b);
  }

  lemma HundredPercentMatch()
    ensures FindIndex(LossPattern, "100% transaction loss") == Some((2, 21))
  {
    var s := "100% transaction loss";
    assert s == "100% " + LossWords;
    assert s[3] == '%' && s[1] == '0' && s[2] == '0';
    assert DigitRunEnd(s, 3) == 3;
    assert DigitRunEnd(s, 2) == 3;
    assert DigitRunEnd(s, 1) == 3;
    assert DigitRunEnd(s, 0) == 3;
    assert !LossTailAt(s, 0) && !LossTailAt(s, 1);
    assert MatchAt(LossPattern, s, 0).None?;
    assert MatchAt(LossPattern, s, 1).None?;
    assert s[5..21] == LossWords;
    assert LossTailAt(s, 2);
    assert MatchAt(LossPattern, s, 2) == Some(21);
    assert FirstMatchFrom(LossPattern, s, 2) == Some((2, 21));
    assert FirstMatchFrom(LossPattern, s, 1) == Some((2, 21));
  }

  // ---------------------------------------------------------------------------
  // Properties of the parse

  /** How many steps succeeded before the parse stopped (4: all of them). */
  function StepsCompleted(output: string): (k: nat)
    ensures k <= 4
    ensures k >= 1 <==> ReadCount(SubmittedPattern, output).CountOk?
    ensures k >= 2 <==> k >= 1 && ReadCount(ConfirmedPattern, output).CountOk?
    ensures k >= 3 <==> k >= 2 && ReadLoss(output).LossOk?
    ensures k == 4 <==> k >= 3 && ReadConfirmation(output).ConfirmationOk?
  {
    if !ReadCount(SubmittedPattern, output).CountOk? then 0
    else if !ReadCount(ConfirmedPattern, output).CountOk? then 1
    else if !ReadLoss(output).LossOk? then 2
    else if !ReadConfirmation(output).ConfirmationOk? then 3
    else 4
  }

  /** The pattern of step k + 1. */
  function StepPattern(k: nat): Pattern
    requires k < 4
  {
    if k == 0 then SubmittedPattern
    else if k == 1 then ConfirmedPattern
    else if k == 2 then LossPattern
    else ConfirmationPattern
  }

  /**
   * The steps run in order and the parse stops at the first failure: the
   * fields of the steps that succeeded hold their values, the later ones are
   * untouched, and the parse returns nil exactly when all four succeeded.
   */
  lemma ParseStopsAtFirstFailure(r: PingRecord, output: string, now: int)
    ensures var res := Parse(r, output, now); var k := StepsCompleted(output);
      res.0.submitted == (if k >= 1 then ReadCount(SubmittedPattern, output).n else r.submitted) &&
      res.0.confirmed == (if k >= 2 then ReadCount(ConfirmedPattern, output).n else r.confirmed) &&
      res.0.lossTenths == (if k >= 3 then ReadLoss(output).tenths else r.lossTenths) &&
      res.0.confirmationMessage == (if k == 4 then ReadConfirmation(output).segment else r.confirmationMessage) &&
      (res.1 == Nil <==> k == 4)
  {
  }

  /**
   * A missing pattern ends the parse with FindIndexNotFound, its text in the
   * error field and the time stamp set; it is the only cause of that error.
   */
  lemma ParseMissingPattern(r: PingRecord, output: string, now: int)
    ensures var res := Parse(r, output, now); var k := StepsCompleted(output);
      (res.1 == Fail(FindIndexNotFound) <==> k < 4 && FindIndex(StepPattern(k), output).None?) &&
      (res.1 == Fail(FindIndexNotFound) ==>
        res.0.error == ErrorText(FindIndexNotFound) && res.0.timeStamp == now)
  {
  }

  /** The branches that return ParseSplitError cannot be reached. */
  lemma ParseNeverSplitError(r: PingRecord, output: string, now: int)
    ensures Parse(r, output, now).1 != Fail(ParseSplitError)
  {
    if ReadCount(SubmittedPattern, output).CountOk? && ReadCount(ConfirmedPattern, output).CountOk? {
      match FindIndex(LossPattern, output)
      case None =>
      case Some((a, b)) =>
        ReadLossOfMatch(output, a, b);
        if ReadLoss(output).LossOk? {
          match FindIndex(ConfirmationPattern, output)
          case None =>
          case Some((c, d)) => ReadConfirmationOfMatch(output, c, d);
        }
    }
  }

  /**
   * The time stamp is set when the parse succeeds or a pattern is missing;
   * a failed conversion leaves it as it was. Those failures return
   * ParseOutputError (first count) or ConvertWrongType (second count, loss).
   */
  lemma ParseTimeStamp(r: PingRecord, output: string, now: int)
    ensures var res := Parse(r, output, now);
      (res.1 == Nil || res.1 == Fail(FindIndexNotFound) || res.1 == Fail(ParseOutputError) || res.1 == Fail(ConvertWrongType)) &&
      res.0.timeStamp == if res.1 == Nil || res.1 == Fail(FindIndexNotFound) then now else r.timeStamp
  {
    ParseNeverSplitError(r, output, now);
  }

  /** The parse returns nil exactly when it leaves the error field empty. */
  lemma ParseNilIffNoError(r: PingRecord, output: string, now: int)
    ensures var res := Parse(r, output, now); res.1 == Nil <==> res.0.error == ""
  {
  }

  /**
   * A failed conversion: ParseOutputError exactly when the submitted count
   * is rejected, with ParseUint's text in the error field; ConvertWrongType
   * exactly when the confirmed count is rejected (ParseUint's text again) or
   * the loss is rejected (ConvertWrongType's own text).
   */
  lemma ParseConversionFailure(r: PingRecord, output: string, now: int)
    ensures var res := Parse(r, output, now); var k := StepsCompleted(output);
      (res.1 == Fail(ParseOutputError) <==> k == 0 && ReadCount(SubmittedPattern, output).CountRejected?) &&
      (res.1 == Fail(ParseOutputError) ==> res.0.error == ReadCount(SubmittedPattern, output).text)
    ensures var res := Parse(r, output, now); var k := StepsCompleted(output);
      res.1 == Fail(ConvertWrongType) <==>
        (k == 1 && ReadCount(ConfirmedPattern, output).CountRejected?) || (k == 2 && ReadLoss(output) == LossRejected)
    ensures var res := Parse(r, output, now); var k := StepsCompleted(output);
      (k == 1 && ReadCount(ConfirmedPattern, output).CountRejected? ==> res.0.error == ReadCount(ConfirmedPattern, output).text) &&
      (k == 2 && ReadLoss(output) == LossRejected ==> res.0.error == ErrorText(ConvertWrongType))
  {
  }

  /**
   * On success the counts fit in 32 bits, the time stamp is now, and the
   * confirmation message is the leftmost summary match.
   */
  lemma ParseSuccess(r: PingRecord, output: string, now: int)
    requires Parse(r, output, now).1 == Nil
    ensures var res := Parse(r, output, now);
      0 <= res.0.submitted <= MaxUint32 && 0 <= res.0.confirmed <= MaxUint32 &&
      res.0.timeStamp == now && res.0.error == "" &&
      FindIndex(ConfirmationPattern, output).Some? &&
      var m := FindIndex(ConfirmationPattern, output).value;
      res.0.confirmationMessage == output[m.0..m.1]
  {
    var (a, b) := FindIndex(ConfirmationPattern, output).value;
    ReadConfirmationOfMatch(output, a, b);
  }

  /** What ToJoson shows after a parse: an empty error exactly when the parse returned nil. */
  lemma JsonReportsOutcome(r: PingRecord, output: string, now: int)
    ensures var res := Parse(r, output, now); var j := ToJson(res.0);
      (j.errorMessage == "" <==> res.1 == Nil) &&
      j.hostname == r.hostname && j.cluster == r.cluster &&
      (res.1 == Nil ==> j.confirmationMessage == ReadConfirmation(output).segment)
  {
    ParseNilIffNoError(r, output, now);
  }

  /** A loss rendered by ToJoson reads back as the same loss. */
  lemma JsonLossReadsBack(r: PingRecord)
    requires r.lossTenths < FloatOverflowTenths
    ensures var text := ToJson(r).loss;
      |text| >= 4 && text[|text| - 1] == '%' && IsLossNumeral(text[..|text| - 1]) &&
      ParseFloatTenths(text[..|text| - 1]) == Parsed(r.lossTenths)
  {
    var text := ToJson(r).loss;
    assert text[..|text| - 1] == FormatTenths(r.lossTenths);
    FormatThenParseFloat(r.lossTenths);
  }
}
