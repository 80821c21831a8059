# Ping output parser

This project models the core of `pingResult.go`. That file is the part of the Solana ping API that turns the text printed by a `solana ping` run into a `PingResult` record:

- `findingPattern` locates a regular expression in the output.
- `PingResult.parsePingOutput` runs four extractions in order and fills the record:
  1. the submitted count,
  2. the confirmed count,
  3. the loss percentage,
  4. the confirmation summary line.
- `ToJoson` copies the record into the JSON view.

The model is organised in these modules:

- `Wrappers`: `Option`.
- `Errors`: the error values `parsePingOutput` can return, and their texts.
- `GoLib`: the parts of Go's library the parser relies on:
  - `strings.Split` with a one-character separator;
  - `strconv.ParseUint(s, 10, 32)`, including the error text of its `*NumError`;
  - `strconv.ParseFloat(s, 64)` on the numerals the loss pattern admits;
  - `fmt.Sprintf("%3.1f", …)` for the loss.
- `Patterns`: the four regular expressions of `pingResult.go:25-30`.
  - Each is written as a matcher that follows RE2's leftmost-first semantics. The model encodes three consequences of those semantics:
    - a greedy `[0-9]+` takes a whole digit run;
    - the optional `([0-9]*[.])?` group is tried first;
    - `[\s\S]*ms` reaches the last `ms` of the input.
  - `FindIndex` is `regexp.FindIndex`. `FindingPattern` is `findingPattern`.
- `PingParse`:
  - the `PingResult` class, whose method `ParsePingOutput` updates the fields in place, step by step, as the Go method does;
  - the specification function `Parse` that the method is proved against;
  - the lemmas about what the parse yields;
  - `ToJson`.

Behaviour the code has and these lemmas pin down:

- **Loss.** The loss pattern takes only the digit right before the `%` unless a decimal point precedes it. So `"100% transaction loss"` is read as a loss of 0 (`HundredPercentReadsAsZero`), and `".5% transaction loss"` is accepted.
- **Count syntax error.** A count followed by a tab (any RE2 space other than `' '`) makes `strings.Split` on `" "` leave the digits joined to `"\ttransactions"`. `ParseUint` then fails with a syntax error.
- **Count range error.** A count above 2^32 - 1 fails with a range error. This holds whatever follows the count, because Go checks the range digit by digit before it reaches the invalid character.
- **Unreachable branches.** The source guards two branches that can never be taken, and both are proved unreachable (`LossSegmentSplits`, `ReadConfirmationOfMatch`, `ParseNeverSplitError`):
  - a loss segment that does not split in two at `%`;
  - an empty confirmation match.
- **Time stamp.** It is written only when the parse succeeds or a pattern is missing. When a conversion fails (`pingResult.go:52-56`, `69-73`, `90-94`), the time stamp keeps its old value (`ParseTimeStamp`).
- **Loss segment without `%`.** The loss pattern demands the `%`, so such input is reported as a missing pattern (FindIndexNotFound), never as a split error.
- **One-digit loss.** A loss written without a point, such as `"5% transaction loss"`, is read as 5.0 and rendered as `"5.0%"` (`FivePercentReadsAsFive`, `FiveRendersAsFivePointZero`).

## Model

| member | source | states |
|---|---|---|
| PingParse.PingResult.ParsePingOutput | pingResult.go:40-114 | the fields change and the error returned are exactly those of `Parse` on the record before the call: each step writes its field or stops with its error, in source order |
| PingParse.Parse | pingResult.go:40-57 | the whole parse, from the submitted count on; it never writes the host name or the cluster |
| PingParse.ParseConfirmed | pingResult.go:59-74 | the parse from the confirmed count on; the submitted count is no longer written |
| PingParse.ParseLoss | pingResult.go:76-95 | the parse from the loss on; neither count is written any more |
| PingParse.ParseConfirmation | pingResult.go:97-113 | the last step always sets the time stamp, and changes nothing else but the confirmation message and the error |
| PingParse.StepsCompleted | pingResult.go:40-114 | the number k of extraction steps that succeeded in order: k >= 1 exactly when the submitted count was read, each further step counts only if all earlier ones succeeded, and k == 4 exactly when the summary was read too |
| PingParse.ParseStopsAtFirstFailure | pingResult.go:40-114 | each count, loss and confirmation field holds the converted value when its step and all earlier steps succeeded, and its old value otherwise; nil is returned exactly when all four steps succeeded |
| PingParse.ParseMissingPattern | pingResult.go:44-104 | FindIndexNotFound is returned exactly when the pattern of the first step that did not succeed matches nowhere; its text is then in the error field and the time stamp is now |
| PingParse.ParseConversionFailure | pingResult.go:52-94 | ParseOutputError is returned exactly when the submitted count is rejected, with ParseUint's text in the error field; ConvertWrongType exactly when the confirmed count is rejected (ParseUint's text in the error field) or the loss is rejected (ConvertWrongType's own text) |
| PingParse.ParseTimeStamp | pingResult.go:46-110 | the outcome is nil, FindIndexNotFound, ParseOutputError or ConvertWrongType; the time stamp is now exactly on nil and FindIndexNotFound and is left unchanged by conversion failures |
| PingParse.ParseNeverSplitError | pingResult.go:85-109 | no input makes the parse return ParseSplitError |
| PingParse.ParseNilIffNoError | pingResult.go:47-112 | the parse returns nil exactly when it leaves the error field empty |
| PingParse.ParseSuccess | pingResult.go:57-113 | on success both counts lie in 0..2^32-1, the time stamp is now, the error is empty and the confirmation message is the text of the leftmost summary match |
| PingParse.ReadCount | pingResult.go:43-51 | a count step reports "not found" exactly when its pattern matches nowhere, and a count it accepts fits in 32 bits |
| PingParse.ReadCountOfMatch | pingResult.go:50-73 | the count step reads the maximal digit run that starts the leftmost match: its value when the space after it is `' '` and the value is at most 2^32-1, otherwise ParseUint's range-error text (value too large) or syntax-error text (another RE2 space) for the quoted segment head |
| PingParse.ReadLoss | pingResult.go:77-89 | the loss step reports "not found" exactly when the loss pattern matches nowhere |
| PingParse.ReadLossOfMatch | pingResult.go:84-95 | the loss step reads the numeral before the `%` of the leftmost match: its value in tenths (ten times a lone digit, or the digits with the point dropped), or a conversion failure when float64 overflows |
| PingParse.LossSegmentSplits | pingResult.go:84-88 | a found loss segment always splits into exactly two pieces at `%`, the first a numeral ParseFloat accepts the syntax of |
| PingParse.FivePercentReadsAsFive | pingResult.go:77-95 | "5% transaction loss" is read as a loss of 5.0 |
| PingParse.HundredPercentReadsAsZero | pingResult.go:77-95 | "100% transaction loss" is read as a loss of 0 |
| PingParse.ReadConfirmation | pingResult.go:98-105 | the confirmation step reports "not found" exactly when the summary pattern matches nowhere |
| PingParse.ReadConfirmationOfMatch | pingResult.go:98-111 | the confirmation step yields the leftmost match, which starts with "min/mean/max/stddev", ends with an "ms" after which no "ms" occurs, and is never empty |
| PingParse.ToJson | pingResult.go:117-122 | host name, cluster, counts, confirmation message and error are copied through; the loss is rendered with one decimal and a trailing `%` |
| PingParse.JsonReportsOutcome | pingResult.go:117-120 | after a parse, the JSON error is empty exactly when the parse returned nil, the target is unchanged, and on success the confirmation is the summary match |
| PingParse.JsonLossReadsBack | pingResult.go:121 | the JSON loss text is a numeral followed by `%`, and ParseFloat of the numeral gives back the same loss |
| PingParse.FiveRendersAsFivePointZero | pingResult.go:121 | a loss of 5.0 is rendered as "5.0%" |
| Patterns.FindingPattern | pingResult.go:32-38 | findingPattern fails with ("", FindIndexNotFound) exactly when FindIndex finds nothing, and otherwise returns a non-empty match text |
| Patterns.FindingPatternFinds | pingResult.go:32-38 | findingPattern succeeds exactly when the pattern matches at some position |
| Patterns.FindingPatternLeftmost | pingResult.go:32-38 | a text findingPattern returns is the contiguous text of the match with the least start |
| Patterns.FindIndex | pingResult.go:33 | the match found starts before it ends, lies in the input, is the match preferred at its start, and no match starts earlier; None means no position matches |
| Patterns.FirstMatchFrom | pingResult.go:33 | the same as FindIndex, searching from a given position on |
| Patterns.MatchAt | pingResult.go:25-30 | a match of any of the four patterns is non-empty and ends inside the input |
| Patterns.CountMatchAtMeaning | pingResult.go:26-27 | the count matcher at i succeeds exactly when the text at i splits into digits, one RE2 space and the pattern's words, and its match is such a split |
| Patterns.LossMatchAtMeaning | pingResult.go:28 | the loss matcher at i succeeds exactly when a loss numeral at i is followed by `%`, one RE2 space and "transaction loss", and its match is such a one |
| Patterns.ConfirmationMatchAtMeaning | pingResult.go:29 | the summary matcher at i succeeds exactly when the header at i is followed by spaces, `=`, anything and "ms"; its match is such a split, ending at the last "ms" of the input |
| Patterns.CountMatchShape | pingResult.go:26-27 | a count pattern's leftmost match is a maximal digit run (no digit just before it), one RE2 space, and "transactions submitted"/"transactions confirmed" |
| Patterns.LossMatchShape | pingResult.go:28 | the loss pattern's leftmost match is a loss numeral, `%`, one RE2 space and "transaction loss" |
| Patterns.ConfirmationMatchShape | pingResult.go:29 | the summary pattern's leftmost match starts with "min/mean/max/stddev" and ends at the last "ms" of the input |
| Patterns.LastMs | pingResult.go:29 | the greedy `[\s\S]*ms` ends at the last "ms" in range: the one found lies in range and none starts after it |
| Patterns.DigitRunEnd | pingResult.go:26-28 | the greedy `[0-9]+`/`[0-9]*` ends at the first non-digit after its start |
| Patterns.DigitRunEndOnly | pingResult.go:26-28 | a digit run can end nowhere but at the first non-digit, so the greedy run is the only way to match digits followed by a non-digit |
| Patterns.SpaceRunEndOnly | pingResult.go:29 | a run of RE2 spaces can end nowhere but at the first non-space |
| GoLib.Split | pingResult.go:50 | strings.Split yields at least one piece, and no piece holds the separator |
| GoLib.JoinSplit | pingResult.go:50 | joining the pieces of strings.Split with the separator gives back the input |
| GoLib.SplitPieces | pingResult.go:84-85 | strings.Split yields one piece more than the input has separators |
| GoLib.SplitAtFirst | pingResult.go:84 | the first piece of strings.Split is the text before the first separator |
| GoLib.ParseUint32 | pingResult.go:51-68 | a value ParseUint(s, 10, 32) accepts is at most 2^32-1 and comes from a non-empty run of digits |
| GoLib.ScanUint32 | pingResult.go:51-68 | the digit loop of ParseUint: a value it accepts is at most 2^32-1, no less than what it had accumulated, and every remaining byte was a digit |
| GoLib.ParseUint32OfDigitRun | pingResult.go:51-68 | ParseUint(s, 10, 32) of a digit run followed by text not starting with a digit gives a range error when the run exceeds 2^32-1, the run's value when nothing follows, and a syntax error otherwise |
| GoLib.Quote | pingResult.go:51-54 | strconv.Quote puts its argument between double quotes |
| GoLib.QuoteDigits | pingResult.go:51-54 | strconv.Quote leaves digits as they are, between double quotes |
| GoLib.NumErrorText | pingResult.go:51-54 | the error text ParseUint reports starts with "strconv.ParseUint: parsing " |
| GoLib.RangeErrorTextOfDigits | pingResult.go:51-54 | the range-error text for a digit run is "strconv.ParseUint: parsing", the digits in double quotes, and "value out of range" |
| GoLib.NumeralTenths | pingResult.go:89 | the value of a loss numeral in tenths is its digits read with the point dropped, or with a zero appended when there is no point |
| GoLib.ParseFloatTenths | pingResult.go:89 | ParseFloat(s, 64) of a loss numeral succeeds exactly when the numeral's digits read in tenths stay below float64's overflow bound, and then gives that reading |
| GoLib.FormatTenths | pingResult.go:121 | the "%3.1f" rendering of a loss is a loss numeral with one decimal whose digits read in tenths give back the loss |
| GoLib.FormatThenParseFloat | pingResult.go:121 | a loss rendered with "%3.1f" parses back to the same loss |
| GoLib.DecimalRoundTrip | pingResult.go:121 | reading back the decimal digits of n gives n |
| Errors.ErrorText | pingResult.go:47 | every error value has a non-empty text, so a failed parse always leaves a non-empty error field |

## Left out

- The clock: `time.Now().UTC().Unix()` is the parameter `now` of `ParsePingOutput` and `Parse`.
- `log.Println` calls on conversion failures: they are output only and change no state.
- The `ts` field of `PingResultJSON`: `ToJoson` formats the time stamp as RFC 3339 through `time.Unix(…).Format`. Date arithmetic is not modelled, so `PingResultJson` has no time-stamp field.
- JSON struct tags and serialisation are not part of this model.
- The general regular-expression engine: only the four fixed patterns are modelled, each by its own matcher.
- The texts of FindIndexNotFound, ConvertWrongType and ParseSplitError: these values are declared outside `pingResult.go` and are not part of this model. Their texts are stand-ins, and only their being non-empty is used.
- The `Cluster` type: it is declared outside `pingResult.go` and is only copied, so it is an opaque type with equality.
- The commented-out alternative patterns at `pingResult.go:128-132`: they are not code.
- Bytes and UTF-8: strings are sequences of characters, while Go's regexp and strings operate on UTF-8 bytes. The patterns and the parser treat only ASCII characters specially, so match positions agree for ASCII input.
- PingParse.ParseLoss, PingParse.ReadLossOfMatch: `strconv.ParseFloat` is modelled only on the numerals the loss pattern admits. The loss is kept as an exact count of tenths, whereas Go keeps the nearest float64, which differs for most values (0.1 itself has no exact float64). Below 2^49 that difference stays under 0.05, so it never shows in the one-decimal rendering; above it, the stored value is not rounded as Go rounds it.
- PingParse.ToJson: the loss is rendered as its whole part, a point and one decimal. This agrees with Go's `"%3.1f"` of the stored float64 for every loss below 2^49; from 2^49 on, float64's spacing reaches 1/8 and Go may print a different last digit (562949953421312.3 is stored as 562949953421312.25 and printed as "562949953421312.2").
- PingParse.Parse: the counts are stored as exact integers, which is what `int(n)` at `pingResult.go:57` and `74` gives where Go's `int` is 64 bits; on a 32-bit build a count above 2^31-1 would wrap to a negative number, which is not modelled.
- PingParse.PingResult.constructor: the Go `PingResult` is built elsewhere with a struct literal. The constructor stands for that literal, with the Loss a non-negative number of tenths rather than any float64.
- GoLib.Quote: only the characters a rejected count segment can hold are escaped specially (tab, newline, form feed, carriage return, quote and backslash); other non-printable characters are not.
