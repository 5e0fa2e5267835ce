# apd: interval augmentation of JSON/YAML documents, in Dafny

apd reads a JSON or YAML document and walks all of it. Each object node that holds a
`created_at` and an `updated_at` timestamp in the layout `2006-01-02 15:04:05` gets a new
member `duration`. Its value is the elapsed time between the two timestamps, written like
Go's `time.Duration` (`"1s"`). The document is then encoded again in its own format.
`Append(kf, marshaler, input)` is the entry point. `NewKeyFinder(from, to)` builds the key
configuration. `JSONMarshaler` and `YAMLMarshaler` are the two formats.

Modules, leaf first:

- `Results`: `Option` and `Result`, which stand in for Go's `(value, error)` pairs.
- `Decimal`: digit characters, fixed-width zero-padded numbers and shortest decimal
  numbers, with their round trips.
- `Timestamp`: parsing and rendering of the fixed layout. This covers Go's range checks
  (month 1–12, day within the month and leap years, hour < 24, minute and second < 60).
  It also counts seconds from 0000-01-01 and proves that this count preserves
  chronological order.
- `Durations`: renders whole seconds as Go's `Duration.String` does (`0s`, `45s`, `1m0s`,
  `1h0m5s`, `-1s`). It also has an independent reader of that grammar; the two form a
  round trip.
- `Values`: the decoded document tree (object, array, scalar) and paths into it.
- `KeyFinders`: `NewKeyFinder` with its defaults, and the match predicate `FindPair`.
- `Intervals`: the signed interval between two timestamp strings, or a parse error.
- `Augmenter`: the recursive walk, with non-interference, full coverage, idempotence and
  a fixed-point characterisation.
- `Pipeline`: `Append` over an abstract format, given as a decode/encode pair of functions.
- `Scenarios`: the documents from the repository's `TestMarshaler_Append`, each with what
  augmentation makes of it.

The files that implement `Append`, `NewKeyFinder`, `JSONMarshaler` and `YAMLMarshaler` are
not part of this model.
The model follows the behaviour `TestMarshaler_Append` fixes. Where the tests are silent, it
overwrites an existing `duration`, descends below a matched object, and treats every decoded
tree alike.

## Model

| member | source | states |
|---|---|---|
| KeyFinders.NewKeyFinder | marshaler_test.go:10 | empty key names select `created_at` and `updated_at`, given names are kept, and the result key is always `duration` |
| Scenarios.DefaultFinder | marshaler_test.go:10 | `NewKeyFinder("", "")` is the finder for `created_at`, `updated_at` and `duration` |
| KeyFinders.FindPair | marshaler_test.go:86-113 | an object matches if and only if both configured members are present and both hold strings; the pair carries those two strings |
| Timestamp.Parse | marshaler_test.go:115-132 | whatever parses is a real date-time: month 1–12, a day that exists in that month and year, and an in-range clock |
| Timestamp.NonDigitEndRejected | marshaler_test.go:115-132 | a string whose last character is not a digit, such as `hoge`, never parses |
| Timestamp.ParseFormat | marshaler_test.go:20-26 | every valid date-time is read back from its rendering in the layout |
| Timestamp.FormatParse | marshaler_test.go:115-132 | the layout is rigid: a string that parses is exactly the rendering of its value, so anything else (such as `hoge`) is rejected |
| Timestamp.SecondsOrder | marshaler_test.go:20-35 | the seconds count is strictly increasing in chronological order, and equal counts mean equal date-times |
| Timestamp.Tick | marshaler_test.go:20-35 | the next calendar second, with the carry into minute, hour, day, month and year, is chronologically later |
| Timestamp.TickSeconds | marshaler_test.go:20-35 | the seconds count is elapsed time: the next calendar second, across minute, day, month and year boundaries and leap days, counts exactly one more |
| Intervals.NextSecondInterval | marshaler_test.go:20-35 | the interval between the renderings of any date-time and of the second after it is exactly 1 |
| Intervals.ComputeInterval | marshaler_test.go:115-132 | an interval exists exactly when both strings parse; the parse error names the end point that failed |
| Intervals.IntervalSign | marshaler_test.go:20-35 | the interval is positive exactly when the from-instant is earlier, and zero exactly when the two strings are equal |
| Intervals.IntervalAntisymmetric | marshaler_test.go:20-35 | swapping the end points negates the interval |
| Intervals.IntervalAdditive | marshaler_test.go:20-35 | intervals chain: a to b plus b to c is a to c |
| Scenarios.ParseMidnight | marshaler_test.go:23 | `2020-01-01 00:00:00` is read as midnight of 1 January 2020 |
| Scenarios.ParseOneSecondLater | marshaler_test.go:24 | `2020-01-01 00:00:01` is read as one second past that midnight |
| Scenarios.OneSecondApart | marshaler_test.go:23-24 | `2020-01-01 00:00:00` to `2020-01-01 00:00:01` is one second |
| Durations.FormatDuration | marshaler_test.go:32 | a rendering always ends in the unit `s` and starts with `-` exactly when the interval is negative |
| Durations.ReadFormatDuration | marshaler_test.go:32 | every rendered duration reads back as the signed seconds it was rendered from |
| Durations.FormatDurationInjective | marshaler_test.go:32 | distinct intervals never share a rendering |
| Scenarios.OneSecondRendering | marshaler_test.go:32 | one second renders as `1s` |
| Augmenter.Annotation | marshaler_test.go:86-132 | a node receives a value if and only if the finder matches and both timestamps parse; the value reads back as the interval |
| Augmenter.Augment | marshaler_test.go:19-132 | the walk keeps every node's kind and every array's length and element order; objects keep all their members and only add or overwrite the result key, exactly when the node matched |
| Augmenter.AnnotateThenDescend | marshaler_test.go:19-84 | annotating a node first and then augmenting all its members, the injected string included, gives the same node as the walk |
| Augmenter.MatchBeforeOrAfterDescent | marshaler_test.go:38-84 | augmenting a node's children does not change whether the node matches or the value it receives |
| Augmenter.DurationIsNotTimestamp | marshaler_test.go:32 | an injected duration string never parses as a timestamp |
| Augmenter.AugmentSettles | marshaler_test.go:19-84 | after augmentation every matching object carries its interval under the result key |
| Augmenter.FixedPointIffSettled | marshaler_test.go:86-132 | augmentation leaves a document unchanged if and only if every matching object already carries its interval |
| Augmenter.Idempotent | marshaler_test.go:29-35 | augmenting an augmented document changes nothing |
| Augmenter.AugmentAt | marshaler_test.go:38-84 | along any walked path (one that never passes through a result key the node's own annotation overwrote), the augmented tree holds the augmentation of the original node |
| Augmenter.FullCoverage | marshaler_test.go:38-84 | every object node at any depth, reached by a walked path through objects or arrays, gains the result key exactly when it matched (or already had one), with the computed interval |
| Augmenter.NonMatchSilent | marshaler_test.go:86-132 | an object without a match keeps exactly its members, each augmented in turn, and nothing fails |
| Pipeline.Append | marshaler_test.go:13-17 | a decode failure is returned unchanged with no output; any output is the encoding of the augmented decoded tree |
| Pipeline.AppendFailsOnlyOnDecode | marshaler_test.go:94-95 | with an encoder that never fails on an augmented tree, `Append` fails exactly when decoding fails, so a missing key or a bad timestamp never fails it |
| Pipeline.AppendIdempotent | marshaler_test.go:27-35 | for a format that reads back what it writes, running `Append` on its own output gives the same output |
| Scenarios.AugmentStamped | marshaler_test.go:20-25 | the stamped object gains `duration` = `1s` and keeps both timestamps |
| Scenarios.CanFindKeys | marshaler_test.go:19-36 | test "can find keys" (JSON and YAML): the array's one object gains `duration` = `1s` |
| Scenarios.HogeWrapper | marshaler_test.go:38-58 | an object whose only member is `hoge` does not match, but the walk descends into that member |
| Scenarios.NestedMap | marshaler_test.go:38-58 | test "nested map": the inner object is annotated and the outer one is not |
| Scenarios.NestedList | marshaler_test.go:60-84 | test "nested list": an object inside an array held by a member is annotated |
| Scenarios.MissingFromKey | marshaler_test.go:86-101 | test "cant find from key": the document comes back as decoded |
| Scenarios.MissingToKey | marshaler_test.go:103-113 | test "cant find to key": the document comes back as decoded |
| Scenarios.UnparseableTime | marshaler_test.go:115-132 | test "cant parse time": the document comes back as decoded |
| Scenarios.UnparseableFrom | marshaler_test.go:115-132 | `hoge` as from-timestamp yields a parse error instead of an interval |
| Scenarios.CantUnmarshal | marshaler_test.go:13-17 | test "cant unmarshal": a format that cannot decode `hoge` makes `Append` fail with that error and no output |
| Scenarios.ScalarMembersUnchanged | marshaler_test.go:86-101 | descending into an object whose members are all scalars changes nothing |

## Left out

- Concrete JSON and YAML syntax is not modelled: parsing, indentation, quoting (YAML
  writes `duration: 1s` unquoted) and the lexicographic key order of the encoded output.
  A format is an abstract `Codec` of two functions, and an object is an unordered `map`.
  The "cant unmarshal" tests become the hypothesis of `Scenarios.CantUnmarshal` that
  `decode` fails on `hoge`.
- YAML documents whose mapping keys are not strings are not modelled: objects have string keys.
- Numbers are kept as `real`. Their precision and rendering belong to the format.
- Intervals.ComputeInterval: does not saturate like Go's `time.Sub`. Go clamps the
  interval at about ±292 years (the range of an `int64` count of nanoseconds); the model
  keeps exact whole seconds.
- Timestamp.Parse: rejects three kinds of input that Go's `time.Parse` accepts for this
  layout: a one-digit hour (`15` in Go's layout accepts `0`–`9`), a trailing fractional
  second (`…:01.5`), and a run of spaces where the layout has its single space
  (`2020-01-01  00:00:00`). None is exercised, and sub-second precision is outside the
  model. The third bounds `Timestamp.FormatParse` (the layout is rigid only in the model)
  and the zero-iff-equal half of `Intervals.IntervalSign` (in Go two differently spaced
  strings can denote the same instant).
- Durations.FormatDuration: covers whole seconds only. Go's millisecond, microsecond and
  nanosecond forms and fractional seconds never arise from whole-second timestamps
  without saturation.
- `NewKeyFinder` takes two key names; the result key is always `duration`, as every test
  output shows. A configurable result key is not modelled.
- Command-line handling, file and stream I/O, and the test harness are not modelled.
