# Athena value decoding, modelled in Dafny

This project models `value.go` of the Go driver for Amazon Athena: the decoder
that turns the textual cell values the query service returns into typed
`driver.Value`s, and the three row adapters that feed it.

- `wrappers.dfy` — `Option`, the model of a `*string` that may be nil.
- `strconv.dfy` — `strconv.ParseInt` in base 10 for bit sizes 16, 32 and 64,
  modelled exactly (an optional `+`/`-`, at least one digit, and the signed
  range of the size), with base-10 and boolean formatting used to state round
  trips.
- `values.dfy` — `Value` (the dynamic types a decoded cell can hold), `Decoded`
  (`Ok`, `Err` for Go's returned error, `Fault` for Go's panic),
  `NormalizeType` (the `decimal(...)` collapse) and `ConvertValue`
  (`convertValue`), with one lemma per family of tags.
- `rows.dfy` — `ConvertRow`, `ConvertRowFromTableInfo` and `ConvertRowFromCsv`.
  Each maps its own null convention onto an absent value (no datum text; the
  text `\N`; the `isNil` flag) and loops over the cells, stopping at the first
  failure. The Go slice `ret` that the adapters write into is modelled as a
  sequence passed in and handed back; `RowConverted` states what is in it
  afterwards, and `FirstFailure` names the cell a conversion stops at.

`strconv.ParseFloat` and `time.Parse` are not modelled: they are fields of a
`Parsers` record passed to `ConvertValue`, and the model states only which
parser is called, with which bit size or layout, and how its answer is passed
on.

Behaviour of the code worth noting:

- `ParseInt` always yields an `int64`, so every integer tag decodes to
  `Int64Val`; only the accepted range depends on the tag. Likewise every float
  tag yields a float64.
- Any type name longer than seven characters that starts with `decimal` is
  collapsed to `decimal`, not only `decimal(p,s)`; a name that starts with
  `Decimal` is not collapsed and faults.
- A row that fails is not discarded by the adapters: the values of the cells
  before the failing one have already been written into `ret`, and the rest of
  `ret` is left as it was.
- The adapters require only that `columns` and `ret` are at least as long as
  the input; an equal length is not checked.
- An integer error names only the offending text, not the column type; the
  boolean error names the text and says `as boolean`.

## Model

| member | source | states |
|---|---|---|
| Strconv.ParseInt | value.go:85-90 | a text parses exactly when it is an optional sign followed by digits whose value lies in the signed range of the bit size, and then to that value |
| Strconv.ParseFormatInt | value.go:85-90 | the base-10 text of every integer in the range of a bit size parses back to that integer |
| Strconv.ParseIntWidens | value.go:85-90 | a text accepted as a `smallint` or `integer` is accepted with the same value by every wider integer tag |
| Strconv.SmallintOverflow | value.go:85-88 | `99999` is out of range for a 16-bit integer but parses as a 32-bit one |
| Values.NormalizeType | value.go:79-81 | a type name becomes `decimal` exactly when it is `decimal` or longer than seven characters and starts with `decimal`; otherwise it is kept |
| Values.NormalizeTypeIdempotent | value.go:79-81 | normalising twice is normalising once |
| Values.ConvertValue | value.go:74-120 | an absent value is null for every type name; a present value faults exactly when its normalised tag has no rule, naming the tag and text; errors only come from tags that parse and name the raw text; integers lie in their tag's range; text results are the raw text of a text-like tag |
| Values.DecimalFamily | value.go:79-102 | every name `decimal` followed by a non-empty suffix decodes exactly as `decimal` does, for every raw value |
| Values.DecimalWithPrecision | value.go:79-102 | `decimal(10,2)` decodes exactly as `decimal` |
| Values.IntegerTag | value.go:85-90 | `smallint`, `integer`/`int` and `bigint` accept exactly the base-10 literals inside the signed 16-, 32- and 64-bit range, decode them to their value, and otherwise give an error naming the text |
| Values.IntegerRoundTrip | value.go:85-90 | the base-10 text of an in-range integer decodes back to that integer under its integer tag |
| Values.IntegerExamples | value.go:85-90 | `bigint` `42` is 42; `smallint` `99999` is an error; `integer` `99999` is 99999 |
| Values.BooleanTag | value.go:91-98 | `boolean` decodes to true exactly for `true`, to false exactly for `false`, and every other text is an error |
| Values.BooleanRoundTrip | value.go:91-98 | the formatted text of a boolean decodes back to it |
| Values.BooleanExamples | value.go:91-98 | `True`, the empty text and `yes` are errors, not booleans |
| Values.PassThroughTag | value.go:103-116 | `varchar`, `string` and the twelve unvalidated tags return the raw text unchanged and never fail |
| Values.FloatTag | value.go:99-102 | `float` is parsed at 32 bits and `double`/`decimal` at 64 bits; success gives the parser's value and failure an error naming the text |
| Values.TimeTag | value.go:105-110 | `timestamp`, `timestamp with time zone` and `date` are parsed with their fixed layouts; success gives the parser's time and failure an error naming the text |
| Values.UnknownTagExample | value.go:117-118 | an unknown tag faults even for empty text, yet a null under it is still null |
| Rows.FirstFailure | value.go:22-26 | the index where a row conversion stops: every earlier cell decodes, and the cell there (if any) does not |
| Rows.TableInfoCell | value.go:38-43 | a table-info cell is absent exactly when it is the text `\N`, and otherwise is its own text |
| Rows.CsvCell | value.go:58-63 | a CSV cell is absent exactly when its null flag is set, whatever its text, and otherwise is its text |
| Rows.ConvertRow | value.go:21-32 | `ret` keeps its length; each cell before the first failing one is stored decoded at its own index; every later entry is unchanged; the status is complete exactly when every cell decodes, otherwise the first failing cell's error or panic |
| Rows.ConvertRowFromTableInfo | value.go:34-52 | the same row contract, with `\N` cells decoded as absent |
| Rows.ConvertRowFromCsv | value.go:54-72 | the same row contract, with cells flagged null decoded as absent |
| Rows.NullCellsNeverFail | value.go:74-77 | a row of absent cells converts completely to nulls, whatever the column types |
| Rows.TableInfoNullRow | value.go:34-52 | a table-info row made only of `\N` converts completely to nulls |
| Rows.CsvNullRow | value.go:54-72 | a CSV row whose fields are all flagged null converts completely to nulls, whatever their text |
| Rows.TableInfoSentinelIsNull | value.go:38-43 | a table-info cell holding `\N` is null under every type name, so that text is never decoded as text; every other text in a `varchar` column is kept as that text |
| Rows.NullSentinelIsBackslashN | value.go:19 | the table-info null sentinel is the two-character text backslash, `N` |
| Rows.Abort | value.go:23-25 | a failing cell ends the row with that cell's outcome: an error stays an error naming the same text, a panic stays a panic naming the same type and text |
| Rows.CsvNullTextIgnored | value.go:58-63 | the CSV adapter ignores the text of fields flagged null: field lists agreeing on flags and on non-null texts give the decoder the same cells |
| Rows.TableInfoWithoutSentinel | value.go:41-43 | without the sentinel, the table-info adapter gives the decoder every text as present, exactly as a datum row with those texts |

## Left out

- `strconv.ParseFloat`: floating-point parsing is a parameter of `ConvertValue` returning an opaque float64 or an error; no property of the numbers themselves is claimed.
- `time.Parse` and the three layout constants' meaning: temporal parsing is a parameter taking the layout and the text; no format round trip is claimed.
- Error messages: an error is modelled by the raw text it names and a panic by the tag and text; the `fmt.Errorf` wording and Go's syntax-versus-range error kinds are not kept.
- The value `convertValue` returns alongside any error (`ParseInt`'s 0 or clamped bound, `ParseFloat`'s infinity or 0, `time.Parse`'s zero time): every adapter ignores it, so `Err` carries only the raw text.
- `strconv.ParseInt` for bases other than 10 and bit sizes other than 16, 32 and 64: the decoder never asks for them.
- The AWS SDK types `athena.ColumnInfo`, `athena.Column` and `athena.Datum`: a column is its type name and a datum its optional text; a nil `Type` pointer or nil datum (a Go nil dereference) is not modelled.
- `downloadField` is defined outside `value.go`; only its `val` and `isNil` fields are modelled.
- Go's index-out-of-range panics in the adapters: `columns` and `ret` are required to be at least as long as the input instead.
- Strings are sequences of characters rather than of bytes; every comparison the decoder makes is against ASCII text, so the outcome is the same.
- Concurrency: the decoder is pure, and the adapters are modelled as functions of their inputs.
