/**
 * The type-directed decoder of value.go: a declared Athena column type name
 * and an optional cell text become a typed driver value, a recoverable
 * error, or a fault (the Go code panics).
 */
module Values {
  import opened Wrappers
  import opened Strconv

  /** A float64 as returned by `strconv.ParseFloat`; its contents are not interpreted here. */
  datatype Float64 = Float64(bits: bv64)

  /** A `time.Time` as returned by `time.Parse`; its contents are not interpreted here. */
  datatype Instant = Instant(unixNanos: int, zone: string)

  /** The dynamic types a decoded `driver.Value` can hold. */
  datatype Value =
    | Null
    | Int64Val(i: Int64)
    | Bool(b: bool)
    | Float64Val(f: Float64)
    | Text(s: string)
    | TimeVal(t: Instant)

  /**
   * What one cell decodes to. Every error the Go code can return names the
   * offending text; the panic on an unknown type names the type and the text.
   */
  datatype Decoded =
    | Ok(value: Value)
    | Err(raw: string)
    | Fault(tag: string, raw: string)

  /**
   * The two library parsers whose behaviour is not modelled: `strconv.ParseFloat`
   * given a text and a bit size, and `time.Parse` given a layout and a text.
   * `None` stands for the error they return.
   */
  datatype Parsers = Parsers(
    parseFloat: (string, nat) -> Option<Float64>,
    parseTime: (string, string) -> Option<Instant>)

  const TimestampLayout: string := "2006-01-02 15:04:05.999"
  const TimestampWithTimeZoneLayout: string := "2006-01-02 15:04:05.999 MST"
  const DateLayout: string := "2006-01-02"

  /** Tags whose text is passed through without any validation. */
  predicate IsPassThroughTag(tag: string)
  {
    tag == "varchar" || tag == "string" || tag == "json" || tag == "char" || tag == "varbinary"
    || tag == "row" || tag == "binary" || tag == "struct" || tag == "interval year to month"
    || tag == "interval day to second" || tag == "ipaddress" || tag == "array" || tag == "map"
    || tag == "unknown"
  }

  /** Tags whose text must parse. */
  predicate IsParsedTag(tag: string)
  {
    tag == "smallint" || tag == "integer" || tag == "int" || tag == "bigint" || tag == "boolean"
    || tag == "float" || tag == "double" || tag == "decimal" || tag == "timestamp"
    || tag == "timestamp with time zone" || tag == "date"
  }

  /** Every tag the decoder has a rule for. */
  predicate IsKnownTag(tag: string)
  {
    IsPassThroughTag(tag) || IsParsedTag(tag)
  }

  /** The bit size `ParseInt` is given for an integer tag. */
  function IntegerWidth(tag: string): Option<BitSize>
  {
    if tag == "smallint" then Some(16)
    else if tag == "integer" || tag == "int" then Some(32)
    else if tag == "bigint" then Some(64)
    else None
  }

  /**
   * Any type name longer than `decimal` that starts with it (`decimal(10,2)`)
   * becomes the bare tag `decimal`; every other name is kept as it is.
   */
  function NormalizeType(athenaType: string): (tag: string)
    ensures tag == athenaType || tag == "decimal"
    ensures tag == "decimal" <==> athenaType == "decimal" || (|athenaType| > 7 && athenaType[..7] == "decimal")
  {
    if |athenaType| > 7 && athenaType[..7] == "decimal" then "decimal" else athenaType
  }

  function IntegerResult(r: Option<Int64>, raw: string): Decoded
  {
    match r
    case Some(n) => Ok(Int64Val(n))
    case None => Err(raw)
  }

  function FloatResult(r: Option<Float64>, raw: string): Decoded
  {
    match r
    case Some(f) => Ok(Float64Val(f))
    case None => Err(raw)
  }

  function TimeResult(r: Option<Instant>, raw: string): Decoded
  {
    match r
    case Some(t) => Ok(TimeVal(t))
    case None => Err(raw)
  }

  /**
   * `convertValue`: an absent value is null for every type name; otherwise the
   * name is normalised and dispatched on. Only the text-like tags can never
   * fail, only an unknown tag faults, and every error names the raw text.
   */
  function ConvertValue(athenaType: string, rawValue: Option<string>, p: Parsers): (r: Decoded)
    ensures rawValue.None? ==> r == Ok(Null)
    ensures r.Fault? <==> rawValue.Some? && !IsKnownTag(NormalizeType(athenaType))
    ensures r.Fault? ==> r == Fault(NormalizeType(athenaType), rawValue.value)
    ensures r.Err? ==> rawValue.Some? && r.raw == rawValue.value && IsParsedTag(NormalizeType(athenaType))
    ensures r.Ok? && r.value.Int64Val? ==>
              IntegerWidth(NormalizeType(athenaType)).Some? &&
              InRange(r.value.i, IntegerWidth(NormalizeType(athenaType)).value)
    ensures r.Ok? && r.value.Text? ==> IsPassThroughTag(NormalizeType(athenaType)) && r.value.s == rawValue.value
  {
    if rawValue.None? then Ok(Null)
    else
      var tag := NormalizeType(athenaType);
      var val := rawValue.value;
      if tag == "smallint" then IntegerResult(ParseInt(val, 16), val)
      else if tag == "integer" || tag == "int" then IntegerResult(ParseInt(val, 32), val)
      else if tag == "bigint" then IntegerResult(ParseInt(val, 64), val)
      else if tag == "boolean" then
        if val == "true" then Ok(Bool(true))
        else if val == "false" then Ok(Bool(false))
        else Err(val)
      else if tag == "float" then FloatResult(p.parseFloat(val, 32), val)
      else if tag == "double" || tag == "decimal" then FloatResult(p.parseFloat(val, 64), val)
      else if tag == "varchar" || tag == "string" then Ok(Text(val))
      else if tag == "timestamp" then TimeResult(p.parseTime(TimestampLayout, val), val)
      else if tag == "timestamp with time zone" then TimeResult(p.parseTime(TimestampWithTimeZoneLayout, val), val)
      else if tag == "date" then TimeResult(p.parseTime(DateLayout, val), val)
      else if tag == "json" || tag == "char" || tag == "varbinary" || tag == "row" || tag == "binary"
           || tag == "struct" || tag == "interval year to month" || tag == "interval day to second"
           || tag == "ipaddress" || tag == "array" || tag == "map" || tag == "unknown" then Ok(Text(val))
      else Fault(tag, val)
  }

  /** Normalising a normalised name changes nothing. */
  lemma NormalizeTypeIdempotent(athenaType: string)
    ensures NormalizeType(NormalizeType(athenaType)) == NormalizeType(athenaType)
  {
  }

  /** Every parameterised decimal name decodes exactly as the bare tag `decimal` does. */
  lemma DecimalFamily(suffix: string, rawValue: Option<string>, p: Parsers)
    requires |suffix| > 0
    ensures ConvertValue("decimal" + suffix, rawValue, p) == ConvertValue("decimal", rawValue, p)
  {
  }

  /** `decimal(10,2)` is one such name. */
  lemma DecimalWithPrecision(rawValue: Option<string>, p: Parsers)
    ensures ConvertValue("decimal(10,2)", rawValue, p) == ConvertValue("decimal", rawValue, p)
  {
  }

  /**
   * An integer tag accepts exactly the base-10 literals whose value lies in
   * its signed range, decodes them to that value, and rejects everything else
   * with an error naming the text.
   */
  lemma IntegerTag(athenaType: string, s: string, p: Parsers)
    requires IntegerWidth(NormalizeType(athenaType)).Some?
    ensures var r := ConvertValue(athenaType, Some(s), p);
            var w := IntegerWidth(NormalizeType(athenaType)).value;
            && (r.Ok? <==> IsDecimalLiteral(s) && InRange(LiteralValue(s), w))
            && (r.Ok? ==> r.value == Int64Val(LiteralValue(s)))
            && (!r.Ok? ==> r == Err(s))
  {
  }

  /** The base-10 text of an in-range integer decodes back to that integer. */
  lemma IntegerRoundTrip(athenaType: string, n: int, p: Parsers)
    requires IntegerWidth(NormalizeType(athenaType)).Some?
    requires InRange(n, IntegerWidth(NormalizeType(athenaType)).value)
    ensures ConvertValue(athenaType, Some(FormatInt(n)), p) == Ok(Int64Val(n))
  {
    ParseFormatInt(n, IntegerWidth(NormalizeType(athenaType)).value);
  }

  lemma IntegerExamples(p: Parsers)
    ensures ConvertValue("bigint", Some("42"), p) == Ok(Int64Val(42))
    ensures ConvertValue("smallint", Some("99999"), p) == Err("99999")
    ensures ConvertValue("integer", Some("99999"), p) == Ok(Int64Val(99999))
  {
    IntegerRoundTrip("bigint", 42, p);
    assert FormatInt(42) == "42";
    SmallintOverflow();
  }

  /** `boolean` accepts exactly the texts `true` and `false`. */
  lemma BooleanTag(athenaType: string, s: string, p: Parsers)
    requires NormalizeType(athenaType) == "boolean"
    ensures ConvertValue(athenaType, Some(s), p) == Ok(Bool(true)) <==> s == "true"
    ensures ConvertValue(athenaType, Some(s), p) == Ok(Bool(false)) <==> s == "false"
    ensures ConvertValue(athenaType, Some(s), p).Err? <==> s != "true" && s != "false"
  {
  }

  lemma BooleanRoundTrip(b: bool, p: Parsers)
    ensures ConvertValue("boolean", Some(FormatBool(b)), p) == Ok(Bool(b))
  {
  }

  /** Capitalised and empty texts are not booleans. */
  lemma BooleanExamples(p: Parsers)
    ensures ConvertValue("boolean", Some("True"), p) == Err("True")
    ensures ConvertValue("boolean", Some(""), p) == Err("")
    ensures ConvertValue("boolean", Some("yes"), p) == Err("yes")
  {
  }

  /** Text-like tags hand the raw text back unchanged and never fail. */
  lemma PassThroughTag(athenaType: string, s: string, p: Parsers)
    requires IsPassThroughTag(NormalizeType(athenaType))
    ensures ConvertValue(athenaType, Some(s), p) == Ok(Text(s))
  {
  }

  /**
   * `float` parses at 32-bit precision and `double` and `decimal` at 64-bit
   * precision; the decoded value is the parser's, and a parser error is an
   * error naming the text.
   */
  lemma FloatTag(athenaType: string, s: string, p: Parsers)
    requires NormalizeType(athenaType) in {"float", "double", "decimal"}
    ensures var bits := if NormalizeType(athenaType) == "float" then 32 else 64;
            var r := ConvertValue(athenaType, Some(s), p);
            && (r.Ok? <==> p.parseFloat(s, bits).Some?)
            && (r.Ok? ==> r.value == Float64Val(p.parseFloat(s, bits).value))
            && (!r.Ok? ==> r == Err(s))
  {
  }

  /** The layout each temporal tag is parsed against. */
  function LayoutFor(tag: string): Option<string>
  {
    if tag == "timestamp" then Some(TimestampLayout)
    else if tag == "timestamp with time zone" then Some(TimestampWithTimeZoneLayout)
    else if tag == "date" then Some(DateLayout)
    else None
  }

  /**
   * The temporal tags parse with their fixed layout; the decoded value is the
   * parser's, and a parser error is an error naming the text.
   */
  lemma TimeTag(athenaType: string, s: string, p: Parsers)
    requires LayoutFor(NormalizeType(athenaType)).Some?
    ensures var layout := LayoutFor(NormalizeType(athenaType)).value;
            var r := ConvertValue(athenaType, Some(s), p);
            && (r.Ok? <==> p.parseTime(layout, s).Some?)
            && (r.Ok? ==> r.value == TimeVal(p.parseTime(layout, s).value))
            && (!r.Ok? ==> r == Err(s))
  {
  }

  /** A type name with no rule faults instead of decoding, even for empty text; a null still decodes. */
  lemma UnknownTagExample(p: Parsers)
    ensures ConvertValue("uuid", Some(""), p) == Fault("uuid", "")
    ensures ConvertValue("uuid", None, p) == Ok(Null)
  {
  }
}
