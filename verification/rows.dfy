/**
 * The three row adapters of value.go. Each maps its own null convention onto
 * an absent value, decodes the cells in column order, writes each decoded
 * value at its own index of the output row, and stops at the first cell that
 * does not decode. A Go slice written in place is modelled as a sequence
 * passed in and handed back.
 */
module Rows {
  import opened Wrappers
  import opened Values

  /** How a row conversion ends: normally, with the first cell's error, or with its panic. */
  datatype RowStatus =
    | Completed
    | Errored(raw: string)
    | Panicked(tag: string, raw: string)

  /** The text that marks a null cell in table-info rows. */
  const NullStringResultModeGzipDL: string := "\\N"

  /** The sentinel is a backslash followed by `N`, not a newline escape. */
  lemma NullSentinelIsBackslashN()
    ensures NullStringResultModeGzipDL == ['\\', 'N']
  {
  }

  /** A parsed CSV field: its text and whether the file marked it null. */
  datatype DownloadField = DownloadField(val: string, isNil: bool)

  /** The row status a failed cell ends the conversion with. */
  function Abort(d: Decoded): (s: RowStatus)
    requires !d.Ok?
    ensures !s.Completed?
    ensures s.Errored? <==> d.Err?
    ensures s.Errored? ==> s.raw == d.raw
    ensures s.Panicked? ==> s.tag == d.tag && s.raw == d.raw
  {
    match d
    case Err(raw) => Errored(raw)
    case Fault(tag, raw) => Panicked(tag, raw)
  }

  /** A table-info cell is absent exactly when it is the text `\N`. */
  function TableInfoCell(s: string): (c: Option<string>)
    ensures c.None? <==> s == NullStringResultModeGzipDL
    ensures c.Some? ==> c.value == s
  {
    if s == NullStringResultModeGzipDL then None else Some(s)
  }

  /** A CSV cell is absent exactly when its null flag is set, whatever its text. */
  function CsvCell(f: DownloadField): (c: Option<string>)
    ensures c.None? <==> f.isNil
    ensures c.Some? ==> c.value == f.val
  {
    if f.isNil then None else Some(f.val)
  }

  function TableInfoCells(input: seq<string>): (cells: seq<Option<string>>)
    ensures |cells| == |input|
    ensures forall i :: 0 <= i < |input| ==> cells[i] == TableInfoCell(input[i])
  {
    seq(|input|, i requires 0 <= i < |input| => TableInfoCell(input[i]))
  }

  function CsvCells(input: seq<DownloadField>): (cells: seq<Option<string>>)
    ensures |cells| == |input|
    ensures forall i :: 0 <= i < |input| ==> cells[i] == CsvCell(input[i])
  {
    seq(|input|, i requires 0 <= i < |input| => CsvCell(input[i]))
  }

  /**
   * The index of the first cell that does not decode, or the number of cells
   * when they all do.
   */
  function FirstFailure(columns: seq<string>, cells: seq<Option<string>>, p: Parsers): (k: nat)
    requires |columns| >= |cells|
    ensures k <= |cells|
    ensures forall i :: 0 <= i < k ==> ConvertValue(columns[i], cells[i], p).Ok?
    ensures k < |cells| ==> !ConvertValue(columns[k], cells[k], p).Ok?
    decreases |cells|
  {
    if |cells| == 0 then 0
    else if !ConvertValue(columns[0], cells[0], p).Ok? then 0
    else 1 + FirstFailure(columns[1..], cells[1..], p)
  }

  /**
   * What a row adapter promises about the cells it decodes (already mapped to
   * optional texts): the output row keeps its length; every cell before the
   * first failing one holds its decoded value at its own index; every other
   * entry of the output row is left as it was; and the status is `Completed`
   * exactly when no cell fails, otherwise the failing cell's error or panic.
   */
  ghost predicate RowConverted(columns: seq<string>, cells: seq<Option<string>>, p: Parsers,
                               ret: seq<Value>, status: RowStatus, ret': seq<Value>)
    requires |columns| >= |cells| && |ret| >= |cells|
  {
    var k := FirstFailure(columns, cells, p);
    && |ret'| == |ret|
    && (forall i :: 0 <= i < k ==> ConvertValue(columns[i], cells[i], p) == Ok(ret'[i]))
    && (forall i :: k <= i < |ret| ==> ret'[i] == ret[i])
    && (k == |cells| ==> status == Completed)
    && (k < |cells| ==> status == Abort(ConvertValue(columns[k], cells[k], p)))
  }

  /** `convertRow`: a query-result datum is absent when it carries no text. */
  method ConvertRow(columns: seq<string>, input: seq<Option<string>>, ret: seq<Value>, p: Parsers)
    returns (status: RowStatus, ret': seq<Value>)
    requires |columns| >= |input| && |ret| >= |input|
    ensures |ret'| == |ret|
    ensures status.Completed? <==> forall i :: 0 <= i < |input| ==> ConvertValue(columns[i], input[i], p).Ok?
    ensures RowConverted(columns, input, p, ret, status, ret')
  {
    ret' := ret;
    var i := 0;
    while i < |input|
      invariant 0 <= i <= |input|
      invariant |ret'| == |ret|
      invariant i <= FirstFailure(columns, input, p)
      invariant forall j :: 0 <= j < i ==> ConvertValue(columns[j], input[j], p) == Ok(ret'[j])
      invariant forall j :: i <= j < |ret| ==> ret'[j] == ret[j]
    {
      var coerced := ConvertValue(columns[i], input[i], p);
      if !coerced.Ok? {
        return Abort(coerced), ret';
      }
      assert i < FirstFailure(columns, input, p);
      ret' := ret'[i := coerced.value];
      i := i + 1;
    }
    status := Completed;
  }

  /** `convertRowFromTableInfo`: a table-info cell is absent when it is the text `\N`. */
  method ConvertRowFromTableInfo(columns: seq<string>, input: seq<string>, ret: seq<Value>, p: Parsers)
    returns (status: RowStatus, ret': seq<Value>)
    requires |columns| >= |input| && |ret| >= |input|
    ensures |ret'| == |ret|
    ensures status.Completed? <==>
              forall i :: 0 <= i < |input| ==> ConvertValue(columns[i], TableInfoCells(input)[i], p).Ok?
    ensures RowConverted(columns, TableInfoCells(input), p, ret, status, ret')
  {
    ghost var cells := TableInfoCells(input);
    ret' := ret;
    var i := 0;
    while i < |input|
      invariant 0 <= i <= |input|
      invariant |ret'| == |ret|
      invariant i <= FirstFailure(columns, cells, p)
      invariant forall j :: 0 <= j < i ==> ConvertValue(columns[j], cells[j], p) == Ok(ret'[j])
      invariant forall j :: i <= j < |ret| ==> ret'[j] == ret[j]
    {
      var coerced;
      if input[i] == NullStringResultModeGzipDL {
        coerced := ConvertValue(columns[i], None, p);
      } else {
        coerced := ConvertValue(columns[i], Some(input[i]), p);
      }
      assert coerced == ConvertValue(columns[i], cells[i], p);
      if !coerced.Ok? {
        return Abort(coerced), ret';
      }
      assert i < FirstFailure(columns, cells, p);
      ret' := ret'[i := coerced.value];
      i := i + 1;
    }
    status := Completed;
  }

  /** `convertRowFromCsv`: a CSV field is absent when its null flag is set. */
  method ConvertRowFromCsv(columns: seq<string>, input: seq<DownloadField>, ret: seq<Value>, p: Parsers)
    returns (status: RowStatus, ret': seq<Value>)
    requires |columns| >= |input| && |ret| >= |input|
    ensures |ret'| == |ret|
    ensures status.Completed? <==>
              forall i :: 0 <= i < |input| ==> ConvertValue(columns[i], CsvCells(input)[i], p).Ok?
    ensures RowConverted(columns, CsvCells(input), p, ret, status, ret')
  {
    ghost var cells := CsvCells(input);
    ret' := ret;
    var i := 0;
    while i < |input|
      invariant 0 <= i <= |input|
      invariant |ret'| == |ret|
      invariant i <= FirstFailure(columns, cells, p)
      invariant forall j :: 0 <= j < i ==> ConvertValue(columns[j], cells[j], p) == Ok(ret'[j])
      invariant forall j :: i <= j < |ret| ==> ret'[j] == ret[j]
    {
      var coerced;
      if input[i].isNil {
        coerced := ConvertValue(columns[i], None, p);
      } else {
        coerced := ConvertValue(columns[i], Some(input[i].val), p);
      }
      assert coerced == ConvertValue(columns[i], cells[i], p);
      if !coerced.Ok? {
        return Abort(coerced), ret';
      }
      assert i < FirstFailure(columns, cells, p);
      ret' := ret'[i := coerced.value];
      i := i + 1;
    }
    status := Completed;
  }

  /**
   * A row whose cells are all absent converts completely to nulls, whatever
   * the column types, under every null convention.
   */
  lemma NullCellsNeverFail(columns: seq<string>, cells: seq<Option<string>>, p: Parsers)
    requires |columns| >= |cells|
    requires forall i :: 0 <= i < |cells| ==> cells[i].None?
    ensures FirstFailure(columns, cells, p) == |cells|
    ensures forall i :: 0 <= i < |cells| ==> ConvertValue(columns[i], cells[i], p) == Ok(Null)
  {
  }

  /** A table-info row made only of `\N` cells converts completely to nulls. */
  lemma TableInfoNullRow(columns: seq<string>, input: seq<string>, p: Parsers)
    requires |columns| >= |input|
    requires forall i :: 0 <= i < |input| ==> input[i] == NullStringResultModeGzipDL
    ensures FirstFailure(columns, TableInfoCells(input), p) == |input|
    ensures forall i :: 0 <= i < |input| ==> ConvertValue(columns[i], TableInfoCells(input)[i], p) == Ok(Null)
  {
    NullCellsNeverFail(columns, TableInfoCells(input), p);
  }

  /** A CSV row whose fields are all flagged null converts completely to nulls, whatever their text. */
  lemma CsvNullRow(columns: seq<string>, input: seq<DownloadField>, p: Parsers)
    requires |columns| >= |input|
    requires forall i :: 0 <= i < |input| ==> input[i].isNil
    ensures FirstFailure(columns, CsvCells(input), p) == |input|
    ensures forall i :: 0 <= i < |input| ==> ConvertValue(columns[i], CsvCells(input)[i], p) == Ok(Null)
  {
    NullCellsNeverFail(columns, CsvCells(input), p);
  }

  /**
   * The sentinel shadows text: a table-info cell holding `\N` is null even in
   * a text column, so that text can never be decoded from a table-info row.
   */
  lemma TableInfoSentinelIsNull(athenaType: string, s: string, p: Parsers)
    requires s != NullStringResultModeGzipDL
    ensures ConvertValue(athenaType, TableInfoCell(NullStringResultModeGzipDL), p) == Ok(Null)
    ensures ConvertValue("varchar", TableInfoCell(s), p) == Ok(Text(s))
  {
  }

  /**
   * The CSV adapter reads a field's text only when its null flag is clear: two
   * field lists that agree on their flags and on the text of their non-null
   * fields present the same cells to the decoder.
   */
  lemma CsvNullTextIgnored(a: seq<DownloadField>, b: seq<DownloadField>)
    requires |a| == |b|
    requires forall i :: 0 <= i < |a| ==> a[i].isNil == b[i].isNil
    requires forall i :: 0 <= i < |a| && !a[i].isNil ==> a[i].val == b[i].val
    ensures CsvCells(a) == CsvCells(b)
  {
  }

  /**
   * Where no cell is the sentinel, the table-info adapter presents exactly the
   * cells `convertRow` would be given for the same texts.
   */
  lemma TableInfoWithoutSentinel(input: seq<string>)
    requires forall i :: 0 <= i < |input| ==> input[i] != NullStringResultModeGzipDL
    ensures TableInfoCells(input) == seq(|input|, i requires 0 <= i < |input| => Some(input[i]))
  {
  }
}
