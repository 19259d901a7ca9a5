/** `convert_csv_to_postgres_format` (app/importer/utils.py): rewrites the
    values of every CSV row in place and collects the rows. A row is a
    dictionary in insertion order, so it is a sequence of (column, value)
    pairs. JSON decoding is a partial function given as a parameter; any
    failure ends the whole conversion with no result. */
module CsvImport {
  import opened Wrappers
  import opened Text

  /** A converted cell: the CSV text unchanged, an integer, or a decoded
      JSON document. */
  datatype Cell<J> = Str(text: string) | Number(n: nat) | Decoded(doc: J)

  type InputRow = seq<(string, string)>
  type OutputRow<J> = seq<(string, Cell<J>)>

  /** The conversion of one value under column k. The digit test comes
      first, so a digit string becomes an integer under any column. Under
      "services" single quotes become double quotes before decoding. A
      column whose name contains "date" fails: the date parser is looked up
      on the `datetime` module, which has no such function. */
  function ConvertCell<J>(k: string, v: string, decode: string -> Option<J>): (r: Option<Cell<J>>)
    ensures IsDigitString(v) ==> r == Some(Number(DigitsValue(v)))
    ensures !IsDigitString(v) && k != "services" && !Contains(k, "date") ==> r == Some(Str(v))
    ensures !IsDigitString(v) && k != "services" && Contains(k, "date") ==> r == None
  {
    if IsDigitString(v) then Some(Number(DigitsValue(v)))
    else if k == "services" then
      match decode(ReplaceChar(v, '\'', '"'))
      case Some(doc) => Some(Decoded(doc))
      case None => None
    else if Contains(k, "date") then None
    else Some(Str(v))
  }

  predicate RowConverts<J>(row: InputRow, decode: string -> Option<J>) {
    forall j :: 0 <= j < |row| ==> ConvertCell(row[j].0, row[j].1, decode).Some?
  }

  /** One row converted value by value, keeping its columns and their order. */
  function ConvertRow<J>(row: InputRow, decode: string -> Option<J>): (r: OutputRow<J>)
    requires RowConverts(row, decode)
    ensures |r| == |row|
    ensures forall j :: 0 <= j < |row| ==>
      r[j] == (row[j].0, ConvertCell(row[j].0, row[j].1, decode).value)
  {
    seq(|row|, j requires 0 <= j < |row| && RowConverts(row, decode) =>
      (row[j].0, ConvertCell(row[j].0, row[j].1, decode).value))
  }

  /** The whole input converted, or None as soon as any value fails. */
  function Convert<J>(rows: seq<InputRow>, decode: string -> Option<J>): (r: Option<seq<OutputRow<J>>>)
    ensures r.Some? <==> forall i :: 0 <= i < |rows| ==> RowConverts(rows[i], decode)
    ensures r.Some? ==> (|r.value| == |rows| &&
      forall i :: 0 <= i < |rows| ==> r.value[i] == ConvertRow(rows[i], decode))
  {
    if forall i :: 0 <= i < |rows| ==> RowConverts(rows[i], decode) then
      Some(seq(|rows|, i requires 0 <= i < |rows| && RowConverts(rows[i], decode) => ConvertRow(rows[i], decode)))
    else None
  }

  /** The converter itself: each row's values are overwritten one by one
      while its items are walked, and the row is then appended. */
  method ConvertCsv<J>(rows: seq<InputRow>, decode: string -> Option<J>) returns (r: Option<seq<OutputRow<J>>>)
    ensures r == Convert(rows, decode)
  {
    var data: seq<OutputRow<J>> := [];
    for i := 0 to |rows|
      invariant |data| == i
      invariant forall x :: 0 <= x < i ==> RowConverts(rows[x], decode) && data[x] == ConvertRow(rows[x], decode)
    {
      var input := rows[i];
      var row: OutputRow<J> := seq(|input|, j requires 0 <= j < |input| => (input[j].0, Str(input[j].1)));
      for j := 0 to |row|
        invariant |row| == |input|
        invariant forall y :: 0 <= y < j ==>
          ConvertCell(input[y].0, input[y].1, decode).Some? &&
          row[y] == (input[y].0, ConvertCell(input[y].0, input[y].1, decode).value)
        invariant forall y :: j <= y < |row| ==> row[y] == (input[y].0, Str(input[y].1))
      {
        var (k, v) := input[j];
        if IsDigitString(v) {
          row := row[j := (k, Number(DigitsValue(v)))];
        } else if k == "services" {
          var doc := decode(ReplaceChar(v, '\'', '"'));
          if doc.None? {
            assert !RowConverts(input, decode);
            return None;
          }
          row := row[j := (k, Decoded(doc.value))];
        } else if Contains(k, "date") {
          assert !RowConverts(input, decode);
          return None;
        }
      }
      assert row == ConvertRow(input, decode);
      data := data + [row];
    }
    assert Convert(rows, decode).Some?;
    assert Convert(rows, decode).value == data;
    r := Some(data);
  }

  /** Every value made of digits becomes that integer, whatever its column,
      once the conversion succeeds. */
  lemma DigitsBecomeNumbers<J>(rows: seq<InputRow>, decode: string -> Option<J>, i: nat, j: nat)
    requires i < |rows| && j < |rows[i]| && IsDigitString(rows[i][j].1)
    requires Convert(rows, decode).Some?
    ensures Convert(rows, decode).value[i][j] == (rows[i][j].0, Number(DigitsValue(rows[i][j].1)))
  {
  }

  /** A number written out in decimal converts back to that number, under
      any column. */
  lemma DigitCellRoundTrip<J>(n: nat, k: string, decode: string -> Option<J>)
    ensures ConvertCell(k, NatToString(n), decode) == Some(Number(n))
  {
    DigitsValueOfNatToString(n);
  }

  /** A non-digit "services" value is decoded with its single quotes turned
      into double quotes; a value the decoder refuses sinks the whole
      conversion. */
  lemma ServicesDecoded<J>(rows: seq<InputRow>, decode: string -> Option<J>, i: nat, j: nat)
    requires i < |rows| && j < |rows[i]|
    requires rows[i][j].0 == "services" && !IsDigitString(rows[i][j].1)
    ensures decode(ReplaceChar(rows[i][j].1, '\'', '"')).None? ==> Convert(rows, decode) == None
    ensures Convert(rows, decode).Some? ==>
      Convert(rows, decode).value[i][j] == ("services", Decoded(decode(ReplaceChar(rows[i][j].1, '\'', '"')).value))
  {
    if decode(ReplaceChar(rows[i][j].1, '\'', '"')).None? {
      assert !RowConverts(rows[i], decode);
    }
  }

  /** Any non-digit value in a column whose name contains "date" (other
      than "services") makes the conversion give no result at all. */
  lemma DateColumnFails<J>(rows: seq<InputRow>, decode: string -> Option<J>, i: nat, j: nat)
    requires i < |rows| && j < |rows[i]|
    requires Contains(rows[i][j].0, "date") && rows[i][j].0 != "services" && !IsDigitString(rows[i][j].1)
    ensures Convert(rows, decode) == None
  {
    assert !RowConverts(rows[i], decode);
  }

  /** The result is all or nothing: a failure anywhere leaves no partial
      list, and a success converts every row, columns and order kept. */
  lemma {:induction false} AllOrNothing<J>(rows: seq<InputRow>, decode: string -> Option<J>, i: nat)
    requires i < |rows|
    ensures Convert(rows, decode).Some? ==>
      |Convert(rows, decode).value[i]| == |rows[i]| &&
      forall j :: 0 <= j < |rows[i]| ==> Convert(rows, decode).value[i][j].0 == rows[i][j].0
    ensures !RowConverts(rows[i], decode) ==> Convert(rows, decode) == None
  {
  }

  /** A successful conversion of rows a followed by rows b is the two
      conversions one after the other. */
  lemma ConvertAppend<J>(a: seq<InputRow>, b: seq<InputRow>, decode: string -> Option<J>)
    requires Convert(a, decode).Some? && Convert(b, decode).Some?
    ensures Convert(a + b, decode) == Some(Convert(a, decode).value + Convert(b, decode).value)
  {
    var ab := a + b;
    forall i | 0 <= i < |ab| ensures RowConverts(ab[i], decode) {
      if i < |a| { assert ab[i] == a[i]; } else { assert ab[i] == b[i - |a|]; }
    }
    var c := Convert(a, decode).value + Convert(b, decode).value;
    assert Convert(ab, decode).Some?;
    forall i | 0 <= i < |ab| ensures Convert(ab, decode).value[i] == c[i] {
      if i < |a| { assert ab[i] == a[i]; } else { assert ab[i] == b[i - |a|]; }
    }
    assert Convert(ab, decode).value == c;
  }

  /** Values that are neither digits nor under "services" nor under a date
      column come out as the same text, and no input gives an empty list. */
  lemma UntouchedAndEmpty<J>(decode: string -> Option<J>, k: string, v: string)
    requires !IsDigitString(v) && k != "services" && !Contains(k, "date")
    ensures Convert([[(k, v)]], decode) == Some([[(k, Str(v))]])
    ensures Convert([], decode) == Some([])
  {
    var row: InputRow := [(k, v)];
    assert RowConverts(row, decode);
    assert ConvertRow(row, decode) == [(k, Str(v))];
    assert Convert([row], decode).Some?;
    assert Convert([row], decode).value[0] == [(k, Str(v))];
    assert Convert([row], decode).value == [[(k, Str(v))]];
  }
}
