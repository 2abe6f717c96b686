/** What the spreadsheet client hands to the handler: a sheet's header row and its data rows.
    Cells are addressed by column position; `Cell` reproduces `String(row.get(header) || '')`. */
module Sheet {
  import opened Wrappers

  /** The raw cell values of one data row, left to right. */
  type Row = seq<string>

  /** A sheet as returned by `getRows()` together with its `headerValues`. */
  datatype Table = Table(headers: seq<string>, rows: seq<Row>)

  /** The text of column `i` of `row`, as `String(row.get(headers[i]) || '')` reads it:
      empty when the sheet has no `i`-th header or the row has no value in that column. */
  function Cell(headers: seq<string>, row: Row, i: int): string {
    if 0 <= i < |headers| && i < |row| then row[i] else ""
  }

  /** `rows.find(p)`, returning the position of the row found: the first row that satisfies
      `p`, or `None` when no row does. */
  function FindIndex(rows: seq<Row>, p: Row -> bool): (r: Option<nat>)
    ensures r.Some? ==> r.value < |rows| && p(rows[r.value])
    ensures r.Some? ==> forall j :: 0 <= j < r.value ==> !p(rows[j])
    ensures r.None? <==> forall j :: 0 <= j < |rows| ==> !p(rows[j])
  {
    if |rows| == 0 then None
    else if p(rows[0]) then Some(0)
    else
      match FindIndex(rows[1..], p)
      case None => None
      case Some(k) => Some(k + 1)
  }

  /** Rows appended after a matching row do not change what `find` returns. */
  lemma {:induction false} FindIndexIgnoresLaterRows(rows: seq<Row>, more: seq<Row>, p: Row -> bool)
    requires FindIndex(rows, p).Some?
    ensures FindIndex(rows + more, p) == FindIndex(rows, p)
  {
    var i := FindIndex(rows, p).value;
    var r := FindIndex(rows + more, p);
    assert p((rows + more)[i]);
    assert r.Some?;
  }

  /** `find` only looks at the predicate's verdict on each row: two predicates that agree on
      every row find the same row. */
  lemma {:induction false} FindIndexAgrees(rows: seq<Row>, p: Row -> bool, q: Row -> bool)
    requires forall j :: 0 <= j < |rows| ==> p(rows[j]) == q(rows[j])
    ensures FindIndex(rows, p) == FindIndex(rows, q)
  {
  }
}
