/** The row filter of the spreadsheet import (services/excelService.ts).
    Reading the file and decoding the workbook are outside the model: the
    input is the first sheet as `sheet_to_json(..., { header: 1 })` hands
    it over, a list of rows, each missing or a list of cells. Row 0 is the
    header. */
module Excel {
  import opened Wrappers
  import opened Types
  import Text

  /** A cell value: empty (a hole or `undefined`), text, a number (integral
      here) or a boolean. */
  datatype Cell = Blank | Str(s: string) | Num(n: int) | Bool(b: bool)

  /** A row: absent (`null`/`undefined`) or its cells. */
  type Row = Option<seq<Cell>>

  /** Why an import is rejected. */
  datatype ExcelError = TooFewRows | NoValidRows

  /** JavaScript falsiness of a cell value. */
  predicate Falsy(c: Cell) {
    c == Blank || c == Str("") || c == Num(0) || c == Bool(false)
  }

  /** `String(value)`. */
  function CellText(c: Cell): (r: string)
    ensures c.Str? ==> r == c.s
    ensures c.Num? ==> r == Text.IntToString(c.n)
  {
    match c
    case Blank => "undefined"
    case Str(s) => s
    case Num(n) => Text.IntToString(n)
    case Bool(b) => if b then "true" else "false"
  }

  /** A row yields an entry when it is present, has at least three cells,
      and none of its first three cells is falsy. */
  predicate Usable(row: Row) {
    row.Some? && |row.value| >= 3
    && !Falsy(row.value[0]) && !Falsy(row.value[1]) && !Falsy(row.value[2])
  }

  /** The id the import gives the entry of row `i`: the clock reading taken
      for it, then the row index. */
  function RowId(stamp: nat -> nat, i: nat): string {
    "excel-" + Text.NatToString(stamp(i)) + "-" + Text.NatToString(i)
  }

  /** The entry built from a usable row: the first three cells, as text and
      trimmed. */
  function RowItem(row: Row, i: nat, stamp: nat -> nat): (v: VocabItem)
    requires Usable(row)
    ensures v.id == RowId(stamp, i)
    ensures Text.Trimmed(v.hanzi) && Text.Trimmed(v.pinyin) && Text.Trimmed(v.meaning)
    ensures v.hanzi == Text.Trim(CellText(row.value[0]))
    ensures v.pinyin == Text.Trim(CellText(row.value[1]))
    ensures v.meaning == Text.Trim(CellText(row.value[2]))
  {
    var cells := row.value;
    VocabItem(RowId(stamp, i), Text.Trim(CellText(cells[0])), Text.Trim(CellText(cells[1])), Text.Trim(CellText(cells[2])))
  }

  /** The usable row indices in `[1, n)`, ascending: the header is never
      among them. */
  function UsableRows(rows: seq<Row>, n: nat): (r: seq<nat>)
    requires n <= |rows|
    ensures forall j :: 0 <= j < |r| ==> 1 <= r[j] < n
    ensures forall j, k :: 0 <= j < k < |r| ==> r[j] < r[k]
    ensures forall i :: 1 <= i < n ==> (i in r <==> Usable(rows[i]))
  {
    if n <= 1 then []
    else
      var p := UsableRows(rows, n - 1);
      if Usable(rows[n - 1]) then p + [n - 1] else p
  }

  /** The entries collected from rows `1 .. n-1`, in row order: one per
      usable row. */
  function Collect(rows: seq<Row>, n: nat, stamp: nat -> nat): (r: seq<VocabItem>)
    requires n <= |rows|
    ensures |r| == |UsableRows(rows, n)|
  {
    if n <= 1 then []
    else
      var p := Collect(rows, n - 1, stamp);
      if Usable(rows[n - 1]) then p + [RowItem(rows[n - 1], n - 1, stamp)] else p
  }

  /** The `j`-th collected entry is the one built from the `j`-th usable
      row. */
  lemma {:induction false} CollectSpec(rows: seq<Row>, n: nat, stamp: nat -> nat)
    requires n <= |rows|
    ensures forall j :: 0 <= j < |Collect(rows, n, stamp)| ==>
      var i := UsableRows(rows, n)[j]; Usable(rows[i]) && Collect(rows, n, stamp)[j] == RowItem(rows[i], i, stamp)
  {
    if n > 1 {
      CollectSpec(rows, n - 1, stamp);
      var u := UsableRows(rows, n - 1);
      var p := Collect(rows, n - 1, stamp);
      if Usable(rows[n - 1]) {
        var r := Collect(rows, n, stamp);
        var v := UsableRows(rows, n);
        assert v == u + [n - 1];
        assert r == p + [RowItem(rows[n - 1], n - 1, stamp)];
        forall j | 0 <= j < |r| ensures Usable(rows[v[j]]) && r[j] == RowItem(rows[v[j]], v[j], stamp) {
          if j < |p| {
            assert r[j] == p[j] && v[j] == u[j];
          }
        }
      } else {
        assert UsableRows(rows, n) == u;
      }
    }
  }

  /** The import: fewer than two rows is an error, as is a sheet in which no
      row after the header is usable; otherwise the collected entries. */
  function ParseRows(rows: seq<Row>, stamp: nat -> nat): (r: Result<seq<VocabItem>, ExcelError>)
    ensures |rows| < 2 <==> r == Failure(TooFewRows)
    ensures r == Failure(NoValidRows) <==> |rows| >= 2 && forall i :: 1 <= i < |rows| ==> !Usable(rows[i])
    ensures r.Success? ==> |r.value| >= 1 && |r.value| < |rows|
  {
    if |rows| < 2 then Failure(TooFewRows)
    else
      var items := Collect(rows, |rows|, stamp);
      if |items| == 0 then
        assert forall i :: 1 <= i < |rows| ==> !Usable(rows[i]);
        Failure(NoValidRows)
      else
        CollectBound(rows, |rows|);
        assert Usable(rows[UsableRows(rows, |rows|)[0]]);
        Success(items)
  }

  /** At most one entry per row after the header. */
  lemma {:induction false} CollectBound(rows: seq<Row>, n: nat)
    requires 1 <= n <= |rows|
    ensures |UsableRows(rows, n)| <= n - 1
  {
    if n > 1 {
      CollectBound(rows, n - 1);
    }
  }

  /** The loop of excelService.ts: rows `1 .. |rows|-1` are visited in order and
      each usable one pushes its entry. */
  method ParseRowsLoop(rows: seq<Row>, stamp: nat -> nat) returns (r: Result<seq<VocabItem>, ExcelError>)
    ensures r == ParseRows(rows, stamp)
  {
    if |rows| < 2 {
      return Failure(TooFewRows);
    }
    var items: seq<VocabItem> := [];
    var i := 1;
    while i < |rows|
      invariant 1 <= i <= |rows|
      invariant items == Collect(rows, i, stamp)
    {
      var row := rows[i];
      if row.Some? && |row.value| >= 3 {
        var cells := row.value;
        if !Falsy(cells[0]) && !Falsy(cells[1]) && !Falsy(cells[2]) {
          items := items + [RowItem(row, i, stamp)];
        }
      }
      i := i + 1;
    }
    if |items| == 0 {
      return Failure(NoValidRows);
    }
    return Success(items);
  }

  /** Entries of different rows never share an id, whatever the clock
      reads: the row index closes every id. */
  lemma RowIdsDiffer(stamp: nat -> nat, i: nat, j: nat)
    requires RowId(stamp, i) == RowId(stamp, j)
    ensures i == j
  {
    var a, b := "excel-" + Text.NatToString(stamp(i)), "excel-" + Text.NatToString(stamp(j));
    Text.DigitsHaveNoDash(Text.NatToString(i));
    Text.DigitsHaveNoDash(Text.NatToString(j));
    Text.SplitAtLastDash(a, Text.NatToString(i), b, Text.NatToString(j));
    Text.NatToStringInjective(i, j);
  }

  /** An accepted import has pairwise different ids. */
  lemma ParsedIdsDistinct(rows: seq<Row>, stamp: nat -> nat)
    requires ParseRows(rows, stamp).Success?
    ensures var items := ParseRows(rows, stamp).value;
      forall j, k :: 0 <= j < k < |items| ==> items[j].id != items[k].id
  {
    var items := ParseRows(rows, stamp).value;
    var src := UsableRows(rows, |rows|);
    CollectSpec(rows, |rows|, stamp);
    forall j, k | 0 <= j < k < |items| ensures items[j].id != items[k].id {
      if items[j].id == items[k].id {
        RowIdsDiffer(stamp, src[j], src[k]);
      }
    }
  }

  /** Every usable row after the header contributes exactly one entry, at
      the place its row order gives it. */
  lemma UsableRowImported(rows: seq<Row>, stamp: nat -> nat, i: nat)
    requires 1 <= i < |rows| && Usable(rows[i])
    ensures ParseRows(rows, stamp).Success?
    ensures RowItem(rows[i], i, stamp) in ParseRows(rows, stamp).value
  {
    var src := UsableRows(rows, |rows|);
    CollectSpec(rows, |rows|, stamp);
    var j :| 0 <= j < |src| && src[j] == i;
    assert Collect(rows, |rows|, stamp)[j] == RowItem(rows[i], i, stamp);
  }

  /** A cell of whitespace only is not falsy, so it passes the check, and
      trimming then leaves an empty field. */
  lemma WhitespaceCellPasses(row: Row, i: nat, stamp: nat -> nat, ws: string)
    requires row.Some? && |row.value| >= 3 && row.value[0] == Str(ws)
    requires ws != [] && Text.AllSpace(ws)
    requires !Falsy(row.value[1]) && !Falsy(row.value[2])
    ensures Usable(row) && RowItem(row, i, stamp).hanzi == []
  {
    Text.TrimEmptyIffAllSpace(ws);
  }
}
