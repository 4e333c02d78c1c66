/**
  Tab-delimited table text of include/edt.h, out and in.

  Documented contracts: EDT_GetTabDelimitedTextFromSelectedCells writes tab-delimited cells with a
  CR at the end of each row; EDT_CanPasteTextAsTable accepts text with tabs between cells, a CR at
  the end of each row and an equal number of cells per row, and returns the two counts.
 */
module TabTable {
  import opened Basics

  const TAB: char := '\t'
  const CR: char := '\r'

  type Grid = seq<seq<string>>

  // ---------- Text out ----------

  function Row(cells: seq<string>): string
    requires cells != []
  {
    if |cells| == 1 then cells[0] else cells[0] + [TAB] + Row(cells[1..])
  }

  function Print(grid: Grid): string
    requires forall i :: 0 <= i < |grid| ==> grid[i] != []
  {
    if grid == [] then "" else Row(grid[0]) + [CR] + Print(grid[1..])
  }

  ghost predicate CellText(cell: string) {
    TAB !in cell && CR !in cell
  }

  ghost predicate Cells(row: seq<string>) {
    row != [] && forall j :: 0 <= j < |row| ==> CellText(row[j])
  }

  ghost predicate AllCells(grid: Grid) {
    forall i :: 0 <= i < |grid| ==> Cells(grid[i])
  }

  predicate Rectangular(grid: Grid) {
    forall i :: 0 <= i < |grid| ==> |grid[i]| == |grid[0]|
  }

  // ---------- Text in ----------

  // The cells read so far in the row being read, and the rows before it.
  datatype Reader = Reader(rows: Grid, cells: seq<string>, cell: string)

  function Read(r: Reader, c: char): Reader {
    if c == TAB then Reader(r.rows, r.cells + [r.cell], "")
    else if c == CR then Reader(r.rows + [r.cells + [r.cell]], [], "")
    else Reader(r.rows, r.cells, r.cell + [c])
  }

  function ReadAll(r: Reader, text: string): Reader
    decreases |text|
  {
    if text == [] then r else ReadAll(Read(r, text[0]), text[1..])
  }

  const NOTHING := Reader([], [], "")

  // The table, if every row was ended and all have as many cells.
  function Parse(text: string): Option<Grid> {
    var r := ReadAll(NOTHING, text);
    if r.cells == [] && r.cell == "" && Rectangular(r.rows) then Some(r.rows) else None
  }

  // ---------- What was read is what was written ----------

  function RowSoFar(r: Reader): string {
    if r.cells == [] then r.cell else Row(r.cells) + [TAB] + r.cell
  }

  // The text that leads to a state of the reader.
  function Written(r: Reader): string
    requires forall i :: 0 <= i < |r.rows| ==> r.rows[i] != []
  {
    Print(r.rows) + RowSoFar(r)
  }

  ghost predicate Clean(r: Reader) {
    && AllCells(r.rows) && CellText(r.cell)
    && forall j :: 0 <= j < |r.cells| ==> CellText(r.cells[j])
  }

  lemma {:induction false} RowAppend(cells: seq<string>, cell: string)
    requires cells != []
    ensures Row(cells + [cell]) == Row(cells) + [TAB] + cell
  {
    if |cells| > 1 {
      RowAppend(cells[1..], cell);
      assert (cells + [cell])[1..] == cells[1..] + [cell];
      var a, b, c := cells[0] + [TAB], Row(cells[1..]), [TAB] + cell;
      assert a + (b + [TAB] + cell) == (a + b) + [TAB] + cell;
    } else {
      assert (cells + [cell])[1..] == [cell];
    }
  }

  lemma {:induction false} PrintAppend(grid: Grid, row: seq<string>)
    requires AllCells(grid) && row != []
    ensures Print(grid + [row]) == Print(grid) + (Row(row) + [CR])
  {
    if grid == [] {
      assert grid + [row] == [row];
      assert [row][1..] == [];
    } else {
      PrintAppend(grid[1..], row);
      assert (grid + [row])[1..] == grid[1..] + [row];
      var a, b, c := Row(grid[0]) + [CR], Print(grid[1..]), Row(row) + [CR];
      assert a + (b + c) == (a + b) + c;
    }
  }

  lemma ReadKeeps(r: Reader, c: char)
    requires Clean(r)
    ensures Clean(Read(r, c)) && Written(Read(r, c)) == Written(r) + [c]
  {
    if c == TAB {
      if r.cells != [] {
        RowAppend(r.cells, r.cell);
      }
      var row := Row(r.cells + [r.cell]);
      assert row == RowSoFar(r);
      assert Print(r.rows) + (row + [TAB] + "") == Print(r.rows) + row + [TAB];
    } else if c == CR {
      if r.cells != [] {
        RowAppend(r.cells, r.cell);
      }
      var row := Row(r.cells + [r.cell]);
      assert row == RowSoFar(r);
      PrintAppend(r.rows, r.cells + [r.cell]);
      assert Print(r.rows) + (row + [CR]) + "" == Print(r.rows) + row + [CR];
    }
  }

  lemma {:induction false} ReadAllKeeps(r: Reader, text: string)
    requires Clean(r)
    ensures Clean(ReadAll(r, text)) && Written(ReadAll(r, text)) == Written(r) + text
    decreases |text|
  {
    if text != [] {
      ReadKeeps(r, text[0]);
      ReadAllKeeps(Read(r, text[0]), text[1..]);
      assert Written(r) + [text[0]] + text[1..] == Written(r) + text;
    }
  }

  // The parser accepts only printed tables.
  lemma ParsePrint(text: string)
    requires Parse(text).Some?
    ensures var grid := Parse(text).value; AllCells(grid) && Rectangular(grid) && Print(grid) == text
  {
    ReadAllKeeps(NOTHING, text);
    var r := ReadAll(NOTHING, text);
    assert Written(NOTHING) + text == text;
    assert Print(r.rows) + "" == Print(r.rows);
  }

  lemma {:induction false} ReadConcat(r: Reader, a: string, b: string)
    ensures ReadAll(r, a + b) == ReadAll(ReadAll(r, a), b)
    decreases |a|
  {
    if a == [] {
      assert a + b == b;
    } else {
      ReadConcat(Read(r, a[0]), a[1..], b);
      assert (a + b)[1..] == a[1..] + b;
    }
  }

  lemma {:induction false} ReadCell(r: Reader, cell: string)
    requires CellText(cell)
    ensures ReadAll(r, cell) == r.(cell := r.cell + cell)
    decreases |cell|
  {
    if cell != [] {
      ReadCell(Read(r, cell[0]), cell[1..]);
      assert r.cell + [cell[0]] + cell[1..] == r.cell + cell;
    } else {
      assert r.cell + cell == r.cell;
    }
  }

  lemma ReadCellThen(r: Reader, cell: string, c: char, rest: string)
    requires CellText(cell)
    ensures ReadAll(r, cell + ([c] + rest)) == ReadAll(Read(r.(cell := r.cell + cell), c), rest)
  {
    ReadConcat(r, cell, [c] + rest);
    ReadCell(r, cell);
    assert ([c] + rest)[1..] == rest;
  }

  lemma {:induction false} ReadRow(rows: Grid, before: seq<string>, row: seq<string>)
    requires Cells(row)
    ensures ReadAll(Reader(rows, before, ""), Row(row) + [CR]) == Reader(rows + [before + row], [], "")
    decreases |row|
  {
    var r, t := Reader(rows, before, ""), Reader(rows, before, row[0]);
    assert ReadAll(Read(t, CR), "") == Read(t, CR);
    hide ReadAll, Row;
    assert "" + row[0] == row[0];
    RowLine(row);
    if |row| == 1 {
      ReadCellThen(r, row[0], CR, "");
      assert before + [row[0]] == before + row;
    } else {
      ReadCellThen(r, row[0], TAB, Row(row[1..]) + [CR]);
      ReadRow(rows, before + [row[0]], row[1..]);
      assert before + [row[0]] + row[1..] == before + row;
    }
  }

  lemma RowLine(row: seq<string>)
    requires row != []
    ensures Row(row) + [CR] == row[0] + if |row| == 1 then [CR] + "" else [TAB] + (Row(row[1..]) + [CR])
  {
  }

  lemma {:induction false} ReadGrid(rows: Grid, grid: Grid)
    requires AllCells(grid)
    ensures ReadAll(Reader(rows, [], ""), Print(grid)) == Reader(rows + grid, [], "")
    decreases |grid|
  {
    if grid == [] {
      assert rows + grid == rows;
    } else {
      ReadConcat(Reader(rows, [], ""), Row(grid[0]) + [CR], Print(grid[1..]));
      ReadRow(rows, [], grid[0]);
      assert [] + grid[0] == grid[0];
      ReadGrid(rows + [grid[0]], grid[1..]);
      assert rows + [grid[0]] + grid[1..] == rows + grid;
    }
  }

  // Reading a printed table gives back the same grid, ...
  lemma PrintParse(grid: Grid)
    requires AllCells(grid)
    ensures Parse(Print(grid)) == if Rectangular(grid) then Some(grid) else None
  {
    ReadGrid([], grid);
    assert [] + grid == grid;
  }

  // ... so a text is accepted exactly when it is the print of a rectangular grid.
  lemma AcceptedExactly(text: string)
    ensures Parse(text).Some? <==> exists grid: Grid :: AllCells(grid) && Rectangular(grid) && Print(grid) == text
  {
    if Parse(text).Some? {
      ParsePrint(text);
    }
    forall grid: Grid | AllCells(grid) && Rectangular(grid) && Print(grid) == text
      ensures Parse(text) == Some(grid)
    {
      PrintParse(grid);
    }
  }

  // ---------- The check the front end makes: counting only ----------

  lemma {:induction false} RowsGrow(r: Reader, text: string)
    ensures r.rows <= ReadAll(r, text).rows
    decreases |text|
  {
    if text != [] {
      RowsGrow(Read(r, text[0]), text[1..]);
    }
  }

  lemma ReadOne(r: Reader, text: string, i: nat)
    requires i < |text|
    ensures ReadAll(r, text[..i + 1]) == Read(ReadAll(r, text[..i]), text[i])
  {
    assert text[..i + 1] == text[..i] + [text[i]];
    ReadConcat(r, text[..i], [text[i]]);
    assert [text[i]][1..] == [];
  }

  // One pass, keeping counts and no cells, answers as the parser does.
  method CanPasteTextAsTable(text: string) returns (ok: bool, rows: nat, cols: nat)
    ensures ok == Parse(text).Some?
    ensures ok ==> rows == |Parse(text).value| && forall i :: 0 <= i < rows ==> |Parse(text).value[i]| == cols
  {
    rows, cols := 0, 0;
    var cells, midRow, even := 1, false, true;
    ghost var r := NOTHING;
    assert text[..0] == [];
    for i := 0 to |text|
      invariant r == ReadAll(NOTHING, text[..i])
      invariant rows == |r.rows| && cells == |r.cells| + 1
      invariant midRow <==> r.cells != [] || r.cell != ""
      invariant rows > 0 ==> cols == |r.rows[0]|
      invariant even <==> Rectangular(r.rows)
    {
      ReadOne(NOTHING, text, i);
      ghost var before := r;
      r := Read(r, text[i]);
      if text[i] == TAB {
        cells, midRow := cells + 1, true;
      } else if text[i] == CR {
        if rows == 0 {
          cols := cells;
        } else if cells != cols {
          even := false;
        }
        assert before.rows != [] ==> r.rows[0] == before.rows[0];
        assert r.rows[..rows] == before.rows && |r.rows[rows]| == cells;
        assert Rectangular(r.rows) <==> Rectangular(before.rows) && (rows == 0 || cells == |before.rows[0]|);
        rows, cells, midRow := rows + 1, 1, false;
      } else {
        midRow := true;
        assert |r.cell| > 0;
      }
    }
    assert text[..|text|] == text;
    ok := !midRow && even;
  }
}
