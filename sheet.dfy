/**
 * The lead sheet as an in-memory table: a sequence of rows, each row a map
 * from 1-based column number to a cell. The two operations the bot uses on
 * it are the cell write (`update_cell`) and the row append (`append_row`);
 * the lookup (`find` in column 1) is the function `FindRow`.
 */
module Sheet {
  import opened Wrappers

  /** A cell value as the bot writes it: text, a number or a checkbox. */
  datatype Cell = Str(s: string) | Int(i: int) | Bool(b: bool)

  /** A row maps column number (1 is the sender id) to its cell; a blank cell has no entry. */
  type Row = map<int, Cell>

  /** The column holding the sender id. */
  const IdColumn := 1

  function CellAt(row: Row, col: int): Option<Cell> {
    if col in row then Some(row[col]) else None
  }

  /** The row after `update_cell` into column `col` when `cond` holds, the row itself otherwise. */
  function WriteIf(row: Row, cond: bool, col: int, v: Cell): (r: Row)
    ensures forall c :: CellAt(r, c) == if cond && c == col then Some(v) else CellAt(row, c)
  {
    if cond then row[col := v] else row
  }

  /** Two rows that agree on every column are the same row. */
  lemma SameCells(a: Row, b: Row)
    requires forall c :: CellAt(a, c) == CellAt(b, c)
    ensures a == b
  {
    forall c | c in a ensures c in b && a[c] == b[c] {
      assert CellAt(a, c) == CellAt(b, c);
    }
    forall c | c in b ensures c in a {
      assert CellAt(a, c) == CellAt(b, c);
    }
  }

  /** The row built from a list of values: the k-th value goes to column k + 1. */
  function RowOf(cells: seq<Cell>): (r: Row)
    ensures forall c :: c in r <==> 1 <= c <= |cells|
    ensures forall c :: 1 <= c <= |cells| ==> r[c] == cells[c - 1]
  {
    if cells == [] then map[]
    else RowOf(cells[..|cells| - 1])[|cells| := cells[|cells| - 1]]
  }

  predicate HasId(row: Row, id: string) {
    CellAt(row, IdColumn) == Some(Str(id))
  }

  /**
   * `sheet.find(id, in_column=1)`: the index (0-based) of the first row whose
   * column 1 holds exactly `id`, or `None` when no row does.
   */
  function FindRow(rows: seq<Row>, id: string): (r: Option<nat>)
    ensures r.Some? ==> r.value < |rows| && HasId(rows[r.value], id)
    ensures r.Some? ==> forall j :: 0 <= j < r.value ==> !HasId(rows[j], id)
    ensures r.None? <==> forall j :: 0 <= j < |rows| ==> !HasId(rows[j], id)
  {
    if rows == [] then None
    else if HasId(rows[0], id) then Some(0)
    else
      match FindRow(rows[1..], id)
      case None => None
      case Some(k) => Some(k + 1)
  }

  /** No two rows carry the same non-blank cell in column 1. */
  predicate UniqueIds(rows: seq<Row>) {
    forall i, j :: 0 <= i < j < |rows| && IdColumn in rows[i] && IdColumn in rows[j] ==>
      rows[i][IdColumn] != rows[j][IdColumn]
  }

  /** Writing a row that keeps its id cell leaves every lookup where it was. */
  lemma FindAfterWrite(rows: seq<Row>, i: nat, row: Row, id: string)
    requires i < |rows| && CellAt(row, IdColumn) == CellAt(rows[i], IdColumn)
    ensures FindRow(rows[i := row], id) == FindRow(rows, id)
  {
    var after := rows[i := row];
    assert forall j :: 0 <= j < |rows| ==> (HasId(after[j], id) <==> HasId(rows[j], id));
    FindRowSame(rows, after, id);
  }

  /** Two tables whose rows agree on holding `id` find it at the same place. */
  lemma FindRowSame(a: seq<Row>, b: seq<Row>, id: string)
    requires |a| == |b|
    requires forall j :: 0 <= j < |a| ==> (HasId(a[j], id) <==> HasId(b[j], id))
    ensures FindRow(a, id) == FindRow(b, id)
  {
    var fa, fb := FindRow(a, id), FindRow(b, id);
    if fa.Some? && fb.Some? {
      assert !(fa.value < fb.value) && !(fb.value < fa.value);
    }
  }

  /** A new row holding an id no earlier row holds is where the lookup finds it. */
  lemma FindAfterAppend(rows: seq<Row>, row: Row, id: string)
    requires FindRow(rows, id).None? && HasId(row, id)
    ensures FindRow(rows + [row], id) == Some(|rows|)
  {
    var after := rows + [row];
    assert HasId(after[|rows|], id);
    forall j | 0 <= j < |rows| ensures !HasId(after[j], id) {
      assert after[j] == rows[j];
    }
  }

  /** A write that keeps a row's id cell keeps the ids unique. */
  lemma UniqueAfterWrite(rows: seq<Row>, i: nat, row: Row)
    requires i < |rows| && CellAt(row, IdColumn) == CellAt(rows[i], IdColumn)
    ensures UniqueIds(rows) ==> UniqueIds(rows[i := row])
  {
    var after := rows[i := row];
    assert forall j :: 0 <= j < |rows| ==> CellAt(after[j], IdColumn) == CellAt(rows[j], IdColumn);
  }

  /** Appending a row whose id is new keeps the ids unique. */
  lemma UniqueAfterAppend(rows: seq<Row>, row: Row, id: string)
    requires FindRow(rows, id).None? && HasId(row, id)
    ensures UniqueIds(rows) ==> UniqueIds(rows + [row])
  {
    var after := rows + [row];
    assert forall j :: 0 <= j < |rows| ==> after[j] == rows[j];
  }

  /** The worksheet the bot writes into. */
  class Table {
    var rows: seq<Row>

    constructor (rows: seq<Row>)
      ensures this.rows == rows
    {
      this.rows := rows;
    }

    /** `update_cell(row, col, value)`, with `row` 1-based as in the sheet. */
    method UpdateCell(row: nat, col: nat, value: Cell)
      requires 1 <= row <= |rows|
      modifies this
      ensures |rows| == |old(rows)| && rows[row - 1] == old(rows)[row - 1][col := value]
      ensures forall j :: 0 <= j < |rows| && j != row - 1 ==> rows[j] == old(rows)[j]
    {
      var updated: Row := rows[row - 1][col := value];
      rows := rows[row - 1 := updated];
    }

    /** `if cond: update_cell(row, col, value)`. */
    method WriteCellIf(row: nat, cond: bool, col: nat, value: Cell)
      requires 1 <= row <= |rows|
      modifies this
      ensures |rows| == |old(rows)| && rows[row - 1] == WriteIf(old(rows)[row - 1], cond, col, value)
      ensures forall j :: 0 <= j < |rows| && j != row - 1 ==> rows[j] == old(rows)[j]
    {
      if cond {
        UpdateCell(row, col, value);
      }
    }

    /** `append_row(values)`: one new row after the last one. */
    method AppendRow(values: seq<Cell>)
      modifies this
      ensures rows == old(rows) + [RowOf(values)]
    {
      rows := rows + [RowOf(values)];
    }
  }
}
