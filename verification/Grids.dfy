/** Row-major indices, the only products the buffer kernels compute.  Callers `hide` the
    two definitions and reason with the lemmas, which keeps products away from the solver. */
module Grids {
  import Division

  /** The largest index of a 64-bit platform. */
  const USIZE_MAX: nat := 0xFFFF_FFFF_FFFF_FFFF

  function Area(rows: nat, columns: nat): nat {
    rows * columns
  }

  function Cell(row: nat, column: nat, columns: nat): nat {
    row * columns + column
  }

  lemma AreaMonotone(a: nat, b: nat, x: nat, y: nat)
    requires a <= x && b <= y
    ensures Area(a, b) <= Area(x, y)
  {
    assert a * b <= x * b <= x * y;
  }

  lemma AreaCommutes(a: nat, b: nat)
    ensures Area(a, b) == Area(b, a)
  {
  }

  lemma AreaAssociates(a: nat, b: nat, c: nat)
    ensures Area(Area(a, b), c) == Area(a, Area(b, c))
  {
  }

  lemma CellInRange(row: nat, column: nat, rows: nat, columns: nat)
    requires row < rows && column < columns
    ensures Cell(row, column, columns) < Area(rows, columns)
  {
    AreaMonotone(row + 1, columns, rows, columns);
  }

  lemma CellDecodes(row: nat, column: nat, columns: nat)
    requires column < columns
    ensures Cell(row, column, columns) / columns == row && Cell(row, column, columns) % columns == column
  {
    Division.QuotientRemainder(columns, row, column);
  }

  lemma CellEncodes(i: nat, rows: nat, columns: nat)
    requires i < Area(rows, columns)
    ensures columns > 0 && i / columns < rows && i % columns < columns
    ensures Cell(i / columns, i % columns, columns) == i
  {
    assert columns > 0 by { assert columns == 0 ==> rows * columns == 0; }
    Division.FloorAtLeast(i, columns, rows);
  }

  lemma CellNext(row: nat, columns: nat)
    ensures Cell(row, columns, columns) == Cell(row + 1, 0, columns) == Area(row + 1, columns)
    ensures Cell(0, row, columns) == row
  {
  }

  lemma CellSuccessor(row: nat, column: nat, columns: nat)
    ensures Cell(row, column + 1, columns) == Cell(row, column, columns) + 1
  {
  }

  lemma AreaCell(rows: nat, columns: nat)
    ensures Cell(rows, 0, columns) == Area(rows, columns)
  {
  }

  lemma CellNests(a: nat, b: nat, c: nat, middle: nat, inner: nat)
    ensures Cell(Cell(a, b, middle), c, inner) == Cell(a, Cell(b, c, inner), Area(middle, inner))
  {
    assert (a * middle + b) * inner == a * (middle * inner) + b * inner;
  }
}
