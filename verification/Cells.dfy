/** Cells: up to 1023 bits and 4 references to other cells. */
module Cells {
  datatype CellKind = Ordinary | Pruned | Special

  datatype Cell = Cell(kind: CellKind, bits: seq<bool>, refs: seq<Cell>)

  const MAX_BITS: nat := 1023
  const MAX_REFS: nat := 4
}
