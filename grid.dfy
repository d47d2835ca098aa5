/** Integer grid cells and the fixed offsets every component uses. */
module Grid {

  /** A tile position (the engine's `Vector3Int`; every offset used keeps z at 0). */
  datatype Cell = Cell(x: int, y: int)

  function Shift(c: Cell, d: Cell): Cell {
    Cell(c.x + d.x, c.y + d.y)
  }

  const Right: Cell := Cell(1, 0)
  const Left: Cell := Cell(-1, 0)
  const Up: Cell := Cell(0, 1)
  const Down: Cell := Cell(0, -1)
  const UpRight: Cell := Cell(1, 1)

  /** The order in which every neighbour scan visits the four orthogonal directions. */
  const Directions: seq<Cell> := [Right, Left, Up, Down]

  /** a and b share an edge: they differ by one in exactly one coordinate. */
  predicate Adjacent(a: Cell, b: Cell) {
    (a.x == b.x && (a.y - b.y == 1 || b.y - a.y == 1)) ||
    (a.y == b.y && (a.x - b.x == 1 || b.x - a.x == 1))
  }

  /** The four cells of the 2x2 square whose bottom-left cell is p, in the order the game lists them. */
  function BlockCells(p: Cell): seq<Cell> {
    [p, Shift(p, Right), Shift(p, Up), Shift(p, UpRight)]
  }

  function Block(p: Cell): set<Cell> {
    {p, Shift(p, Right), Shift(p, Up), Shift(p, UpRight)}
  }

  /** A 2x2 square is exactly four distinct cells. */
  lemma BlockSize(p: Cell)
    ensures |Block(p)| == 4
  {
    var a, b, c, d := p, Shift(p, Right), Shift(p, Up), Shift(p, UpRight);
    assert {a, b, c, d} == {a} + {b} + {c} + {d};
    assert |{a} + {b}| == 2;
    assert |{a} + {b} + {c}| == 3;
  }
}
