/**
 * The painting rules shared by both pathfinder revisions, as functions on the list of
 * painted cells: one left-button paint step with its rollbacks, one right-button erase
 * step, one frame of mouse input, and the validity test. The shape the rules keep is
 * PathShape: distinct cells inside the allowed area, no 2x2 block, no cell with more
 * than two painted neighbours, and no more cells than the required length.
 */
module PathRules {
  import opened Wrappers
  import opened Grid
  import opened Lists
  import opened PathQueries
  import opened PathOrder

  /** What one left-button step did. */
  datatype PaintOutcome =
    | AtCapacity     // the list already holds the required number of cells; the frame ends
    | Refused        // outside the area, already painted or (live revision) under a turret
    | UndoneSquare   // added, found to close a 2x2 block, removed again; the frame ends
    | UndoneBranch   // added, found to give some cell three neighbours, removed again
    | Painted        // added and kept

  ghost predicate PathShape(cells: seq<Cell>, required: int, allowed: set<Cell>) {
    && Distinct(cells)
    && Elements(cells) <= allowed
    && !ContainsSquare(Elements(cells))
    && !ContainsBranch(Elements(cells))
    && (cells == [] || |cells| <= required)
  }

  /**
   * The left-button step: the outcome and the painted cells afterwards. The cell is kept
   * only under the length, inside the area, unpainted and free; every rollback restores
   * the list exactly as it was.
   */
  ghost function PaintStep(cells: seq<Cell>, cell: Cell, required: int, allowed: set<Cell>, occupied: bool)
    : (r: (PaintOutcome, seq<Cell>))
    ensures r.0 == Painted ==>
      r.1 == cells + [cell] && cell !in cells && cell in allowed && !occupied && |cells| < required
    ensures r.0 != Painted ==> r.1 == cells
    ensures r.0 == AtCapacity <==> |cells| >= required
    ensures r.0 == Refused <==> |cells| < required && !(cell in allowed && cell !in cells && !occupied)
    ensures r.0 == UndoneSquare <==>
      && |cells| < required && cell in allowed && cell !in cells && !occupied
      && ContainsSquare(Elements(cells + [cell]))
    ensures r.0 == UndoneBranch <==>
      && |cells| < required && cell in allowed && cell !in cells && !occupied
      && !ContainsSquare(Elements(cells + [cell])) && ContainsBranch(Elements(cells + [cell]))
    ensures r.0 == Painted <==>
      && |cells| < required && cell in allowed && cell !in cells && !occupied
      && !ContainsSquare(Elements(cells + [cell])) && !ContainsBranch(Elements(cells + [cell]))
  {
    if |cells| >= required then (AtCapacity, cells)
    else if !(cell in allowed && cell !in cells && !occupied) then (Refused, cells)
    else
      var added := cells + [cell];
      RemoveAppended(cells, cell);
      if ContainsSquare(Elements(added)) then (UndoneSquare, RemoveFirst(added, cell))
      else if ContainsBranch(Elements(added)) then (UndoneBranch, RemoveFirst(added, cell))
      else (Painted, added)
  }

  /**
   * The right-button step: a painted cell inside the area loses its first listing. One
   * listing of the cell goes when it is inside the area, and nothing else changes.
   */
  function EraseStep(cells: seq<Cell>, cell: Cell, allowed: set<Cell>): (r: seq<Cell>)
    ensures multiset(r) == if cell in allowed then multiset(cells) - multiset{cell} else multiset(cells)
  {
    if cell in allowed && cell in cells then
      RemoveFirstMultiset(cells, cell);
      RemoveFirst(cells, cell)
    else cells
  }

  /**
   * One frame of mouse input, both buttons aiming at the same cell. A capacity refusal
   * or a 2x2 rollback ends the frame before the right button is looked at.
   */
  ghost function MouseStep(cells: seq<Cell>, leftHeld: bool, rightHeld: bool, cell: Cell,
                           required: int, allowed: set<Cell>, occupied: bool): (r: seq<Cell>)
    ensures forall c :: c != cell ==> multiset(r)[c] == multiset(cells)[c]
    ensures !rightHeld ==> multiset(cells) <= multiset(r)
    ensures !leftHeld ==> multiset(r) <= multiset(cells)
  {
    if leftHeld then
      var (outcome, painted) := PaintStep(cells, cell, required, allowed, occupied);
      PaintAddsAtMostCell(cells, cell, required, allowed, occupied);
      if outcome == AtCapacity || outcome == UndoneSquare then painted
      else if rightHeld then EraseStep(painted, cell, allowed)
      else painted
    else if rightHeld then EraseStep(cells, cell, allowed)
    else cells
  }

  /** On an empty painting, an allowed free cell is always painted while a path is required. */
  lemma FirstCellIsPainted(cell: Cell, required: int, allowed: set<Cell>, occupied: bool)
    requires required > 0 && cell in allowed && !occupied
    ensures PaintStep([], cell, required, allowed, occupied) == (Painted, [cell])
  {
    var s := Elements([] + [cell]);
    assert s == {cell} by { assert [] + [cell] == [cell]; }
    NeighborCountUnfold(cell, s);
    assert !SquareAt(cell, s);
    assert !ContainsSquare(s) && !ContainsBranch(s);
    assert [] + [cell] == [cell];
  }

  /** A paint step adds one listing of the cell or none. */
  lemma PaintAddsAtMostCell(cells: seq<Cell>, cell: Cell, required: int, allowed: set<Cell>, occupied: bool)
    ensures var (outcome, painted) := PaintStep(cells, cell, required, allowed, occupied);
      multiset(painted) == multiset(cells) + (if outcome == Painted then multiset{cell} else multiset{})
  {
    var (outcome, painted) := PaintStep(cells, cell, required, allowed, occupied);
    if outcome == Painted {
      assert painted == cells + [cell];
      assert multiset(cells + [cell]) == multiset(cells) + multiset([cell]);
    }
  }

  /** The live revision's test: the required length and neither a 2x2 block nor an intersection. */
  ghost predicate PathValid(cells: seq<Cell>, required: int): (valid: bool)
    ensures valid <==>
      && |cells| == required
      && forall c :: c in cells ==> NeighborCount(c, Elements(cells)) <= 2 && !SquareAt(c, Elements(cells))
  {
    |cells| == required && !ContainsSquare(Elements(cells)) && !ContainsBranch(Elements(cells))
  }

  /** A paint step keeps the shape. */
  lemma PaintPreservesShape(cells: seq<Cell>, cell: Cell, required: int, allowed: set<Cell>, occupied: bool)
    requires PathShape(cells, required, allowed)
    ensures PathShape(PaintStep(cells, cell, required, allowed, occupied).1, required, allowed)
  {
    var (outcome, after) := PaintStep(cells, cell, required, allowed, occupied);
    if outcome == Painted {
      assert Elements(after) == Elements(cells) + {cell};
      assert cell !in cells;
      DistinctCons(cell, []);
      forall i, j | 0 <= i < j < |after| ensures after[i] != after[j] {
        if j == |cells| {
          assert after[i] in cells;
        }
      }
    }
  }

  /** An erase step keeps the shape and removes exactly the erased cell. */
  lemma EraseKeepsShape(cells: seq<Cell>, cell: Cell, required: int, allowed: set<Cell>)
    requires PathShape(cells, required, allowed)
    ensures var after := EraseStep(cells, cell, allowed);
      && PathShape(after, required, allowed)
      && Elements(after) == Elements(cells) - {cell}
      && |after| == |cells| - (if cell in cells then 1 else 0)
  {
    var after := EraseStep(cells, cell, allowed);
    if cell in cells {
      assert cell in allowed;
      RemoveFirstDistinct(cells, cell);
      SubsetKeepsShape(Elements(after), Elements(cells));
      ElementsBound(cells);
      ElementsBound(after);
      assert |Elements(after)| == |Elements(cells)| - 1;
    }
  }

  /** A frame of mouse input keeps the shape. */
  lemma MouseStepPreservesShape(cells: seq<Cell>, leftHeld: bool, rightHeld: bool, cell: Cell,
                                required: int, allowed: set<Cell>, occupied: bool)
    requires PathShape(cells, required, allowed)
    ensures PathShape(MouseStep(cells, leftHeld, rightHeld, cell, required, allowed, occupied), required, allowed)
  {
    if leftHeld {
      PaintPreservesShape(cells, cell, required, allowed, occupied);
      var (outcome, painted) := PaintStep(cells, cell, required, allowed, occupied);
      if rightHeld && outcome != AtCapacity && outcome != UndoneSquare {
        EraseKeepsShape(painted, cell, required, allowed);
      }
    } else if rightHeld {
      EraseKeepsShape(cells, cell, required, allowed);
    }
  }

  /** Holding both buttons over a cell that the left button paints erases it again in the same frame. */
  lemma BothButtonsUndoPaint(cells: seq<Cell>, cell: Cell, required: int, allowed: set<Cell>, occupied: bool)
    requires PaintStep(cells, cell, required, allowed, occupied).0 == Painted
    ensures MouseStep(cells, true, true, cell, required, allowed, occupied) == cells
  {
    RemoveAppended(cells, cell);
  }

  /** For a list of the painting shape, validity comes down to the length alone. */
  lemma ValidIsLength(cells: seq<Cell>, required: int, allowed: set<Cell>)
    requires PathShape(cells, required, allowed)
    ensures PathValid(cells, required) <==> |cells| == required
  {
  }

  /**
   * What a valid painting hands to the spawner: a walk of distinct painted cells, each
   * adjacent to the one before, starting at StartCell and no longer than the required length.
   */
  lemma ValidPathOrdersIntoWalk(cells: seq<Cell>, required: int, allowed: set<Cell>)
    requires PathShape(cells, required, allowed) && PathValid(cells, required) && required > 0
    ensures var r := OrderCells(cells);
      && 0 < |r| <= required
      && r[0] == StartCell(cells)
      && Elements(r) <= allowed
      && Distinct(r)
      && (forall i :: 0 <= i < |r| - 1 ==> Adjacent(r[i], r[i + 1]))
  {
    OrderCellsIsSimplePath(cells);
  }

  /** Painting the fourth corner of a square is rolled back, and ends the frame before any erase. */
  lemma SquareCornerIsUndone(p: Cell, required: int, allowed: set<Cell>)
    requires required > 3 && Block(p) <= allowed
    ensures var cells := [p, Shift(p, Right), Shift(p, Up)];
      && PaintStep(cells, Shift(p, UpRight), required, allowed, false) == (UndoneSquare, cells)
      && MouseStep(cells, true, true, Shift(p, UpRight), required, allowed, false) == cells
  {
    var cells := [p, Shift(p, Right), Shift(p, Up)];
    var added := cells + [Shift(p, UpRight)];
    assert p in Elements(added) && SquareAt(p, Elements(added));
    RemoveAppended(cells, Shift(p, UpRight));
  }

  /** Painting a cell beside the middle of a straight row of three is rolled back as an intersection. */
  lemma TeeIsUndone(m: Cell, required: int, allowed: set<Cell>)
    requires required > 3 && {Shift(m, Left), m, Shift(m, Right), Shift(m, Up)} <= allowed
    ensures var cells := [Shift(m, Left), m, Shift(m, Right)];
      PaintStep(cells, Shift(m, Up), required, allowed, false) == (UndoneBranch, cells)
  {
    var cells := [Shift(m, Left), m, Shift(m, Right)];
    var added := cells + [Shift(m, Up)];
    var s := Elements(added);
    assert s == {Shift(m, Left), m, Shift(m, Right), Shift(m, Up)};
    forall c | c in s ensures !SquareAt(c, s) {
      if c == Shift(m, Left) {
        assert Shift(c, Up) !in s;
      } else if c == m {
        assert Shift(c, UpRight) !in s;
      } else {
        assert Shift(c, Up) !in s;
      }
    }
    NeighborCountUnfold(m, s);
    assert m in s && NeighborCount(m, s) == 3;
    RemoveAppended(cells, Shift(m, Up));
  }

  /**
   * Nothing asks the painted cells to be connected: two touching cells and a third cell
   * touching neither make a valid three-cell path, and the ordered path handed on stops
   * after the first two.
   */
  lemma DisconnectedPaintingIsValid(p: Cell, q: Cell)
    requires q.x > p.x + 2
    ensures var cells := [p, Shift(p, Right), q];
      && PathShape(cells, 3, Elements(cells))
      && PathValid(cells, 3)
      && OrderCells(cells) == [p, Shift(p, Right)]
  {
    var r := Shift(p, Right);
    var cells := [p, r, q];
    ElementsOfThree(p, r, q);
    ApartShape(p, q);
    assert StartCell(cells) == p by {
      assert NeighborCount(cells[0], Elements(cells)) == 1;
    }
    DropFirstOfThree(p, r, q);
    ApartWalk(p, q);
  }

  lemma ElementsOfThree(a: Cell, b: Cell, c: Cell)
    ensures Elements([a, b, c]) == {a, b, c}
  {
    assert [a, b, c] == [a] + ([b] + [c]);
    ElementsCons(a, [b] + [c]);
    ElementsCons(b, [c]);
    ElementsCons(c, []);
  }

  lemma DropFirstOfThree(a: Cell, b: Cell, c: Cell)
    requires a != b && a != c
    ensures {a, b, c} - {a} == {b, c}
  {
  }

  lemma ApartShape(p: Cell, q: Cell)
    requires q.x > p.x + 2
    ensures var s := {p, Shift(p, Right), q};
      !ContainsSquare(s) && !ContainsBranch(s) && NeighborCount(p, s) == 1
  {
    var s := {p, Shift(p, Right), q};
    forall c | c in s ensures !SquareAt(c, s) && NeighborCount(c, s) <= 2 {
      NeighborCountUnfold(c, s);
    }
    NeighborCountUnfold(p, s);
  }

  lemma ApartWalk(p: Cell, q: Cell)
    requires q.x > p.x + 2
    ensures Walk(p, {Shift(p, Right), q}) == [Shift(p, Right)]
  {
    var r := Shift(p, Right);
    StepRight(p, {r, q});
    DropFromPair(r, q);
    LoneCellStops(r, q);
  }

  lemma DropFromPair(r: Cell, q: Cell)
    requires r != q
    ensures {r, q} - {r} == {q}
  {
  }

  /** With its right-hand neighbour unvisited, the walk steps right first. */
  lemma StepRight(p: Cell, s: set<Cell>)
    requires Shift(p, Right) in s
    ensures Walk(p, s) == [Shift(p, Right)] + Walk(Shift(p, Right), s - {Shift(p, Right)})
  {
    assert Directions[0] == Right;
    assert FirstPresent(p, Directions, s) == Some(Shift(p, Right));
    WalkStep(p, s);
  }

  lemma LoneCellStops(r: Cell, q: Cell)
    requires q.x > r.x + 1
    ensures Walk(r, {q}) == []
  {
    NeighborCountUnfold(r, {q});
    assert FirstPresent(r, Directions, {q}).None?;
    assert q in {q};
    WalkStep(r, {q});
  }

  /** The n cells from p going right. */
  function Row(p: Cell, n: nat): (r: seq<Cell>)
    ensures |r| == n && forall i :: 0 <= i < n ==> r[i] == Cell(p.x + i, p.y)
  {
    seq(n, i => Cell(p.x + i, p.y))
  }

  lemma RowMembers(p: Cell, n: nat)
    ensures forall c: Cell :: c in Elements(Row(p, n)) <==> c.y == p.y && p.x <= c.x < p.x + n
  {
    forall c: Cell | c.y == p.y && p.x <= c.x < p.x + n ensures c in Elements(Row(p, n)) {
      assert Row(p, n)[c.x - p.x] == c;
    }
  }

  /** Walking from the cell left of a row, through the row, visits the whole row left to right. */
  lemma {:induction false} WalkAlongRow(c: Cell, n: nat)
    ensures Walk(c, Elements(Row(Shift(c, Right), n))) == Row(Shift(c, Right), n)
    decreases n
  {
    var r := Shift(c, Right);
    var s := Elements(Row(r, n));
    if n == 0 {
      assert s == {};
    } else {
      assert Row(r, n)[0] == r;
      assert Directions[0] == Right;
      assert FirstPresent(c, Directions, s) == Some(r);
      assert Row(r, n) == [r] + Row(Shift(r, Right), n - 1);
      RowMembers(r, n);
      RowMembers(Shift(r, Right), n - 1);
      assert s - {r} == Elements(Row(Shift(r, Right), n - 1));
      WalkAlongRow(r, n - 1);
    }
  }

  /** A straight row holds no 2x2 block and no cell with more than two neighbours. */
  lemma RowIsThin(p: Cell, n: nat)
    ensures var s := Elements(Row(p, n));
      forall c :: c in s ==> !SquareAt(c, s) && NeighborCount(c, s) <= 2
  {
    var s := Elements(Row(p, n));
    RowMembers(p, n);
    forall c | c in s ensures !SquareAt(c, s) && NeighborCount(c, s) <= 2 {
      NeighborCountUnfold(c, s);
      assert Shift(c, Up) !in s && Shift(c, Down) !in s;
    }
  }

  /** The ordering starts a straight row at its left end. */
  lemma RowStartsAtLeftEnd(p: Cell, n: nat)
    requires n > 0
    ensures StartCell(Row(p, n)) == p
  {
    var cells := Row(p, n);
    var s := Elements(cells);
    assert cells[0] == p;
    if n > 1 {
      RowMembers(p, n);
      NeighborCountUnfold(p, s);
      assert Shift(p, Right) in s && Shift(p, Left) !in s;
      assert NeighborCount(cells[0], s) == 1;
    }
  }

  /**
   * A straight row of n cells painted left to right keeps the shape, is valid for the
   * required length n, and is ordered in full, in the order it was painted.
   */
  lemma StraightRowIsOrderedInFull(p: Cell, n: nat)
    requires n > 0
    ensures var cells := Row(p, n);
      && PathShape(cells, n, Elements(cells))
      && PathValid(cells, n)
      && OrderCells(cells) == cells
  {
    RowIsThin(p, n);
    RowStartsAtLeftEnd(p, n);
    RowSplitsAtLeftEnd(p, n);
    WalkAlongRow(p, n - 1);
  }

  /** A row is its left end followed by the rest of the row. */
  lemma RowSplitsAtLeftEnd(p: Cell, n: nat)
    requires n > 0
    ensures var tail := Row(Shift(p, Right), n - 1);
      && Row(p, n) == [p] + tail
      && Elements(Row(p, n)) - {p} == Elements(tail)
  {
    var tail := Row(Shift(p, Right), n - 1);
    assert Row(p, n) == [p] + tail;
    RowMembers(p, n);
    RowMembers(Shift(p, Right), n - 1);
  }
}
