/**
 * `OrderPaintedCells`: turns the painted cells into a walk. It starts at the first
 * listed cell with exactly one neighbour (else the first cell) and repeatedly steps
 * to the first unvisited neighbour in the order right, left, up, down, stopping at a
 * dead end. Walk and OrderCells specify it; the method performs the source's loops.
 */
module PathOrder {
  import opened Wrappers
  import opened Grid
  import opened Lists
  import opened PathQueries

  /** The first of the cells c + d, for d in dirs taken in order, that lies in s. */
  function FirstPresent(c: Cell, dirs: seq<Cell>, s: set<Cell>): (r: Option<Cell>)
    ensures r.None? <==> CountPresent(c, dirs, s) == 0
    ensures r.None? ==> forall k :: 0 <= k < |dirs| ==> Shift(c, dirs[k]) !in s
    ensures r.Some? ==> r.value in s && exists k :: 0 <= k < |dirs| && r.value == Shift(c, dirs[k])
                                            && forall j :: 0 <= j < k ==> Shift(c, dirs[j]) !in s
  {
    if dirs == [] then None
    else if Shift(c, dirs[0]) in s then
      Some(Shift(c, dirs[0]))
    else
      var r := FirstPresent(c, dirs[1..], s);
      assert r.Some? ==> exists k :: 0 <= k < |dirs| && r.value == Shift(c, dirs[k])
                                     && forall j :: 0 <= j < k ==> Shift(c, dirs[j]) !in s by {
        if r.Some? {
          var k' :| 0 <= k' < |dirs[1..]| && r.value == Shift(c, dirs[1..][k'])
                    && forall j :: 0 <= j < k' ==> Shift(c, dirs[1..][j]) !in s;
          assert r.value == Shift(c, dirs[k' + 1]);
          forall j | 0 <= j < k' + 1 ensures Shift(c, dirs[j]) !in s {
            if j > 0 { assert dirs[j] == dirs[1..][j - 1]; }
          }
        }
      }
      r
  }

  /**
   * The walk from current through the unvisited cells: the cells it steps to, in order.
   * It only ever steps onto unvisited cells.
   */
  function Walk(current: Cell, unvisited: set<Cell>): (w: seq<Cell>)
    ensures forall i :: 0 <= i < |w| ==> w[i] in unvisited
    decreases |unvisited|
  {
    if |unvisited| == 0 then []
    else match FirstPresent(current, Directions, unvisited)
      case None => []
      case Some(next) =>
        var rest := Walk(next, unvisited - {next});
        [next] + rest
  }

  /** The first listed cell, at position i or later, with exactly one neighbour in s. */
  function FirstEndpoint(cells: seq<Cell>, s: set<Cell>, i: nat): (r: Option<Cell>)
    decreases |cells| - i
    ensures r.None? ==> forall j :: i <= j < |cells| ==> NeighborCount(cells[j], s) != 1
    ensures r.Some? ==> exists k :: i <= k < |cells| && cells[k] == r.value && NeighborCount(cells[k], s) == 1
                                    && forall j :: i <= j < k ==> NeighborCount(cells[j], s) != 1
  {
    if i >= |cells| then None
    else if NeighborCount(cells[i], s) == 1 then Some(cells[i])
    else FirstEndpoint(cells, s, i + 1)
  }

  /**
   * Where the ordered path starts: the first listed cell with exactly one painted
   * neighbour, or the first cell when no cell has exactly one.
   */
  function StartCell(cells: seq<Cell>): (start: Cell)
    requires cells != []
    ensures start in cells
    ensures var s := Elements(cells);
      if exists k :: 0 <= k < |cells| && NeighborCount(cells[k], s) == 1 then
        exists k :: 0 <= k < |cells| && start == cells[k] && NeighborCount(cells[k], s) == 1
                    && forall j :: 0 <= j < k ==> NeighborCount(cells[j], s) != 1
      else start == cells[0]
  {
    match FirstEndpoint(cells, Elements(cells), 0)
    case Some(c) => c
    case None => cells[0]
  }

  /** The ordered path: the start cell followed by the walk from it through the other painted cells. */
  function OrderCells(cells: seq<Cell>): (r: seq<Cell>)
    ensures r == [] <==> cells == []
    ensures Elements(r) <= Elements(cells)
  {
    if cells == [] then []
    else
      var start := StartCell(cells);
      var rest := Walk(start, Elements(cells) - {start});
      ElementsCons(start, rest);
      [start] + rest
  }

  /**
   * The walk visits distinct unvisited cells, each adjacent to the one before it; it is empty
   * exactly when nothing is left or the current cell has no unvisited neighbour.
   */
  lemma {:induction false} WalkIsSimple(current: Cell, unvisited: set<Cell>)
    ensures var w := Walk(current, unvisited);
      && Elements(w) <= unvisited
      && Distinct(w)
      && |w| <= |unvisited|
      && (w == [] <==> (|unvisited| == 0 || NeighborCount(current, unvisited) == 0))
      && (w != [] ==> Adjacent(current, w[0]))
      && (forall i :: 0 <= i < |w| - 1 ==> Adjacent(w[i], w[i + 1]))
    decreases |unvisited|
  {
    if |unvisited| > 0 {
      match FirstPresent(current, Directions, unvisited)
      case None =>
      case Some(next) =>
        var rest := Walk(next, unvisited - {next});
        WalkIsSimple(next, unvisited - {next});
        var w := [next] + rest;
        assert Walk(current, unvisited) == w;
        var k :| 0 <= k < |Directions| && next == Shift(current, Directions[k]);
        assert Adjacent(current, next);
        assert next !in Elements(rest);
        DistinctCons(next, rest);
        forall i | 0 <= i < |w| - 1 ensures Adjacent(w[i], w[i + 1]) {
          if i > 0 {
            assert w[i] == rest[i - 1] && w[i + 1] == rest[i];
          }
        }
        ElementsCons(next, rest);
    }
  }

  /**
   * The ordered path is empty only for an empty list; otherwise it begins at StartCell,
   * lists distinct painted cells, no more than were painted, each adjacent to the previous one.
   */
  lemma OrderCellsIsSimplePath(cells: seq<Cell>)
    ensures var r := OrderCells(cells);
      && (r == [] <==> cells == [])
      && (cells != [] ==> r[0] == StartCell(cells))
      && Elements(r) <= Elements(cells)
      && Distinct(r)
      && |r| <= |Elements(cells)| <= |cells|
      && (forall i :: 0 <= i < |r| - 1 ==> Adjacent(r[i], r[i + 1]))
  {
    ElementsBound(cells);
    if cells != [] {
      var start := StartCell(cells);
      var s := Elements(cells);
      var rest := Walk(start, s - {start});
      WalkIsSimple(start, s - {start});
      var r := [start] + rest;
      assert start !in Elements(rest);
      DistinctCons(start, rest);
      forall i | 0 <= i < |r| - 1 ensures Adjacent(r[i], r[i + 1]) {
        if i > 0 {
          assert r[i] == rest[i - 1] && r[i + 1] == rest[i];
        }
      }
      ElementsCons(start, rest);
      assert |s - {start}| == |s| - 1;
    }
  }

  /** One step of the walk: it moves to the first neighbour found, or stops when there is none. */
  lemma WalkStep(current: Cell, unvisited: set<Cell>)
    requires |unvisited| > 0
    ensures FirstPresent(current, Directions, unvisited).None? ==> Walk(current, unvisited) == []
    ensures FirstPresent(current, Directions, unvisited).Some? ==>
      var next := FirstPresent(current, Directions, unvisited).value;
      Walk(current, unvisited) == [next] + Walk(next, unvisited - {next})
  {
  }

  /**
   * The inner loop of `OrderPaintedCells`: tries right, left, up, down in turn and stops at
   * the first neighbour still unvisited.
   */
  method ScanNeighbors(current: Cell, cellSet: set<Cell>) returns (foundNext: bool, neighbor: Cell)
    ensures foundNext <==> FirstPresent(current, Directions, cellSet).Some?
    ensures foundNext ==> neighbor == FirstPresent(current, Directions, cellSet).value
  {
    neighbor := current;
    for k := 0 to |Directions|
      invariant FirstPresent(current, Directions[k..], cellSet) == FirstPresent(current, Directions, cellSet)
    {
      assert Directions[k..][1..] == Directions[k + 1..];
      if Shift(current, Directions[k]) in cellSet {
        return true, Shift(current, Directions[k]);
      }
    }
    return false, neighbor;
  }

  /** The first loop of `OrderPaintedCells`: the first listed cell with exactly one neighbour, else the first cell. */
  method FindStart(cells: seq<Cell>, cellSet: set<Cell>) returns (start: Cell)
    requires cells != [] && cellSet == Elements(cells)
    ensures start == StartCell(cells)
  {
    start := cells[0];
    var i := 0;
    while i < |cells|
      invariant 0 <= i <= |cells|
      invariant FirstEndpoint(cells, cellSet, 0) == FirstEndpoint(cells, cellSet, i)
      invariant start == cells[0]
    {
      var n := GetNeighborCount(cells[i], cellSet);
      if n == 1 {
        start := cells[i];
        break;
      }
      i := i + 1;
    }
  }

  /** `OrderPaintedCells`: the start search and the walk, as the two loops of the source. */
  method OrderPaintedCells(cells: seq<Cell>) returns (ordered: seq<Cell>)
    ensures ordered == OrderCells(cells)
  {
    if |cells| == 0 {
      return [];
    }
    var cellSet := Elements(cells);
    var start := FindStart(cells, cellSet);

    ordered := [start];
    cellSet := cellSet - {start};
    var current := start;
    ghost var target := OrderCells(cells);
    assert ordered + Walk(current, cellSet) == target;
    while |cellSet| > 0
      invariant ordered + Walk(current, cellSet) == target
      decreases |cellSet|
    {
      WalkStep(current, cellSet);
      var foundNext, neighbor := ScanNeighbors(current, cellSet);
      if !foundNext {
        break;
      }
      assert (ordered + [neighbor]) + Walk(neighbor, cellSet - {neighbor}) == ordered + Walk(current, cellSet);
      ordered := ordered + [neighbor];
      cellSet := cellSet - {neighbor};
      current := neighbor;
    }
  }
}
