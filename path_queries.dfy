/**
 * The read-only queries both pathfinder revisions run over the painted cells:
 * neighbour count, 2x2-block detection and intersection detection. Each is a
 * specification function plus the method that performs the source's scan.
 */
module PathQueries {
  import opened Grid
  import opened Lists

  /** How many of the cells c + d, for d in dirs, are in s. */
  function CountPresent(c: Cell, dirs: seq<Cell>, s: set<Cell>): (n: nat)
    ensures n <= |dirs|
  {
    if dirs == [] then 0
    else (if Shift(c, dirs[0]) in s then 1 else 0) + CountPresent(c, dirs[1..], s)
  }

  /** The number of orthogonal neighbours of c that are in s (c itself need not be in s). */
  function NeighborCount(c: Cell, s: set<Cell>): (n: nat)
    ensures n <= 4
  {
    CountPresent(c, Directions, s)
  }

  /** The cells of s that share an edge with c. */
  function AdjacentIn(c: Cell, s: set<Cell>): set<Cell> {
    set p | p in s && Adjacent(c, p)
  }

  /** The only cells adjacent to c are the four shifts by Directions. */
  lemma AdjacentIsShift(c: Cell, p: Cell)
    ensures Adjacent(c, p) <==> p == Shift(c, Right) || p == Shift(c, Left) || p == Shift(c, Up) || p == Shift(c, Down)
  {
  }

  function Indicator(p: Cell, s: set<Cell>): nat {
    if p in s then 1 else 0
  }

  lemma NeighborCountUnfold(c: Cell, s: set<Cell>)
    ensures NeighborCount(c, s) == Indicator(Shift(c, Right), s) + Indicator(Shift(c, Left), s)
                                 + Indicator(Shift(c, Up), s) + Indicator(Shift(c, Down), s)
  {
    var ds := Directions;
    assert ds[1..] == [Left, Up, Down] && ds[1..][1..] == [Up, Down] && ds[1..][1..][1..] == [Down];
    assert CountPresent(c, [Down], s) == Indicator(Shift(c, Down), s);
    assert CountPresent(c, [Up, Down], s) == Indicator(Shift(c, Up), s) + CountPresent(c, [Down], s);
    assert CountPresent(c, [Left, Up, Down], s) == Indicator(Shift(c, Left), s) + CountPresent(c, [Up, Down], s);
    assert CountPresent(c, ds, s) == Indicator(Shift(c, Right), s) + CountPresent(c, [Left, Up, Down], s);
  }

  /** How many of the listed cells are in s. */
  function CountIn(ps: seq<Cell>, s: set<Cell>): nat {
    if ps == [] then 0 else Indicator(ps[0], s) + CountIn(ps[1..], s)
  }

  /** For a list of distinct candidates, counting hits is the size of the set of hits. */
  lemma {:induction false} CountInIsCard(ps: seq<Cell>, s: set<Cell>)
    requires Distinct(ps)
    ensures CountIn(ps, s) == |set p | p in s && p in ps|
  {
    if ps == [] {
      assert (set p | p in s && p in ps) == {};
    } else {
      var rest := set p | p in s && p in ps[1..];
      CountInIsCard(ps[1..], s);
      assert ps[0] !in ps[1..];
      var head: set<Cell> := if ps[0] in s then {ps[0]} else {};
      assert (set p | p in s && p in ps) == head + rest by {
        assert forall p :: p in ps <==> p == ps[0] || p in ps[1..];
      }
      assert head !! rest;
    }
  }

  /** The direction scan counts exactly the cells of s adjacent to c. */
  lemma NeighborCountIsAdjacentCount(c: Cell, s: set<Cell>)
    ensures NeighborCount(c, s) == |AdjacentIn(c, s)|
  {
    var ps := [Shift(c, Right), Shift(c, Left), Shift(c, Up), Shift(c, Down)];
    forall p ensures Adjacent(c, p) <==> p in ps {
      AdjacentIsShift(c, p);
    }
    assert AdjacentIn(c, s) == set p | p in s && p in ps;
    NeighborCountUnfold(c, s);
    assert ps[1..] == [Shift(c, Left), Shift(c, Up), Shift(c, Down)];
    assert ps[1..][1..] == [Shift(c, Up), Shift(c, Down)];
    assert ps[1..][1..][1..] == [Shift(c, Down)];
    assert CountIn([Shift(c, Down)], s) == Indicator(Shift(c, Down), s);
    assert CountIn(ps[1..][1..], s) == Indicator(Shift(c, Up), s) + CountIn([Shift(c, Down)], s);
    assert CountIn(ps[1..], s) == Indicator(Shift(c, Left), s) + CountIn(ps[1..][1..], s);
    assert CountIn(ps, s) == NeighborCount(c, s);
    CountInIsCard(ps, s);
  }

  /** Fewer cells never means more neighbours. */
  lemma {:induction false} CountPresentMonotone(c: Cell, dirs: seq<Cell>, t: set<Cell>, s: set<Cell>)
    requires t <= s
    ensures CountPresent(c, dirs, t) <= CountPresent(c, dirs, s)
  {
    if dirs != [] {
      CountPresentMonotone(c, dirs[1..], t, s);
    }
  }

  /** c is the bottom-left cell of a 2x2 square inside s (its right, up and up-right cells are in s). */
  predicate SquareAt(c: Cell, s: set<Cell>) {
    Shift(c, Right) in s && Shift(c, Up) in s && Shift(c, UpRight) in s
  }

  /** s contains a fully painted 2x2 square. */
  ghost predicate ContainsSquare(s: set<Cell>) {
    exists c :: c in s && SquareAt(c, s)
  }

  /** Some cell of s has more than two neighbours in s: the painted cells branch. */
  ghost predicate ContainsBranch(s: set<Cell>) {
    exists c :: c in s && NeighborCount(c, s) > 2
  }

  /** A subset of a square-free, branch-free set is square-free and branch-free. */
  lemma SubsetKeepsShape(t: set<Cell>, s: set<Cell>)
    requires t <= s
    ensures ContainsSquare(t) ==> ContainsSquare(s)
    ensures ContainsBranch(t) ==> ContainsBranch(s)
  {
    if ContainsBranch(t) {
      var c :| c in t && NeighborCount(c, t) > 2;
      CountPresentMonotone(c, Directions, t, s);
    }
  }

  /** `GetNeighborCount`: scans right, left, up, down and counts the neighbours present. */
  method GetNeighborCount(cell: Cell, cells: set<Cell>) returns (count: nat)
    ensures count == NeighborCount(cell, cells)
  {
    count := 0;
    for k := 0 to |Directions|
      invariant count + CountPresent(cell, Directions[k..], cells) == NeighborCount(cell, cells)
    {
      assert Directions[k..][1..] == Directions[k + 1..];
      if Shift(cell, Directions[k]) in cells {
        count := count + 1;
      }
    }
  }

  /** `Has2x2Block`: true iff some listed cell has its right, up and up-right cells listed too. */
  method Has2x2Block(cells: seq<Cell>) returns (found: bool)
    ensures found == ContainsSquare(Elements(cells))
  {
    var set_ := Elements(cells);
    for i := 0 to |cells|
      invariant forall j :: 0 <= j < i ==> !SquareAt(cells[j], set_)
    {
      var cell := cells[i];
      if Shift(cell, Right) in set_ && Shift(cell, Up) in set_ && Shift(cell, UpRight) in set_ {
        assert cell in set_ && SquareAt(cell, set_);
        return true;
      }
    }
    return false;
  }

  /** `HasIntersection`: true iff some listed cell has more than two listed neighbours. */
  method HasIntersection(cells: seq<Cell>) returns (found: bool)
    ensures found == ContainsBranch(Elements(cells))
  {
    var set_ := Elements(cells);
    for i := 0 to |cells|
      invariant forall j :: 0 <= j < i ==> NeighborCount(cells[j], set_) <= 2
    {
      var n := GetNeighborCount(cells[i], set_);
      if n > 2 {
        return true;
      }
    }
    return false;
  }
}
