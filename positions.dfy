/**
 * Geometry of the 81-cell grid: cell indices, their row / column / box
 * coordinates and the nine cells of every group (`index_to_pos`,
 * `row_column_to_index` and the `containers` table of `Sudoku`).
 */
module Positions {

  /** The three group kinds, 'r', 'c' and 's' in the source. */
  datatype Kind = Row | Col | Box

  const Kinds: seq<Kind> := [Row, Col, Box]

  /** The row, column and box of one cell, the source's `{'r', 'c', 's'}` dictionary. */
  datatype Pos = Pos(r: int, c: int, s: int)

  predicate IsCell(t: int) { 0 <= t < 81 }

  predicate IsGroup(g: int) { 0 <= g < 9 }

  predicate IsDigit(d: int) { 1 <= d <= 9 }

  /** The nine candidate digits. */
  const Digits: set<int> := {1, 2, 3, 4, 5, 6, 7, 8, 9}

  function RowColumnToIndex(r: int, c: int): (t: int)
    requires IsGroup(r) && IsGroup(c)
    ensures IsCell(t)
    ensures t / 9 == r && t % 9 == c
  {
    r * 9 + c
  }

  function IndexToPos(t: int): (p: Pos)
    requires IsCell(t)
    ensures IsGroup(p.r) && IsGroup(p.c) && IsGroup(p.s)
    ensures 9 * p.r + p.c == t
    ensures p.s == 3 * (p.r / 3) + p.c / 3
  {
    var r := t / 9;
    var c := t % 9;
    Pos(r, c, 3 * (r / 3) + c / 3)
  }

  /** `row_column_to_index` inverts `index_to_pos`, and the other way round. */
  lemma PosRoundTrip(t: int, r: int, c: int)
    requires IsCell(t) && IsGroup(r) && IsGroup(c)
    ensures RowColumnToIndex(IndexToPos(t).r, IndexToPos(t).c) == t
    ensures IndexToPos(RowColumnToIndex(r, c)).r == r && IndexToPos(RowColumnToIndex(r, c)).c == c
  {
  }

  /** `tile.pos[kind]`: the index of the group of the given kind holding cell t. */
  function GroupOf(t: int, kind: Kind): (g: int)
    requires IsCell(t)
    ensures IsGroup(g)
  {
    var p := IndexToPos(t);
    match kind
    case Row => p.r
    case Col => p.c
    case Box => p.s
  }

  /** The j-th cell (in ascending index order) of group g of the given kind. */
  function CellOf(kind: Kind, g: int, j: int): int
    requires IsGroup(g) && IsGroup(j)
  {
    match kind
    case Row => 9 * g + j
    case Col => 9 * j + g
    case Box => 9 * (3 * (g / 3) + j / 3) + 3 * (g % 3) + j % 3
  }

  /** `containers[kind][g]`: the cells of group g, in ascending index order. */
  function Container(kind: Kind, g: int): (cs: seq<int>)
    requires IsGroup(g)
    ensures |cs| == 9
  {
    seq(9, j requires 0 <= j < 9 => CellOf(kind, g, j))
  }

  /** Division facts behind every coordinate computation. */
  lemma Join3(a: int, b: int)
    requires 0 <= b < 3
    ensures (3 * a + b) / 3 == a && (3 * a + b) % 3 == b
  {
  }

  lemma Join9(a: int, b: int)
    requires 0 <= b < 9
    ensures (9 * a + b) / 9 == a && (9 * a + b) % 9 == b
  {
  }

  /** The box of cell t lists t at place `3 * (row % 3) + column % 3`. */
  lemma BoxPlace(t: int)
    requires IsCell(t)
    ensures CellOf(Box, GroupOf(t, Box), 3 * ((t / 9) % 3) + (t % 9) % 3) == t
  {
    var r, c := t / 9, t % 9;
    var g, j := 3 * (r / 3) + c / 3, 3 * (r % 3) + c % 3;
    Join3(r / 3, c / 3);
    Join3(r % 3, c % 3);
    assert g / 3 == r / 3 && g % 3 == c / 3;
    assert j / 3 == r % 3 && j % 3 == c % 3;
    calc {
      CellOf(Box, g, j);
      9 * (3 * (r / 3) + r % 3) + 3 * (c / 3) + c % 3;
      9 * r + c;
    }
  }

  /** Where cell t sits inside its group of the given kind. */
  function SlotInGroup(t: int, kind: Kind): (j: int)
    requires IsCell(t)
    ensures IsGroup(j)
    ensures CellOf(kind, GroupOf(t, kind), j) == t
  {
    BoxPlace(t);
    match kind
    case Row => t % 9
    case Col => t / 9
    case Box => 3 * ((t / 9) % 3) + (t % 9) % 3
  }

  /** The j-th cell of group g lies in group g and sits at place j. */
  lemma CellOfInGroup(kind: Kind, g: int, j: int)
    requires IsGroup(g) && IsGroup(j)
    ensures IsCell(CellOf(kind, g, j)) && GroupOf(CellOf(kind, g, j), kind) == g
  {
    var t := CellOf(kind, g, j);
    match kind
    case Row => Join9(g, j);
    case Col => Join9(j, g);
    case Box =>
      var r, c := 3 * (g / 3) + j / 3, 3 * (g % 3) + j % 3;
      assert t == 9 * r + c;
      Join9(r, c);
      Join3(g / 3, j / 3);
      Join3(g % 3, j % 3);
  }

  /** Cells of one group are listed in strictly ascending order. */
  lemma CellOfAscending(kind: Kind, g: int, i: int, j: int)
    requires IsGroup(g) && 0 <= i < j < 9
    ensures CellOf(kind, g, i) < CellOf(kind, g, j)
  {
    if kind == Box {
      if i / 3 == j / 3 {
        assert i % 3 < j % 3 by { Join3(i / 3, i % 3); Join3(j / 3, j % 3); }
      }
    }
  }

  /**
   * `containers[kind][g]` is the ascending list of the nine cells whose
   * `pos[kind]` is g: every listed cell lies in group g, the list is strictly
   * increasing, and every cell of group g is listed.
   */
  lemma ContainerIsGroup(kind: Kind, g: int)
    requires IsGroup(g)
    ensures forall j :: 0 <= j < 9 ==> IsCell(Container(kind, g)[j]) && GroupOf(Container(kind, g)[j], kind) == g
    ensures forall i, j :: 0 <= i < j < 9 ==> Container(kind, g)[i] < Container(kind, g)[j]
    ensures forall t :: IsCell(t) && GroupOf(t, kind) == g ==> Container(kind, g)[SlotInGroup(t, kind)] == t
  {
    forall j | 0 <= j < 9
      ensures IsCell(Container(kind, g)[j]) && GroupOf(Container(kind, g)[j], kind) == g
    {
      CellOfInGroup(kind, g, j);
    }
    forall i, j | 0 <= i < j < 9
      ensures Container(kind, g)[i] < Container(kind, g)[j]
    {
      CellOfAscending(kind, g, i, j);
    }
  }

  lemma FirstBox()
    ensures Container(Box, 0) == [0, 1, 2, 9, 10, 11, 18, 19, 20]
  {
  }

  /** The cells of group g as a set. */
  function Members(kind: Kind, g: int): set<int>
    requires IsGroup(g)
  {
    set t | 0 <= t < 81 && GroupOf(t, kind) == g
  }

  /** Two distinct cells that share a row, a column or a box. */
  predicate Sees(a: int, b: int)
    requires IsCell(a) && IsCell(b)
  {
    && a != b
    && (GroupOf(a, Row) == GroupOf(b, Row) || GroupOf(a, Col) == GroupOf(b, Col) || GroupOf(a, Box) == GroupOf(b, Box))
  }
}
