/**
 * The seven falling-block pieces and their rotation templates.
 *
 * Each rotation is a 5 × 5 picture in which `#` marks a block; the blocks of a piece are
 * read off the picture row by row, left to right, and moved to the piece's position.
 */
module Tetrominoes {

  /** The piece kinds, in the order of the template table. */
  datatype Shape = I | O | T | S | Z | J | L

  /** The template table's keys in order; a piece locks into the board as its position here plus one. */
  const ShapeOrder: seq<Shape> := [I, O, T, S, Z, J, L]

  /** The number written into the board for a locked block of shape `s`. */
  function ShapeNumber(s: Shape): (n: int)
    ensures 1 <= n <= |ShapeOrder| && ShapeOrder[n - 1] == s
    ensures forall k :: 0 <= k < |ShapeOrder| && ShapeOrder[k] == s ==> k == n - 1
  {
    match s
    case I => 1
    case O => 2
    case T => 3
    case S => 4
    case Z => 5
    case J => 6
    case L => 7
  }

  /** The rotation pictures of each shape, in rotation order. */
  function Templates(s: Shape): seq<seq<string>>
  {
    match s
    case I => [
      [".....",
       "..#..",
       "..#..",
       "..#..",
       "..#.."],
      [".....",
       ".....",
       "####.",
       ".....",
       "....."]]
    case O => [
      [".....",
       ".....",
       ".##..",
       ".##..",
       "....."]]
    case T => [
      [".....",
       ".....",
       ".#...",
       "###..",
       "....."],
      [".....",
       ".....",
       ".#...",
       ".##..",
       ".#..."],
      [".....",
       ".....",
       ".....",
       "###..",
       ".#..."],
      [".....",
       ".....",
       ".#...",
       "##...",
       ".#..."]]
    case S => [
      [".....",
       ".....",
       ".##..",
       "##...",
       "....."],
      [".....",
       ".#...",
       ".##..",
       "..#..",
       "....."]]
    case Z => [
      [".....",
       ".....",
       "##...",
       ".##..",
       "....."],
      [".....",
       "..#..",
       ".##..",
       ".#...",
       "....."]]
    case J => [
      [".....",
       ".#...",
       ".#...",
       "##...",
       "....."],
      [".....",
       ".....",
       "#....",
       "###..",
       "....."],
      [".....",
       ".##..",
       ".#...",
       ".#...",
       "....."],
      [".....",
       ".....",
       "###..",
       "..#..",
       "....."]]
    case L => [
      [".....",
       "..#..",
       "..#..",
       ".##..",
       "....."],
      [".....",
       ".....",
       "###..",
       "#....",
       "....."],
      [".....",
       "##...",
       ".#...",
       ".#...",
       "....."],
      [".....",
       ".....",
       "..#..",
       "###..",
       "....."]]
  }

  /** How many distinct rotations shape `s` has: its number of pictures. */
  function RotationCount(s: Shape): (n: nat)
    ensures n == 1 || n == 2 || n == 4
  {
    |OffsetTable(s)|
  }

  /** Each shape has as many pictures as reference offset lists: one, two or four. */
  lemma RotationCountIsPictureCount(s: Shape)
    ensures RotationCount(s) == |Templates(s)|
  {
  }

  /** The picture used for rotation `rotation`, taken modulo the number of pictures. */
  function Template(s: Shape, rotation: int): seq<string>
  {
    Templates(s)[rotation % |Templates(s)|]
  }

  /** The blocks of one picture row `y`, the row's first column being `x`. */
  function RowCells(row: string, x: int, y: int): seq<(int, int)>
    decreases |row|
  {
    if row == [] then []
    else (if row[0] == '#' then [(x, y)] else []) + RowCells(row[1..], x + 1, y)
  }

  /** The blocks of a picture whose top-left corner is at `(x, y)`, row by row. */
  function GridCells(rows: seq<string>, x: int, y: int): seq<(int, int)>
    decreases |rows|
  {
    if rows == [] then []
    else RowCells(rows[0], x, y) + GridCells(rows[1..], x, y + 1)
  }

  /** `cells` moved right by `dx` and down by `dy`. */
  function Translate(cells: seq<(int, int)>, dx: int, dy: int): (r: seq<(int, int)>)
    ensures |r| == |cells|
    ensures forall k :: 0 <= k < |r| ==> r[k] == (cells[k].0 + dx, cells[k].1 + dy)
  {
    if cells == [] then [] else [(cells[0].0 + dx, cells[0].1 + dy)] + Translate(cells[1..], dx, dy)
  }

  /** The block offsets of a shape in a rotation, relative to the picture's corner. */
  function Offsets(s: Shape, rotation: int): seq<(int, int)>
  {
    GridCells(Template(s, rotation), 0, 0)
  }

  /** Reading a row at another position moves every block it yields by the same amount. */
  lemma {:induction false} RowCellsShift(row: string, x: int, y: int, dx: int, dy: int)
    ensures RowCells(row, x + dx, y + dy) == Translate(RowCells(row, x, y), dx, dy)
    decreases |row|
  {
    if row != [] {
      var head, tail := if row[0] == '#' then [(x, y)] else [], RowCells(row[1..], x + 1, y);
      calc {
        RowCells(row, x + dx, y + dy);
        (if row[0] == '#' then [(x + dx, y + dy)] else []) + RowCells(row[1..], x + dx + 1, y + dy);
        { assert Translate(head, dx, dy) == if row[0] == '#' then [(x + dx, y + dy)] else [];
          assert x + dx + 1 == (x + 1) + dx; }
        Translate(head, dx, dy) + RowCells(row[1..], (x + 1) + dx, y + dy);
        { RowCellsShift(row[1..], x + 1, y, dx, dy); }
        Translate(head, dx, dy) + Translate(tail, dx, dy);
        { TranslateAppend(head, tail, dx, dy); }
        Translate(head + tail, dx, dy);
        Translate(RowCells(row, x, y), dx, dy);
      }
    }
  }

  /** Reading a picture at another position moves every block it yields by the same amount. */
  lemma {:induction false} GridCellsShift(rows: seq<string>, x: int, y: int, dx: int, dy: int)
    ensures GridCells(rows, x + dx, y + dy) == Translate(GridCells(rows, x, y), dx, dy)
    decreases |rows|
  {
    if rows != [] {
      var head, tail := RowCells(rows[0], x, y), GridCells(rows[1..], x, y + 1);
      RowCellsShift(rows[0], x, y, dx, dy);
      GridCellsShift(rows[1..], x, y + 1, dx, dy);
      assert GridCells(rows[1..], x + dx, y + 1 + dy) == Translate(tail, dx, dy);
      assert GridCells(rows, x + dx, y + dy) == Translate(head, dx, dy) + Translate(tail, dx, dy);
      TranslateAppend(head, tail, dx, dy);
    }
  }

  lemma TranslateAppend(a: seq<(int, int)>, b: seq<(int, int)>, dx: int, dy: int)
    ensures Translate(a + b, dx, dy) == Translate(a, dx, dy) + Translate(b, dx, dy)
  {
  }

  /**
   * The same pictures written as block offsets (column, row), an independent statement
   * of the table above.
   */
  function OffsetTable(s: Shape): seq<seq<(int, int)>>
  {
    match s
    case I => [[(2, 1), (2, 2), (2, 3), (2, 4)],
               [(0, 2), (1, 2), (2, 2), (3, 2)]]
    case O => [[(1, 2), (2, 2), (1, 3), (2, 3)]]
    case T => [[(1, 2), (0, 3), (1, 3), (2, 3)],
               [(1, 2), (1, 3), (2, 3), (1, 4)],
               [(0, 3), (1, 3), (2, 3), (1, 4)],
               [(1, 2), (0, 3), (1, 3), (1, 4)]]
    case S => [[(1, 2), (2, 2), (0, 3), (1, 3)],
               [(1, 1), (1, 2), (2, 2), (2, 3)]]
    case Z => [[(0, 2), (1, 2), (1, 3), (2, 3)],
               [(2, 1), (1, 2), (2, 2), (1, 3)]]
    case J => [[(1, 1), (1, 2), (0, 3), (1, 3)],
               [(0, 2), (0, 3), (1, 3), (2, 3)],
               [(1, 1), (2, 1), (1, 2), (1, 3)],
               [(0, 2), (1, 2), (2, 2), (2, 3)]]
    case L => [[(2, 1), (2, 2), (1, 3), (2, 3)],
               [(0, 2), (1, 2), (2, 2), (0, 3)],
               [(0, 1), (1, 1), (1, 2), (1, 3)],
               [(2, 2), (0, 3), (1, 3), (2, 3)]]
  }

  /**
   * The reference offsets of a shape in a rotation: four blocks, within columns 0..3
   * and rows 1..4 of the picture, and within columns 0..2 in rotation 0.
   */
  function ShapeOffsets(s: Shape, rotation: int): (cs: seq<(int, int)>)
    ensures |cs| == 4
    ensures forall k :: 0 <= k < |cs| ==> 0 <= cs[k].0 <= 3 && 1 <= cs[k].1 <= 4
    ensures rotation == 0 ==> forall k :: 0 <= k < |cs| ==> cs[k].0 <= 2
  {
    TableShaped(s, rotation % RotationCount(s));
    OffsetTable(s)[rotation % RotationCount(s)]
  }

  /** Reading each picture gives exactly the offsets of the reference table. */
  lemma OffsetsTable(s: Shape, rotation: int)
    ensures Offsets(s, rotation) == ShapeOffsets(s, rotation)
  {
    match s
    case I => OffsetsTableOfI(rotation);
    case O => OffsetsTableOfO(rotation);
    case T => OffsetsTableOfT(rotation);
    case S => OffsetsTableOfS(rotation);
    case Z => OffsetsTableOfZ(rotation);
    case J => OffsetsTableOfJ(rotation);
    case L => OffsetsTableOfL(rotation);
  }

  /** Reading a shape's picture with its corner at `(x, y)` gives its reference offsets moved there. */
  lemma PictureAt(s: Shape, rotation: int, x: int, y: int)
    ensures GridCells(Template(s, rotation), x, y) == Translate(ShapeOffsets(s, rotation), x, y)
  {
    GridCellsShift(Template(s, rotation), 0, 0, x, y);
    OffsetsTable(s, rotation);
  }

  lemma OffsetsTableOfI(rotation: int)
    ensures Offsets(I, rotation) == OffsetTable(I)[rotation % 2]
  {
    var k := rotation % 2;
    if k == 0 {
      PictureI0();
    } else {
      PictureI1();
    }
  }

  lemma OffsetsTableOfO(rotation: int)
    ensures Offsets(O, rotation) == OffsetTable(O)[rotation % 1]
  {
    PictureO0();
  }

  lemma OffsetsTableOfT(rotation: int)
    ensures Offsets(T, rotation) == OffsetTable(T)[rotation % 4]
  {
    var k := rotation % 4;
    if k == 0 {
      PictureT0();
    } else if k == 1 {
      PictureT1();
    } else if k == 2 {
      PictureT2();
    } else {
      PictureT3();
    }
  }

  lemma OffsetsTableOfS(rotation: int)
    ensures Offsets(S, rotation) == OffsetTable(S)[rotation % 2]
  {
    var k := rotation % 2;
    if k == 0 {
      PictureS0();
    } else {
      PictureS1();
    }
  }

  lemma OffsetsTableOfZ(rotation: int)
    ensures Offsets(Z, rotation) == OffsetTable(Z)[rotation % 2]
  {
    var k := rotation % 2;
    if k == 0 {
      PictureZ0();
    } else {
      PictureZ1();
    }
  }

  lemma OffsetsTableOfJ(rotation: int)
    ensures Offsets(J, rotation) == OffsetTable(J)[rotation % 4]
  {
    var k := rotation % 4;
    if k == 0 {
      PictureJ0();
    } else if k == 1 {
      PictureJ1();
    } else if k == 2 {
      PictureJ2();
    } else {
      PictureJ3();
    }
  }

  lemma OffsetsTableOfL(rotation: int)
    ensures Offsets(L, rotation) == OffsetTable(L)[rotation % 4]
  {
    var k := rotation % 4;
    if k == 0 {
      PictureL0();
    } else if k == 1 {
      PictureL1();
    } else if k == 2 {
      PictureL2();
    } else {
      PictureL3();
    }
  }

  /** A five-row picture read at the origin yields the blocks of its rows, top to bottom. */
  lemma FiveRows(rows: seq<string>)
    requires |rows| == 5
    ensures GridCells(rows, 0, 0) ==
      RowCells(rows[0], 0, 0) + (RowCells(rows[1], 0, 1) + (RowCells(rows[2], 0, 2) +
      (RowCells(rows[3], 0, 3) + RowCells(rows[4], 0, 4))))
  {
    assert rows[4..][1..] == [];
    assert GridCells(rows[4..], 0, 4) == RowCells(rows[4], 0, 4);
    assert rows[3..][1..] == rows[4..];
    assert GridCells(rows[3..], 0, 3) == RowCells(rows[3], 0, 3) + GridCells(rows[4..], 0, 4);
    assert rows[2..][1..] == rows[3..];
    assert GridCells(rows[2..], 0, 2) == RowCells(rows[2], 0, 2) + GridCells(rows[3..], 0, 3);
    assert rows[1..][1..] == rows[2..];
    assert GridCells(rows[1..], 0, 1) == RowCells(rows[1], 0, 1) + GridCells(rows[2..], 0, 2);
  }

  lemma PictureI0()
    ensures GridCells(Templates(I)[0], 0, 0) == OffsetTable(I)[0]
  {
    FiveRows(Templates(I)[0]);
  }

  lemma PictureI1()
    ensures GridCells(Templates(I)[1], 0, 0) == OffsetTable(I)[1]
  {
    FiveRows(Templates(I)[1]);
  }

  lemma PictureO0()
    ensures GridCells(Templates(O)[0], 0, 0) == OffsetTable(O)[0]
  {
    FiveRows(Templates(O)[0]);
  }

  lemma PictureT0()
    ensures GridCells(Templates(T)[0], 0, 0) == OffsetTable(T)[0]
  {
    FiveRows(Templates(T)[0]);
  }

  lemma PictureT1()
    ensures GridCells(Templates(T)[1], 0, 0) == OffsetTable(T)[1]
  {
    FiveRows(Templates(T)[1]);
  }

  lemma PictureT2()
    ensures GridCells(Templates(T)[2], 0, 0) == OffsetTable(T)[2]
  {
    FiveRows(Templates(T)[2]);
  }

  lemma PictureT3()
    ensures GridCells(Templates(T)[3], 0, 0) == OffsetTable(T)[3]
  {
    FiveRows(Templates(T)[3]);
  }

  lemma PictureS0()
    ensures GridCells(Templates(S)[0], 0, 0) == OffsetTable(S)[0]
  {
    FiveRows(Templates(S)[0]);
  }

  lemma PictureS1()
    ensures GridCells(Templates(S)[1], 0, 0) == OffsetTable(S)[1]
  {
    FiveRows(Templates(S)[1]);
  }

  lemma PictureZ0()
    ensures GridCells(Templates(Z)[0], 0, 0) == OffsetTable(Z)[0]
  {
    FiveRows(Templates(Z)[0]);
  }

  lemma PictureZ1()
    ensures GridCells(Templates(Z)[1], 0, 0) == OffsetTable(Z)[1]
  {
    FiveRows(Templates(Z)[1]);
  }

  lemma PictureJ0()
    ensures GridCells(Templates(J)[0], 0, 0) == OffsetTable(J)[0]
  {
    FiveRows(Templates(J)[0]);
  }

  lemma PictureJ1()
    ensures GridCells(Templates(J)[1], 0, 0) == OffsetTable(J)[1]
  {
    FiveRows(Templates(J)[1]);
  }

  lemma PictureJ2()
    ensures GridCells(Templates(J)[2], 0, 0) == OffsetTable(J)[2]
  {
    FiveRows(Templates(J)[2]);
  }

  lemma PictureJ3()
    ensures GridCells(Templates(J)[3], 0, 0) == OffsetTable(J)[3]
  {
    FiveRows(Templates(J)[3]);
  }

  lemma PictureL0()
    ensures GridCells(Templates(L)[0], 0, 0) == OffsetTable(L)[0]
  {
    FiveRows(Templates(L)[0]);
  }

  lemma PictureL1()
    ensures GridCells(Templates(L)[1], 0, 0) == OffsetTable(L)[1]
  {
    FiveRows(Templates(L)[1]);
  }

  lemma PictureL2()
    ensures GridCells(Templates(L)[2], 0, 0) == OffsetTable(L)[2]
  {
    FiveRows(Templates(L)[2]);
  }

  lemma PictureL3()
    ensures GridCells(Templates(L)[3], 0, 0) == OffsetTable(L)[3]
  {
    FiveRows(Templates(L)[3]);
  }

  /**
   * What every entry of the reference table looks like: four blocks within columns 0..3
   * and rows 1..4, and, for a spawn picture, within columns 0..2.
   */
  ghost predicate TableEntryShaped(cs: seq<(int, int)>, spawn: bool)
  {
    |cs| == 4 &&
    (forall k :: 0 <= k < |cs| ==> 0 <= cs[k].0 <= 3 && 1 <= cs[k].1 <= 4) &&
    (spawn ==> forall k :: 0 <= k < |cs| ==> cs[k].0 <= 2)
  }

  /** Every entry of the reference table has that look. */
  lemma TableShaped(s: Shape, k: nat)
    requires k < RotationCount(s)
    ensures TableEntryShaped(OffsetTable(s)[k], k == 0)
  {
    match s
    case I => assert k == 0 || k == 1;
    case O => assert k == 0;
    case T => FourPicturesShaped(T, k);
    case S => assert k == 0 || k == 1;
    case Z => assert k == 0 || k == 1;
    case J => FourPicturesShaped(J, k);
    case L => FourPicturesShaped(L, k);
  }

  /** The same for each of the four pictures of T, J and L. */
  lemma FourPicturesShaped(s: Shape, k: nat)
    requires (s == T || s == J || s == L) && k < 4
    ensures TableEntryShaped(OffsetTable(s)[k], k == 0)
  {
    if k == 0 {
    } else if k == 1 {
    } else if k == 2 {
    } else {
    }
  }
}
