/**
 * The falling-block game engine: a `height` × `width` board of integers (0 is empty,
 * 1..7 a locked block of that shape), the falling piece, and the score, level, cleared-
 * line count and fall speed.
 *
 * The random choice of the next shape is not modelled: every operation that may spawn a
 * piece takes the shape to spawn as a parameter.
 */
module Tetris {
  import opened Common
  import opened Tetrominoes

  /** Rows from top to bottom, each a row of cells from left to right. */
  type Board = seq<seq<int>>

  /** The falling piece: its shape, its rotation index and the picture's top-left corner. */
  datatype Piece = Piece(shape: Shape, rotation: int, x: int, y: int)

  /**
   * A fresh piece of shape `s`: rotation 0, at the top of the board, its four-column
   * picture centred (the right margin equals the left one or is one wider).
   */
  function Spawn(s: Shape, width: nat): (p: Piece)
    ensures p.shape == s && p.rotation == 0 && p.y == 0
    ensures 2 * p.x + 4 <= width <= 2 * p.x + 5
  {
    Piece(s, 0, width / 2 - 2, 0)
  }

  /** The position a validity test looks at: moved by `(dx, dy)`, optionally in another rotation. */
  function Moved(p: Piece, dx: int, dy: int, rotation: Option<int>): Piece
  {
    Piece(p.shape, if rotation.Some? then rotation.value else p.rotation, p.x + dx, p.y + dy)
  }

  /**
   * The board cells the piece covers: the reference offsets of its shape and rotation,
   * moved to its corner.
   */
  function PieceBlocks(p: Piece): seq<(int, int)>
  {
    Translate(ShapeOffsets(p.shape, p.rotation), p.x, p.y)
  }

  /**
   * A piece covers exactly four cells, within four columns from `x` and rows `y + 1` to
   * `y + 4`; in rotation 0, within three columns from `x`.
   */
  lemma PieceBlocksAt(p: Piece)
    ensures |PieceBlocks(p)| == 4
    ensures forall k :: 0 <= k < 4 ==>
      p.x <= PieceBlocks(p)[k].0 <= p.x + 3 && p.y + 1 <= PieceBlocks(p)[k].1 <= p.y + 4
    ensures p.rotation == 0 ==> forall k :: 0 <= k < 4 ==> PieceBlocks(p)[k].0 <= p.x + 2
  {
  }

  /** `b` has `height` rows of `width` cells each. */
  ghost predicate IsBoard(b: Board, width: int, height: int)
  {
    |b| == height && forall y :: 0 <= y < |b| ==> |b[y]| == width
  }

  /** Every cell is empty or holds a shape number. */
  ghost predicate CellsInRange(b: Board)
  {
    forall y, x :: 0 <= y < |b| && 0 <= x < |b[y]| ==> 0 <= b[y][x] <= 7
  }

  function EmptyRow(width: nat): seq<int>
  {
    seq(width, _ => 0)
  }

  function EmptyBoard(width: nat, height: nat): (b: Board)
    ensures IsBoard(b, width, height) && CellsInRange(b)
    ensures forall y, x :: 0 <= y < |b| && 0 <= x < |b[y]| ==> b[y][x] == 0
  {
    seq(height, _ => EmptyRow(width))
  }

  /**
   * The validity test: every block lies within the side walls and above the floor, and
   * each block inside the board lands on an empty cell. Blocks above the top are allowed.
   */
  ghost predicate Fits(b: Board, width: int, height: int, p: Piece)
    requires IsBoard(b, width, height)
  {
    forall k :: 0 <= k < |PieceBlocks(p)| ==> CellFree(b, width, height, PieceBlocks(p)[k])
  }

  /** The test for one block: between the side walls, above the floor, and empty if on the board. */
  ghost predicate CellFree(b: Board, width: int, height: int, c: (int, int))
    requires IsBoard(b, width, height)
  {
    0 <= c.0 < width && c.1 < height && (c.1 >= 0 ==> b[c.1][c.0] == 0)
  }

  /** A new piece of any shape fits an empty board at least 4 wide and 5 tall. */
  lemma SpawnFitsEmpty(s: Shape, width: nat, height: nat)
    requires 4 <= width && 5 <= height
    ensures Fits(EmptyBoard(width, height), width, height, Spawn(s, width))
  {
    PieceBlocksAt(Spawn(s, width));
  }

  /**
   * How many rows `p` can still fall on `b`: it keeps falling while the position one row
   * lower fits. A piece that fits passes only through fitting positions and stops at the
   * first one directly above a position that does not fit.
   */
  ghost function DropDistance(b: Board, width: int, height: int, p: Piece): (d: nat)
    requires IsBoard(b, width, height)
    ensures Fits(b, width, height, p) ==>
      (forall k :: 0 <= k <= d ==> Fits(b, width, height, Moved(p, 0, k, None))) &&
      !Fits(b, width, height, Moved(p, 0, d + 1, None))
    decreases height - p.y
  {
    var lower := Moved(p, 0, 1, None);
    if Fits(b, width, height, lower) then
      AboveFloor(b, width, height, lower);
      var d := 1 + DropDistance(b, width, height, lower);
      FallPathFits(b, width, height, p, d);
      d
    else
      assert Moved(p, 0, 0, None) == p;
      0
  }

  /** When the path from one row lower fits for `d - 1` rows, a fitting piece's path fits for `d` rows. */
  lemma FallPathFits(b: Board, width: int, height: int, p: Piece, d: nat)
    requires IsBoard(b, width, height) && 1 <= d
    requires forall k :: 0 <= k <= d - 1 ==> Fits(b, width, height, Moved(Moved(p, 0, 1, None), 0, k, None))
    ensures Fits(b, width, height, p) ==> forall k :: 0 <= k <= d ==> Fits(b, width, height, Moved(p, 0, k, None))
    ensures Moved(Moved(p, 0, 1, None), 0, d, None) == Moved(p, 0, d + 1, None)
  {
    forall k | 0 <= k <= d && Fits(b, width, height, p)
      ensures Fits(b, width, height, Moved(p, 0, k, None))
    {
      if k == 0 {
        assert Moved(p, 0, 0, None) == p;
      } else {
        assert Moved(Moved(p, 0, 1, None), 0, k - 1, None) == Moved(p, 0, k, None);
      }
    }
  }

  /** When the position one row lower fits, the piece falls one row more than from there, and is above the floor. */
  lemma DropStep(b: Board, width: int, height: int, p: Piece)
    requires IsBoard(b, width, height) && Fits(b, width, height, Moved(p, 0, 1, None))
    ensures DropDistance(b, width, height, p) == 1 + DropDistance(b, width, height, Moved(p, 0, 1, None))
    ensures p.y + 1 < height
  {
    AboveFloor(b, width, height, Moved(p, 0, 1, None));
  }

  /** A piece that fits has its corner row at least two rows above the floor. */
  lemma AboveFloor(b: Board, width: int, height: int, p: Piece)
    requires IsBoard(b, width, height) && Fits(b, width, height, p)
    ensures p.y + 2 <= height
  {
    PieceBlocksAt(p);
    assert CellFree(b, width, height, PieceBlocks(p)[0]);
  }

  /**
   * `b` with `n` written into each cell of `cells` that lies on the board, in order;
   * cells off the board are skipped.
   */
  function Overlay(b: Board, cells: seq<(int, int)>, n: int): (r: Board)
    ensures |r| == |b| && forall y :: 0 <= y < |b| ==> |r[y]| == |b[y]|
    decreases |cells|
  {
    if cells == [] then b
    else
      var c := cells[0];
      var b' := if 0 <= c.1 < |b| && 0 <= c.0 < |b[c.1]| then b[c.1 := b[c.1][c.0 := n]] else b;
      Overlay(b', cells[1..], n)
  }

  /** After an overlay, a board cell holds `n` exactly when it is listed, and is untouched otherwise. */
  lemma {:induction false} OverlayAt(b: Board, cells: seq<(int, int)>, n: int, x: int, y: int)
    requires 0 <= y < |b| && 0 <= x < |b[y]|
    ensures Overlay(b, cells, n)[y][x] == if (x, y) in cells then n else b[y][x]
    decreases |cells|
  {
    if cells != [] {
      var c := cells[0];
      var b' := if 0 <= c.1 < |b| && 0 <= c.0 < |b[c.1]| then b[c.1 := b[c.1][c.0 := n]] else b;
      OverlayAt(b', cells[1..], n, x, y);
      assert (x, y) in cells <==> (x, y) == c || (x, y) in cells[1..];
    }
  }

  /** An overlay of a shape number keeps a board a board of empty cells and shape numbers. */
  lemma {:induction false} OverlayKeepsBoard(b: Board, cells: seq<(int, int)>, n: int, width: int, height: int)
    requires IsBoard(b, width, height) && CellsInRange(b) && 1 <= n <= 7
    ensures IsBoard(Overlay(b, cells, n), width, height) && CellsInRange(Overlay(b, cells, n))
  {
    var r := Overlay(b, cells, n);
    forall y, x | 0 <= y < |r| && 0 <= x < |r[y]|
      ensures 0 <= r[y][x] <= 7
    {
      OverlayAt(b, cells, n, x, y);
    }
  }

  // ---------------------------------------------------------------------------
  // Line clearing.
  // ---------------------------------------------------------------------------

  /** A row is full when none of its cells is empty. */
  predicate RowFull(row: seq<int>)
  {
    forall x :: 0 <= x < |row| ==> row[x] != 0
  }

  /** The indices of the full rows from `y` down to the floor, top to bottom. */
  function FullRowsFrom(b: Board, y: nat): (ys: seq<nat>)
    ensures forall k :: 0 <= k < |ys| ==> y <= ys[k] < |b|
    decreases |b| - y
  {
    if y >= |b| then []
    else (if RowFull(b[y]) then [y] else []) + FullRowsFrom(b, y + 1)
  }

  /** The indices of all full rows, top to bottom. */
  function FullRows(b: Board): seq<nat>
  {
    FullRowsFrom(b, 0)
  }

  /** The scan from `y` lists exactly the full rows from `y` on, each once, in increasing order. */
  lemma {:induction false} FullRowsFromExact(b: Board, y: nat)
    ensures forall z :: z in FullRowsFrom(b, y) <==> y <= z < |b| && RowFull(b[z])
    ensures forall k, l :: 0 <= k < l < |FullRowsFrom(b, y)| ==> FullRowsFrom(b, y)[k] < FullRowsFrom(b, y)[l]
    decreases |b| - y
  {
    if y < |b| {
      FullRowsFromExact(b, y + 1);
    }
  }

  /** The indices of the full rows among the top `y` rows, in the order a scan from the top finds them. */
  function FullRowsAbove(b: Board, y: nat): (ys: seq<nat>)
    requires y <= |b|
    ensures forall k :: 0 <= k < |ys| ==> ys[k] < y
  {
    if y == 0 then []
    else FullRowsAbove(b, y - 1) + (if RowFull(b[y - 1]) then [y - 1] else [])
  }

  /** The scan of the top `y` rows lists exactly the full ones, each once, in increasing order. */
  lemma {:induction false} FullRowsAboveExact(b: Board, y: nat)
    requires y <= |b|
    ensures forall z :: z in FullRowsAbove(b, y) <==> 0 <= z < y && RowFull(b[z])
    ensures forall k, l :: 0 <= k < l < |FullRowsAbove(b, y)| ==> FullRowsAbove(b, y)[k] < FullRowsAbove(b, y)[l]
  {
    if y > 0 {
      FullRowsAboveExact(b, y - 1);
      var prev := FullRowsAbove(b, y - 1);
      assert FullRowsAbove(b, y) == prev + (if RowFull(b[y - 1]) then [y - 1] else []);
    }
  }

  /** Scanning the whole board from the top, row after row, finds the full rows. */
  lemma FullRowsAboveAll(b: Board)
    ensures FullRowsAbove(b, |b|) == FullRows(b)
  {
    FullRowsAboveExact(b, |b|);
    FullRowsExact(b);
    IncreasingUnique(FullRowsAbove(b, |b|), FullRows(b));
  }

  /** The full-row scan lists exactly the full rows, each once, in increasing order. */
  lemma FullRowsExact(b: Board)
    ensures forall z :: z in FullRows(b) <==> 0 <= z < |b| && RowFull(b[z])
    ensures forall k, l :: 0 <= k < l < |FullRows(b)| ==> FullRows(b)[k] < FullRows(b)[l]
  {
    FullRowsFromExact(b, 0);
  }

  /** One row removed at `y` and an empty row added at the top; the rows above `y` move down one. */
  function DeleteRow(b: Board, y: nat, width: nat): (r: Board)
    requires y < |b|
    ensures |r| == |b|
  {
    [EmptyRow(width)] + (b[..y] + b[y + 1..])
  }

  /** After deleting row `y`, row `z` is the new empty row, the row that was above it, or itself. */
  lemma DeleteRowAt(b: Board, y: nat, width: nat, z: nat)
    requires y < |b| && z < |b|
    ensures DeleteRow(b, y, width)[z] == if z == 0 then EmptyRow(width) else if z <= y then b[z - 1] else b[z]
  {
  }

  /** Deleting a row keeps a board a board of empty cells and shape numbers. */
  lemma DeleteRowKeepsBoard(b: Board, y: nat, width: nat, height: nat)
    requires IsBoard(b, width, height) && CellsInRange(b) && y < height
    ensures IsBoard(DeleteRow(b, y, width), width, height) && CellsInRange(DeleteRow(b, y, width))
  {
    var r := DeleteRow(b, y, width);
    forall z | 0 <= z < |r|
      ensures |r[z]| == width && forall x :: 0 <= x < |r[z]| ==> 0 <= r[z][x] <= 7
    {
      DeleteRowAt(b, y, width, z);
    }
  }

  /**
   * The deletion loop as the source writes it: the rows at the indices `ys` (increasing)
   * are deleted from the last to the first, an empty row added at the top after each
   * deletion. Each insertion moves the rows above down by one, so after `j` deletions an
   * index names the row `j` above the one it named at the start, or an inserted empty
   * row when fewer than `j` rows lie above that one.
   */
  function ClearRowsAsWritten(b: Board, ys: seq<nat>, width: nat): (r: Board)
    requires forall k :: 0 <= k < |ys| ==> ys[k] < |b|
    ensures |r| == |b|
    decreases |ys|
  {
    if ys == [] then b
    else ClearRowsAsWritten(DeleteRow(b, ys[|ys| - 1], width), ys[..|ys| - 1], width)
  }

  /**
   * With exactly two full rows, the deletion loop as written keeps the upper full row:
   * it ends one row lower, unchanged, and still full.
   */
  lemma TwoFullRowsLeaveOneFull(b: Board, width: nat)
    requires |FullRows(b)| == 2
    ensures var r := ClearRowsAsWritten(b, FullRows(b), width);
      FullRows(b)[0] + 1 < |r| && r[FullRows(b)[0] + 1] == b[FullRows(b)[0]] &&
      FullRows(b)[0] + 1 in FullRows(r)
  {
    var ys := FullRows(b);
    FullRowsExact(b);
    var y1, y2 := ys[0], ys[1];
    assert y1 in ys && y2 in ys;
    var once := DeleteRow(b, y2, width);
    var twice := DeleteRow(once, y1, width);
    assert ys[|ys| - 1] == y2 && ys[..|ys| - 1] == [y1] && [y1][..0] == [];
    assert ClearRowsAsWritten(b, ys, width) == ClearRowsAsWritten(once, [y1], width);
    assert ClearRowsAsWritten(once, [y1], width) == ClearRowsAsWritten(twice, [], width);
    DeleteRowAt(b, y2, width, y1 + 1);
    DeleteRowAt(once, y1, width, y1 + 1);
    FullRowsExact(twice);
  }

  /** The deletion loop as written keeps a board a board of empty cells and shape numbers. */
  lemma {:induction false} ClearRowsAsWrittenKeepsBoard(b: Board, ys: seq<nat>, width: nat, height: nat)
    requires IsBoard(b, width, height) && CellsInRange(b)
    requires forall k :: 0 <= k < |ys| ==> ys[k] < |b|
    ensures IsBoard(ClearRowsAsWritten(b, ys, width), width, height)
    ensures CellsInRange(ClearRowsAsWritten(b, ys, width))
    decreases |ys|
  {
    if ys != [] {
      DeleteRowKeepsBoard(b, ys[|ys| - 1], width, height);
      ClearRowsAsWrittenKeepsBoard(DeleteRow(b, ys[|ys| - 1], width), ys[..|ys| - 1], width, height);
    }
  }

  /**
   * The deletion loop with the indices taken in increasing order: the rows at `ys` are
   * deleted from the first to the last, an empty row added at the top after each
   * deletion. The rows below a deleted one keep their indices, so each later index
   * still names the row it named at the start.
   */
  function ClearRows(b: Board, ys: seq<nat>, width: nat): (r: Board)
    requires forall k :: 0 <= k < |ys| ==> ys[k] < |b|
    ensures |r| == |b|
    decreases |ys|
  {
    if ys == [] then b
    else ClearRows(DeleteRow(b, ys[0], width), ys[1..], width)
  }

  /** Clearing rows keeps a board a board of empty cells and shape numbers. */
  lemma {:induction false} ClearRowsKeepsBoard(b: Board, ys: seq<nat>, width: nat, height: nat)
    requires IsBoard(b, width, height) && CellsInRange(b)
    requires forall k :: 0 <= k < |ys| ==> ys[k] < |b|
    ensures IsBoard(ClearRows(b, ys, width), width, height) && CellsInRange(ClearRows(b, ys, width))
    decreases |ys|
  {
    if ys != [] {
      DeleteRowKeepsBoard(b, ys[0], width, height);
      ClearRowsKeepsBoard(DeleteRow(b, ys[0], width), ys[1..], width, height);
    }
  }

  /** The rows of `b` that are not full, top to bottom. */
  function KeptRows(b: Board): (r: Board)
    ensures |r| <= |b|
  {
    if b == [] then [] else (if RowFull(b[0]) then [] else [b[0]]) + KeptRows(b[1..])
  }

  /** `n` empty rows. */
  function EmptyRows(n: nat, width: nat): Board
  {
    seq(n, _ => EmptyRow(width))
  }

  lemma {:induction false} KeptRowsAppend(a: Board, c: Board)
    ensures KeptRows(a + c) == KeptRows(a) + KeptRows(c)
    decreases |a|
  {
    if a != [] {
      assert (a + c)[0] == a[0] && (a + c)[1..] == a[1..] + c;
      KeptRowsAppend(a[1..], c);
    } else {
      assert a + c == c;
    }
  }

  lemma {:induction false} KeptRowsNoneFull(a: Board)
    requires forall z :: 0 <= z < |a| ==> !RowFull(a[z])
    ensures KeptRows(a) == a
    decreases |a|
  {
    if a != [] {
      assert !RowFull(a[0]);
      KeptRowsNoneFull(a[1..]);
      assert a == [a[0]] + a[1..];
    }
  }

  /** No row kept is full. */
  lemma {:induction false} KeptRowsNotFull(b: Board)
    ensures forall z :: 0 <= z < |KeptRows(b)| ==> !RowFull(KeptRows(b)[z])
    decreases |b|
  {
    if b != [] {
      KeptRowsNotFull(b[1..]);
    }
  }

  /** Two increasing sequences with the same elements are equal. */
  lemma {:induction false} IncreasingUnique(s: seq<nat>, t: seq<nat>)
    requires forall k, l :: 0 <= k < l < |s| ==> s[k] < s[l]
    requires forall k, l :: 0 <= k < l < |t| ==> t[k] < t[l]
    requires forall z :: z in s <==> z in t
    ensures s == t
    decreases |s|
  {
    if s != [] && t != [] {
      assert s[0] in s && t[0] in t;
      var i :| 0 <= i < |t| && t[i] == s[0];
      var j :| 0 <= j < |s| && s[j] == t[0];
      assert s[0] <= s[j] && t[0] <= t[i];
      forall z
        ensures z in s[1..] <==> z in t[1..]
      {
        assert z in s[1..] <==> z in s && z != s[0];
        assert z in t[1..] <==> z in t && z != t[0];
      }
      IncreasingUnique(s[1..], t[1..]);
    } else if s != [] {
      HeadIn(s);
      assert false;
    } else if t != [] {
      HeadIn(t);
      assert false;
    }
  }

  /** A value in a sequence sits at one of its indices. */
  lemma IndexOf(s: seq<nat>, z: nat)
    ensures z in s ==> exists k :: 0 <= k < |s| && s[k] == z
  {
  }

  /** The first element of a nonempty sequence is in it. */
  lemma HeadIn(s: seq<nat>)
    ensures s != [] ==> s[0] in s
  {
  }

  /**
   * Deleting the topmost full row (of a board at least one cell wide) leaves the other
   * full rows at their indices; every row above it is kept.
   */
  lemma FirstFullRowDeleted(b: Board, width: nat)
    requires 0 < width && FullRows(b) != []
    ensures FullRows(b)[0] < |b| && RowFull(b[FullRows(b)[0]])
    ensures KeptRows(b[..FullRows(b)[0]]) == b[..FullRows(b)[0]]
    ensures FullRows(DeleteRow(b, FullRows(b)[0], width)) == FullRows(b)[1..]
  {
    var ys := FullRows(b);
    var y := ys[0];
    var r := DeleteRow(b, y, width);
    FullRowsExact(b);
    FullRowsExact(r);
    forall z | 0 <= z < y
      ensures !RowFull(b[z])
    {
      IndexOf(ys, z);
    }
    KeptRowsNoneFull(b[..y]);
    forall z
      ensures z in FullRows(r) <==> z in ys[1..]
    {
      assert z in ys[1..] <==> z in ys && z != y;
      if 0 <= z < |r| {
        DeleteRowAt(b, y, width, z);
        if z == 0 {
          assert r[0][0] == 0;
          assert !RowFull(r[0]);
        } else if z <= y {
          assert !RowFull(b[z - 1]);
        } else {
          assert z in ys <==> RowFull(b[z]);
        }
      }
    }
    forall k, l | 0 <= k < l < |ys[1..]|
      ensures ys[1..][k] < ys[1..][l]
    {
      assert ys[1..][k] == ys[k + 1] && ys[1..][l] == ys[l + 1];
    }
    IncreasingUnique(FullRows(r), ys[1..]);
  }

  /**
   * Clearing the full rows removes exactly them: as many empty rows on top as there were
   * full rows, then the rows that were not full in their order.
   */
  lemma {:induction false} ClearFullRows(b: Board, width: nat)
    requires 0 < width
    ensures ClearRows(b, FullRows(b), width) == EmptyRows(|FullRows(b)|, width) + KeptRows(b)
    decreases |FullRows(b)|
  {
    if FullRows(b) == [] {
      FullRowsExact(b);
      KeptRowsNoneFull(b);
      assert EmptyRows(0, width) == [];
    } else {
      FirstFullRowDeleted(b, width);
      ClearFullRows(DeleteRow(b, FullRows(b)[0], width), width);
      ClearFullRowsStep(b, width);
    }
  }

  /**
   * The step of the clear: when clearing the board left by deleting the topmost full row
   * removes exactly its full rows, clearing the whole board removes exactly its full rows.
   */
  lemma ClearFullRowsStep(b: Board, width: nat)
    requires 0 < width && FullRows(b) != []
    requires var r := DeleteRow(b, FullRows(b)[0], width);
      ClearRows(r, FullRows(r), width) == EmptyRows(|FullRows(r)|, width) + KeptRows(r)
    ensures ClearRows(b, FullRows(b), width) == EmptyRows(|FullRows(b)|, width) + KeptRows(b)
  {
    var ys := FullRows(b);
    var y := ys[0];
    var r := DeleteRow(b, y, width);
    FirstFullRowDeleted(b, width);
    KeptAfterDelete(b, y, width);
    assert ClearRows(b, ys, width) == ClearRows(r, ys[1..], width);
    EmptyRowsGrow(|ys| - 1, width);
  }

  /** One more empty row on top is one more row at the end of the empty rows. */
  lemma EmptyRowsGrow(n: nat, width: nat)
    ensures EmptyRows(n + 1, width) == EmptyRows(n, width) + [EmptyRow(width)]
  {
    assert EmptyRows(n + 1, width)[n] == EmptyRow(width);
  }

  /** Deleting a full row above which every row is kept adds an empty row to the kept rows. */
  lemma KeptAfterDelete(b: Board, y: nat, width: nat)
    requires 0 < width && y < |b| && RowFull(b[y])
    requires KeptRows(b[..y]) == b[..y]
    ensures KeptRows(DeleteRow(b, y, width)) == [EmptyRow(width)] + KeptRows(b)
  {
    KeptAfterDeleteSplit(b, y, width);
    KeptAroundFullRow(b, y);
  }

  lemma KeptAfterDeleteSplit(b: Board, y: nat, width: nat)
    requires 0 < width && y < |b|
    requires KeptRows(b[..y]) == b[..y]
    ensures KeptRows(DeleteRow(b, y, width)) == [EmptyRow(width)] + b[..y] + KeptRows(b[y + 1..])
  {
    var e := EmptyRow(width);
    var above, below := b[..y], b[y + 1..];
    assert !RowFull(e) by { assert e[0] == 0; }
    assert KeptRows([e] + above) == [e] + above by {
      assert ([e] + above)[0] == e && ([e] + above)[1..] == above;
    }
    KeptRowsAppend([e] + above, below);
    assert DeleteRow(b, y, width) == ([e] + above) + below;
  }

  lemma KeptAroundFullRow(b: Board, y: nat)
    requires y < |b| && RowFull(b[y])
    requires KeptRows(b[..y]) == b[..y]
    ensures KeptRows(b) == b[..y] + KeptRows(b[y + 1..])
  {
    var above, below := b[..y], b[y + 1..];
    assert KeptRows(b[y..]) == KeptRows(below) by {
      assert b[y..][0] == b[y] && b[y..][1..] == below;
    }
    assert b == above + b[y..];
    KeptRowsAppend(above, b[y..]);
  }

  /** After the full rows are cleared from a board at least one cell wide, no row is full. */
  lemma NoFullRowAfterClear(b: Board, width: nat)
    requires 0 < width
    ensures FullRows(ClearRows(b, FullRows(b), width)) == []
  {
    var r := ClearRows(b, FullRows(b), width);
    ClearFullRows(b, width);
    KeptRowsNotFull(b);
    FullRowsExact(r);
    var n := |FullRows(b)|;
    forall z | 0 <= z < |r|
      ensures !RowFull(r[z])
    {
      if z < n {
        assert r[z] == EmptyRow(width) && r[z][0] == 0;
      } else {
        assert r[z] == KeptRows(b)[z - n];
      }
    }
    HeadIn(FullRows(r));
  }

  // ---------------------------------------------------------------------------
  // Scoring, level and speed.
  // ---------------------------------------------------------------------------

  /** Points per clear of 1, 2, 3 or 4 rows, before the level multiplier. */
  const LineScores: map<int, int> := map[1 := 100, 2 := 300, 3 := 500, 4 := 800]

  /** The points for clearing `n` rows at once; counts beyond the table score as 800. */
  function LineScore(n: int): int
  {
    if n in LineScores then LineScores[n] else 800
  }

  /** A clear of any number of rows scores between 100 and 800 points before the multiplier. */
  lemma LineScoreRange(n: int)
    ensures 100 <= LineScore(n) <= 800
  {
  }

  /** The points a clear of `n` rows earns at `level`: nothing for no row. */
  function ClearBonus(n: nat, level: int): int
  {
    if n == 0 then 0 else LineScore(n) * level
  }

  /** The level reached after `lines` cleared rows: one more for every ten. */
  function LevelFor(lines: int): int
  {
    lines / 10 + 1
  }

  /** The milliseconds between automatic falls at `level`. */
  function FallSpeedFor(level: int): int
  {
    Max(50, 500 - (level - 1) * 50)
  }

  /** The level never goes down as more rows are cleared. */
  lemma LevelNeverDrops(lines1: int, lines2: int)
    requires 0 <= lines1 <= lines2
    ensures 1 <= LevelFor(lines1) <= LevelFor(lines2)
  {
  }

  /** The fall speed never drops below 50, starts at 500 and never rises as the level goes up. */
  lemma FallSpeedBounds(l1: int, l2: int)
    requires 1 <= l1 <= l2
    ensures 50 <= FallSpeedFor(l2) <= FallSpeedFor(l1) <= 500
    ensures FallSpeedFor(1) == 500
  {
  }

  /** A clear of 1 to 4 rows earns 100, 300, 500 or 800 points per level, more for more rows. */
  lemma ClearBonusGrows(n: nat, level: int)
    requires 1 <= level && 1 <= n < 4
    ensures 100 * level <= ClearBonus(n, level) < ClearBonus(n + 1, level) <= 800 * level
  {
  }

  /** The counters of a game: score, level, cleared-row count and fall speed in milliseconds. */
  datatype Tally = Tally(score: int, level: int, lines: int, speed: int)

  /** Counters that agree: the level and the speed follow the row count, and nothing is negative. */
  predicate TallyOk(t: Tally)
  {
    0 <= t.lines && t.level == LevelFor(t.lines) && t.speed == FallSpeedFor(t.level) && 0 <= t.score
  }

  /**
   * The counters after a clear of `n` rows: the count grows by `n`, the score by the bonus
   * at the old level, and the level (with the speed) only moves when the new count reaches
   * a higher one.
   */
  function Cleared(t: Tally, n: nat): Tally
  {
    var lines := t.lines + n;
    var level := if n > 0 && LevelFor(lines) > t.level then LevelFor(lines) else t.level;
    Tally(t.score + ClearBonus(n, t.level), level, lines, if level > t.level then FallSpeedFor(level) else t.speed)
  }

  /**
   * Clearing rows keeps agreeing counters agreeing; the count grows by the number of rows,
   * the score and the level never go down, and a clear of no rows changes nothing.
   */
  lemma ClearedKeepsTally(t: Tally, n: nat)
    requires TallyOk(t)
    ensures TallyOk(Cleared(t, n))
    ensures Cleared(t, n).lines == t.lines + n
    ensures Cleared(t, n).score >= t.score + 100 * t.level * (if n == 0 then 0 else 1)
    ensures Cleared(t, n).level >= t.level && Cleared(t, n).speed <= t.speed
    ensures n == 0 ==> Cleared(t, n) == t
  {
    LevelNeverDrops(t.lines, t.lines + n);
    LineScoreRange(n);
    FallSpeedBounds(t.level, Cleared(t, n).level);
  }

  /** What the game holds besides its size and pause flag: board, counters, both pieces, game over. */
  datatype Snapshot = Snapshot(board: Board, tally: Tally, current: Piece, next: Piece, over: bool)

  /**
   * The game after its falling piece locks: the piece's shape number is written into its
   * cells, the rows then full are cleared and counted, the next piece starts falling, a
   * fresh `newShape` becomes the next one, and the game is over exactly when the new
   * falling piece does not fit.
   */
  ghost function AfterLock(s: Snapshot, width: nat, height: nat, newShape: Shape): Snapshot
    requires IsBoard(s.board, width, height) && CellsInRange(s.board)
  {
    var stamped := Overlay(s.board, PieceBlocks(s.current), ShapeNumber(s.current.shape));
    OverlayKeepsBoard(s.board, PieceBlocks(s.current), ShapeNumber(s.current.shape), width, height);
    var full := FullRows(stamped);
    var board := ClearRows(stamped, full, width);
    ClearRowsKeepsBoard(stamped, full, width, height);
    Snapshot(board, Cleared(s.tally, |full|), s.next, Spawn(newShape, width), !Fits(board, width, height, s.next))
  }

  /**
   * The game after a hard drop's fall: the falling piece moves down as far as it fits,
   * and the score grows by two points for each row it fell. Nothing else changes.
   */
  ghost function Dropped(s: Snapshot, width: nat, height: nat): (r: Snapshot)
    requires IsBoard(s.board, width, height)
    ensures r.board == s.board && r.next == s.next && r.over == s.over
    ensures r.tally.level == s.tally.level && r.tally.lines == s.tally.lines && r.tally.speed == s.tally.speed
    ensures r.current.shape == s.current.shape && r.current.rotation == s.current.rotation
    ensures r.current.x == s.current.x && r.current.y >= s.current.y
    ensures r.tally.score == s.tally.score + 2 * (r.current.y - s.current.y)
    ensures Fits(s.board, width, height, s.current) ==>
      (forall k :: 0 <= k <= r.current.y - s.current.y ==> Fits(s.board, width, height, Moved(s.current, 0, k, None))) &&
      Fits(r.board, width, height, r.current) && !Fits(r.board, width, height, Moved(r.current, 0, 1, None))
  {
    var d := DropDistance(s.board, width, height, s.current);
    s.(tally := s.tally.(score := s.tally.score + 2 * d), current := Moved(s.current, 0, d, None))
  }

  /** The hard-drop fall, written with its distance. */
  lemma DroppedBy(s: Snapshot, width: nat, height: nat, rows: nat)
    requires IsBoard(s.board, width, height) && rows == DropDistance(s.board, width, height, s.current)
    ensures Dropped(s, width, height) ==
      Snapshot(s.board, s.tally.(score := s.tally.score + 2 * rows), Moved(s.current, 0, rows, None), s.next, s.over)
  {
  }

  /**
   * A lock keeps the board a board of empty cells and shape numbers with no full row
   * left, keeps the counters agreeing, and counts every row the locked piece completed.
   */
  lemma AfterLockKeepsGame(s: Snapshot, width: nat, height: nat, newShape: Shape)
    requires IsBoard(s.board, width, height) && CellsInRange(s.board) && TallyOk(s.tally) && 0 < width
    ensures var r := AfterLock(s, width, height, newShape);
      IsBoard(r.board, width, height) && CellsInRange(r.board) && FullRows(r.board) == [] &&
      TallyOk(r.tally) && r.tally.level >= s.tally.level && r.tally.score >= s.tally.score &&
      r.tally.lines == s.tally.lines + |FullRows(Overlay(s.board, PieceBlocks(s.current), ShapeNumber(s.current.shape)))|
  {
    var stamped := Overlay(s.board, PieceBlocks(s.current), ShapeNumber(s.current.shape));
    OverlayKeepsBoard(s.board, PieceBlocks(s.current), ShapeNumber(s.current.shape), width, height);
    ClearRowsKeepsBoard(stamped, FullRows(stamped), width, height);
    NoFullRowAfterClear(stamped, width);
    ClearedKeepsTally(s.tally, |FullRows(stamped)|);
  }

  // ---------------------------------------------------------------------------
  // The game.
  // ---------------------------------------------------------------------------

  class TetrisGame {
    const width: nat
    const height: nat
    var board: Board
    var score: int
    var level: int
    var linesCleared: int
    var fallSpeed: int
    var currentPiece: Piece
    var nextPiece: Piece
    var gameOver: bool
    var paused: bool

    /**
     * The board has its shape and holds only empty cells and shape numbers; the level
     * and fall speed follow the cleared-line count.
     */
    ghost predicate BoardValid()
      reads this
    {
      IsBoard(board, width, height) && CellsInRange(board) && TallyValid()
    }

    /** The level and fall speed follow the cleared-line count; nothing is negative. */
    ghost predicate TallyValid()
      reads this
    {
      TallyOk(Counters())
    }

    /**
     * Besides the board: the falling piece has a rotation index below its number of
     * pictures and, unless the game is over, fits; the next piece is a fresh spawn.
     */
    ghost predicate Valid()
      reads this
    {
      BoardValid() &&
      0 <= currentPiece.rotation < RotationCount(currentPiece.shape) &&
      nextPiece == Spawn(nextPiece.shape, width) &&
      (!gameOver ==> Fits(board, width, height, currentPiece))
    }

    /** The counters, as one value. */
    ghost function Counters(): Tally
      reads this
    {
      Tally(score, level, linesCleared, fallSpeed)
    }

    /** Everything but the size and the pause flag, as one value. */
    ghost function State(): Snapshot
      reads this
    {
      Snapshot(board, Counters(), currentPiece, nextPiece, gameOver)
    }

    /** A new game: an empty board, zero counters, level 1, the first two pieces spawned. */
    constructor (width: nat, height: nat, first: Shape, second: Shape)
      requires 4 <= width && 5 <= height
      ensures Valid()
      ensures this.width == width && this.height == height && board == EmptyBoard(width, height)
      ensures score == 0 && level == 1 && linesCleared == 0 && fallSpeed == 500
      ensures currentPiece == Spawn(first, width) && nextPiece == Spawn(second, width)
      ensures !gameOver && !paused
    {
      this.width := width;
      this.height := height;
      board := EmptyBoard(width, height);
      score := 0;
      level := 1;
      linesCleared := 0;
      fallSpeed := 500;
      currentPiece := Spawn(first, width);
      nextPiece := Spawn(second, width);
      gameOver := false;
      paused := false;
      SpawnFitsEmpty(first, width, height);
    }

    /** The cells marked in picture `pic` placed with its top-left corner at `(x0, y0)`, row by row. */
    static method ReadPicture(pic: seq<string>, x0: int, y0: int) returns (blocks: seq<(int, int)>)
      ensures blocks == GridCells(pic, x0, y0)
    {
      blocks := [];
      var y := 0;
      while y < |pic|
        invariant 0 <= y <= |pic|
        invariant blocks + GridCells(pic[y..], x0, y0 + y) == GridCells(pic, x0, y0)
      {
        assert pic[y..][1..] == pic[y + 1..];
        var cells := ReadRow(pic[y], x0, y0 + y);
        blocks := blocks + cells;
        y := y + 1;
      }
      assert pic[y..] == [];
    }

    /** The cells marked in one picture row, the row's first column being `x0`, in row `y`. */
    static method ReadRow(row: string, x0: int, y: int) returns (cells: seq<(int, int)>)
      ensures cells == RowCells(row, x0, y)
    {
      cells := [];
      var x := 0;
      while x < |row|
        invariant 0 <= x <= |row|
        invariant cells + RowCells(row[x..], x0 + x, y) == RowCells(row, x0, y)
      {
        assert row[x..][1..] == row[x + 1..];
        if row[x] == '#' {
          cells := cells + [(x0 + x, y)];
        }
        x := x + 1;
      }
      assert row[x..] == [];
    }

    /**
     * The cells covered by `piece`, read off the picture of its rotation: exactly the
     * reference offsets moved to its corner.
     */
    static method GetPieceBlocks(piece: Piece) returns (blocks: seq<(int, int)>)
      ensures blocks == PieceBlocks(piece)
      ensures |blocks| == 4
    {
      var template := Template(piece.shape, piece.rotation);
      blocks := ReadPicture(template, piece.x, piece.y);
      PictureAt(piece.shape, piece.rotation, piece.x, piece.y);
    }

    /**
     * The validity test for `piece` moved by `(dx, dy)` and, if given, turned to
     * `rotation`: false exactly when some block is left of the board, right of it, below
     * the floor, or on a filled cell inside the board.
     */
    method IsValidPosition(piece: Piece, dx: int, dy: int, rotation: Option<int>) returns (ok: bool)
      requires IsBoard(board, width, height)
      ensures ok == Fits(board, width, height, Moved(piece, dx, dy, rotation))
    {
      var testPiece := Moved(piece, dx, dy, rotation);
      var blocks := GetPieceBlocks(testPiece);
      ok := BlocksFree(blocks);
    }

    /**
     * The check loop of `is_valid_position`: false at the first block left of the board,
     * right of it, below the floor, or on a filled cell inside the board.
     */
    method BlocksFree(blocks: seq<(int, int)>) returns (ok: bool)
      requires IsBoard(board, width, height)
      ensures ok == forall k :: 0 <= k < |blocks| ==> CellFree(board, width, height, blocks[k])
    {
      for i := 0 to |blocks|
        invariant forall k :: 0 <= k < i ==> CellFree(board, width, height, blocks[k])
      {
        var x, y := blocks[i].0, blocks[i].1;
        if x < 0 || x >= width || y >= height {
          return false;
        }
        if y >= 0 && board[y][x] != 0 {
          return false;
        }
      }
      return true;
    }

    /**
     * Clear the rows that are full on entry, deleting them in increasing index order and
     * adding an empty row at the top after each, so that every one of them goes; then
     * count them, score them at the current level and raise the level (and the speed)
     * when the count reaches a higher level.
     */
    method ClearLines()
      requires BoardValid()
      modifies this
      ensures BoardValid()
      ensures board == ClearRows(old(board), FullRows(old(board)), width)
      ensures Counters() == Cleared(old(Counters()), |FullRows(old(board))|)
      ensures level >= old(level)
      ensures currentPiece == old(currentPiece) && nextPiece == old(nextPiece)
      ensures gameOver == old(gameOver) && paused == old(paused)
    {
      var linesToClear := FindFullRows();
      RemoveRows(linesToClear);
      if linesToClear != [] {
        ScoreLines(|linesToClear|);
      }
    }

    /** The scan of `clear_lines`: the indices of the full rows, top to bottom. */
    method FindFullRows() returns (linesToClear: seq<nat>)
      requires IsBoard(board, width, height)
      ensures linesToClear == FullRows(board)
      ensures forall k :: 0 <= k < |linesToClear| ==> linesToClear[k] < height && RowFull(board[linesToClear[k]])
      ensures forall y :: 0 <= y < height && RowFull(board[y]) ==> y in linesToClear
    {
      var b := board;
      linesToClear := [];
      for y := 0 to height
        invariant linesToClear == FullRowsAbove(b, y)
      {
        if RowFull(b[y]) {
          linesToClear := linesToClear + [y];
        }
      }
      FullRowsAboveAll(b);
      FullRowsExact(b);
    }

    /**
     * The deletion loop of `clear_lines`, with the indices taken in increasing order: the
     * rows at `ys` are deleted one by one, each time inserting an empty row on top.
     */
    method RemoveRows(ys: seq<nat>)
      requires IsBoard(board, width, height) && CellsInRange(board)
      requires forall k :: 0 <= k < |ys| ==> ys[k] < height
      modifies this
      ensures board == ClearRows(old(board), ys, width)
      ensures IsBoard(board, width, height) && CellsInRange(board)
      ensures OnlyBoardChanged()
    {
      for j := 0 to |ys|
        invariant IsBoard(board, width, height) && CellsInRange(board) && OnlyBoardChanged()
        invariant ClearRows(board, ys[j..], width) == ClearRows(old(board), ys, width)
      {
        var y := ys[j];
        ghost var before := board;
        assert ys[j..][0] == y && ys[j..][1..] == ys[j + 1..];
        DeleteRowKeepsBoard(before, y, width, height);
        board := board[..y] + board[y + 1..];
        board := [EmptyRow(width)] + board;
        assert board == DeleteRow(before, y, width);
      }
      assert ys[|ys|..] == [];
    }

    /**
     * The scoring step of a clear of `n > 0` rows: count them, add their points at the
     * current level, and raise the level (and the speed) when the count reaches a higher
     * one.
     */
    method ScoreLines(n: nat)
      requires TallyValid() && 0 < n
      modifies this
      ensures TallyValid()
      ensures Counters() == Cleared(old(Counters()), n)
      ensures level >= old(level)
      ensures board == old(board) && currentPiece == old(currentPiece) && nextPiece == old(nextPiece)
      ensures gameOver == old(gameOver) && paused == old(paused)
    {
      linesCleared := linesCleared + n;
      LineScoreRange(n);
      score := score + LineScore(n) * level;
      var newLevel := linesCleared / 10 + 1;
      LevelNeverDrops(old(linesCleared), linesCleared);
      if newLevel > level {
        level := newLevel;
        fallSpeed := Max(50, 500 - (level - 1) * 50);
      }
    }

    /**
     * Lock the falling piece: write its shape number into its cells on the board, clear
     * full rows, let the next piece fall and spawn `newShape` as the next one; the game
     * is over when the new falling piece does not fit.
     */
    method PlacePiece(newShape: Shape)
      requires Valid() && !gameOver
      modifies this
      ensures Valid()
      ensures State() == AfterLock(old(State()), width, height, newShape)
      ensures paused == old(paused)
    {
      var blocks := GetPieceBlocks(currentPiece);
      var shapeNum := ShapeNumber(currentPiece.shape);
      StampBlocks(blocks, shapeNum);
      ClearLines();
      SpawnNext(newShape);
    }

    /**
     * The last step of `place_piece`: the next piece starts falling, `newShape` is spawned
     * as the next one, and the game is over exactly when the new falling piece does not fit.
     */
    method SpawnNext(newShape: Shape)
      requires BoardValid() && nextPiece == Spawn(nextPiece.shape, width) && !gameOver
      modifies this
      ensures Valid()
      ensures currentPiece == old(nextPiece) && nextPiece == Spawn(newShape, width)
      ensures gameOver == !Fits(board, width, height, currentPiece)
      ensures board == old(board) && score == old(score) && level == old(level)
      ensures linesCleared == old(linesCleared) && fallSpeed == old(fallSpeed) && paused == old(paused)
    {
      currentPiece := nextPiece;
      nextPiece := Spawn(newShape, width);
      var ok := IsValidPosition(currentPiece, 0, 0, None);
      assert Moved(currentPiece, 0, 0, None) == currentPiece;
      if !ok {
        gameOver := true;
      }
    }

    /**
     * The stamping loop of `place_piece`: the shape number `shapeNum` is written into each
     * of the cells `blocks` that lies on the board (cells above the top are dropped).
     */
    method StampBlocks(blocks: seq<(int, int)>, shapeNum: int)
      requires IsBoard(board, width, height) && CellsInRange(board) && 1 <= shapeNum <= 7
      requires forall k :: 0 <= k < |blocks| ==> CellFree(board, width, height, blocks[k])
      modifies this
      ensures board == Overlay(old(board), blocks, shapeNum)
      ensures IsBoard(board, width, height) && CellsInRange(board)
      ensures OnlyBoardChanged()
    {
      var b := board;
      ghost var b0 := b;
      for i := 0 to |blocks|
        invariant IsBoard(b, width, height)
        invariant Overlay(b, blocks[i..], shapeNum) == Overlay(b0, blocks, shapeNum)
      {
        assert blocks[i..][1..] == blocks[i + 1..];
        var x, y := blocks[i].0, blocks[i].1;
        assert CellFree(b0, width, height, blocks[i]);
        if y >= 0 {
          b := b[y := b[y][x := shapeNum]];
        }
      }
      assert blocks[|blocks|..] == [];
      OverlayKeepsBoard(b0, blocks, shapeNum, width, height);
      board := b;
    }

    /** Nothing but the board differs from the state on entry. */
    twostate predicate OnlyBoardChanged()
      reads this
    {
      score == old(score) && level == old(level) && linesCleared == old(linesCleared) &&
      fallSpeed == old(fallSpeed) && currentPiece == old(currentPiece) && nextPiece == old(nextPiece) &&
      gameOver == old(gameOver) && paused == old(paused)
    }

    /** Nothing but the falling piece differs from the state on entry. */
    twostate predicate OnlyPieceMoved()
      reads this
    {
      board == old(board) && score == old(score) && level == old(level) &&
      linesCleared == old(linesCleared) && fallSpeed == old(fallSpeed) &&
      nextPiece == old(nextPiece) && gameOver == old(gameOver) && paused == old(paused)
    }

    /**
     * Move the falling piece by `(dx, dy)`. Refused while the game is over or paused.
     * A blocked downward move locks the piece instead and still counts as done; any other
     * blocked move is refused.
     */
    method MovePiece(dx: int, dy: int, newShape: Shape) returns (moved: bool)
      requires Valid()
      modifies this
      ensures Valid()
      ensures old(gameOver) || old(paused) ==> !moved && unchanged(this)
      ensures !old(gameOver) && !old(paused) && old(Fits(board, width, height, Moved(currentPiece, dx, dy, None))) ==>
        moved && currentPiece == old(Moved(currentPiece, dx, dy, None)) && OnlyPieceMoved()
      ensures !old(gameOver) && !old(paused) && !old(Fits(board, width, height, Moved(currentPiece, dx, dy, None))) ==>
        if dy > 0 then
          moved && paused == old(paused) &&
          State() == AfterLock(old(State()), width, height, newShape)
        else
          !moved && unchanged(this)
      ensures moved && !gameOver ==> Fits(board, width, height, currentPiece)
    {
      if gameOver || paused {
        return false;
      }
      var ok := IsValidPosition(currentPiece, dx, dy, None);
      if ok {
        currentPiece := currentPiece.(x := currentPiece.x + dx, y := currentPiece.y + dy);
        return true;
      } else if dy > 0 {
        PlacePiece(newShape);
        return true;
      }
      return false;
    }

    /**
     * Turn the falling piece to its next picture (wrapping around). Refused while the
     * game is over or paused, or when the turned piece would not fit.
     */
    method RotatePiece() returns (rotated: bool)
      requires Valid()
      modifies this
      ensures Valid()
      ensures rotated <==> (!old(gameOver) && !old(paused) &&
                            old(Fits(board, width, height,
                                     Moved(currentPiece, 0, 0, Some((currentPiece.rotation + 1) % RotationCount(currentPiece.shape))))))
      ensures rotated ==>
        currentPiece == old(currentPiece).(rotation := (old(currentPiece.rotation) + 1) % RotationCount(currentPiece.shape)) &&
        OnlyPieceMoved() && Fits(board, width, height, currentPiece)
      ensures !rotated ==> unchanged(this)
      ensures 0 <= currentPiece.rotation < RotationCount(currentPiece.shape)
    {
      if gameOver || paused {
        return false;
      }
      var newRotation := (currentPiece.rotation + 1) % RotationCount(currentPiece.shape);
      var ok := IsValidPosition(currentPiece, 0, 0, Some(newRotation));
      if ok {
        currentPiece := currentPiece.(rotation := newRotation);
        return true;
      }
      return false;
    }

    /**
     * Drop the falling piece as far as it fits, two points for each row, then lock it.
     * Refused while the game is over or paused.
     */
    method HardDrop(newShape: Shape) returns (dropped: bool)
      requires Valid()
      modifies this
      ensures Valid()
      ensures dropped <==> !old(gameOver) && !old(paused)
      ensures !dropped ==> unchanged(this)
      ensures dropped ==>
        paused == old(paused) && State() == AfterLock(Dropped(old(State()), width, height), width, height, newShape)
    {
      if gameOver || paused {
        return false;
      }
      var rows := Fall();
      PlacePiece(newShape);
      return true;
    }

    /**
     * The fall of `hard_drop`: the piece moves down as far as it fits, two points for each
     * row. Returns the number of rows it fell.
     */
    method Fall() returns (rows: nat)
      requires Valid() && !gameOver
      modifies this
      ensures Valid() && !gameOver && paused == old(paused)
      ensures State() == Dropped(old(State()), width, height)
      ensures rows == old(DropDistance(board, width, height, currentPiece))
    {
      ghost var before := State();
      var landed;
      landed, rows := FallTarget();
      DroppedBy(before, width, height, rows);
      currentPiece := landed;
      score := score + 2 * rows;
    }

    /**
     * The fall loop of `hard_drop`, run on a copy of the falling piece: while the position
     * one row lower fits, the piece moves down a row. Returns where it lands and how many
     * rows it fell.
     */
    method FallTarget() returns (landed: Piece, rows: nat)
      requires IsBoard(board, width, height)
      ensures rows == DropDistance(board, width, height, currentPiece)
      ensures landed == Moved(currentPiece, 0, rows, None)
      ensures Fits(board, width, height, currentPiece) ==>
        Fits(board, width, height, landed) && !Fits(board, width, height, Moved(landed, 0, 1, None))
    {
      landed, rows := currentPiece, 0;
      var ok := IsValidPosition(landed, 0, 1, None);
      while ok
        invariant landed == Moved(currentPiece, 0, rows, None)
        invariant ok == Fits(board, width, height, Moved(landed, 0, 1, None))
        invariant rows + DropDistance(board, width, height, landed) == DropDistance(board, width, height, currentPiece)
        decreases height - landed.y
      {
        DropStep(board, width, height, landed);
        landed := Moved(landed, 0, 1, None);
        rows := rows + 1;
        ok := IsValidPosition(landed, 0, 1, None);
      }
    }

    /**
     * The integers the board is drawn from: the board, with the falling piece's shape
     * number over its cells on the board unless the game is over.
     */
    method DisplayCells() returns (cells: Board)
      requires Valid()
      ensures IsBoard(cells, width, height)
      ensures forall y, x :: 0 <= y < height && 0 <= x < width ==>
        cells[y][x] == if !gameOver && (x, y) in PieceBlocks(currentPiece) then ShapeNumber(currentPiece.shape) else board[y][x]
      ensures gameOver ==> cells == board
      ensures !gameOver ==> cells == Overlay(board, PieceBlocks(currentPiece), ShapeNumber(currentPiece.shape))
    {
      cells := board;
      if !gameOver {
        var blocks := GetPieceBlocks(currentPiece);
        var shapeNum := ShapeNumber(currentPiece.shape);
        for i := 0 to |blocks|
          invariant IsBoard(cells, width, height)
          invariant Overlay(cells, blocks[i..], shapeNum) == Overlay(board, blocks, shapeNum)
        {
          assert blocks[i..][1..] == blocks[i + 1..];
          var x, y := blocks[i].0, blocks[i].1;
          if 0 <= x < width && 0 <= y < height {
            cells := cells[y := cells[y][x := shapeNum]];
          }
        }
        assert blocks[|blocks|..] == [];
        forall y, x | 0 <= y < height && 0 <= x < width
          ensures cells[y][x] == if (x, y) in blocks then shapeNum else board[y][x]
        {
          OverlayAt(board, blocks, shapeNum, x, y);
        }
      }
    }
  }
}
