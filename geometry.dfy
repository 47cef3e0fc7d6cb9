/** Grid cells, the 30x30 board and the snake's shape predicates (Snake/Form.cs). */
module Geometry {

  /** A grid cell or a direction vector, like System.Drawing.Point. */
  datatype Point = Point(x: int, y: int)

  /** Point.Empty: the origin cell and the "no direction" vector. */
  const Zero := Point(0, 0)

  /** GameSize: the board is Width x Height cells. */
  const Width := 30
  const Height := 30

  function PointSum(p: Point, q: Point): Point
  {
    Point(p.x + q.x, p.y + q.y)
  }

  /** The vector that leads from `q` to `p`. */
  function Diff(p: Point, q: Point): (d: Point)
    ensures PointSum(q, d) == p
  {
    Point(p.x - q.x, p.y - q.y)
  }

  /** IsInGame: the cell lies on the board. */
  predicate IsInGame(p: Point)
  {
    0 <= p.x < Width && 0 <= p.y < Height
  }

  /** IsOnSnake: some segment of `snake` is the cell `p`. */
  predicate IsOnSnake(snake: seq<Point>, p: Point)
  {
    p in snake
  }

  /** One of the four vectors the W, A, S and D keys produce. */
  predicate IsUnit(d: Point)
  {
    d == Point(0, -1) || d == Point(-1, 0) || d == Point(0, 1) || d == Point(1, 0)
  }

  /** A value the direction can hold: standing still or one unit step. */
  predicate IsDirection(d: Point)
  {
    d == Zero || IsUnit(d)
  }

  predicate Adjacent(p: Point, q: Point)
  {
    IsUnit(Diff(p, q))
  }

  predicate AllInGame(cells: seq<Point>)
  {
    forall i :: 0 <= i < |cells| ==> IsInGame(cells[i])
  }

  /** No cell occurs twice. */
  predicate Distinct(cells: seq<Point>)
  {
    forall i, j :: 0 <= i < j < |cells| ==> cells[i] != cells[j]
  }

  /** Each segment is one unit step away from the one before it. */
  predicate Connected(cells: seq<Point>)
  {
    forall i :: 0 < i < |cells| ==> Adjacent(cells[i - 1], cells[i])
  }

  /** Some draw of the random source is a cell that is free of the snake. */
  predicate HasFreeDraw(snake: seq<Point>, draws: seq<Point>)
  {
    exists i :: 0 <= i < |draws| && !IsOnSnake(snake, draws[i])
  }

  /**
   * The index of the draw that PutFood's rejection loop settles on: the
   * first draw that is not on the snake.
   */
  function FirstFree(snake: seq<Point>, draws: seq<Point>): (k: nat)
    requires HasFreeDraw(snake, draws)
    ensures k < |draws| && !IsOnSnake(snake, draws[k])
    ensures forall j :: 0 <= j < k ==> IsOnSnake(snake, draws[j])
    decreases |draws|
  {
    if !IsOnSnake(snake, draws[0]) then 0
    else
      assert HasFreeDraw(snake, draws[1..]) by {
        var i :| 0 <= i < |draws| && !IsOnSnake(snake, draws[i]);
        assert i > 0 && draws[1..][i - 1] == draws[i];
      }
      1 + FirstFree(snake, draws[1..])
  }

  /** Putting a fresh cell in front keeps the cells pairwise different. */
  lemma PrependDistinct(h: Point, cells: seq<Point>)
    requires Distinct(cells) && h !in cells
    ensures Distinct([h] + cells)
  {
  }

  /** Putting a neighbour of the first cell in front keeps the path connected. */
  lemma PrependConnected(h: Point, cells: seq<Point>)
    requires Connected(cells) && cells != [] && Adjacent(h, cells[0])
    ensures Connected([h] + cells)
  {
  }

  /** Dropping the last cell keeps all three shape properties. */
  lemma DropLastKeepsShape(cells: seq<Point>)
    requires cells != []
    ensures AllInGame(cells) ==> AllInGame(cells[..|cells| - 1])
    ensures Distinct(cells) ==> Distinct(cells[..|cells| - 1])
    ensures Connected(cells) ==> Connected(cells[..|cells| - 1])
  {
  }

  /** The cells of the board. */
  function Board(): set<Point>
  {
    set x, y | 0 <= x < Width && 0 <= y < Height :: Point(x, y)
  }

  /** The first `n` cells of row `y`. */
  function RowPrefix(y: int, n: nat): set<Point>
  {
    set x | 0 <= x < n :: Point(x, y)
  }

  /** The first `m` rows of the board. */
  function TopRows(m: nat): set<Point>
  {
    set x, y | 0 <= x < Width && 0 <= y < m :: Point(x, y)
  }

  lemma {:induction false} RowPrefixSize(y: int, n: nat)
    ensures |RowPrefix(y, n)| == n
  {
    if n > 0 {
      RowPrefixSize(y, n - 1);
      assert RowPrefix(y, n) == RowPrefix(y, n - 1) + {Point(n - 1, y)};
    }
  }

  lemma {:induction false} TopRowsSize(m: nat)
    ensures |TopRows(m)| == Width * m
  {
    if m > 0 {
      TopRowsSize(m - 1);
      RowPrefixSize(m - 1, Width);
      assert TopRows(m) == TopRows(m - 1) + RowPrefix(m - 1, Width);
      assert TopRows(m - 1) * RowPrefix(m - 1, Width) == {};
    }
  }

  /** The board has Width * Height cells. */
  lemma BoardSize()
    ensures |Board()| == Width * Height
  {
    TopRowsSize(Height);
    assert Board() == TopRows(Height);
  }

  /** The set of cells a sequence visits. */
  function CellSet(cells: seq<Point>): set<Point>
  {
    set i | 0 <= i < |cells| :: cells[i]
  }

  /** A sequence without repeats visits as many cells as it is long. */
  lemma {:induction false} DistinctCellSetSize(cells: seq<Point>)
    requires Distinct(cells)
    ensures |CellSet(cells)| == |cells|
  {
    if cells != [] {
      var rest := cells[1..];
      assert Distinct(rest) by {
        forall i, j | 0 <= i < j < |rest| ensures rest[i] != rest[j] {
          assert rest[i] == cells[i + 1] && rest[j] == cells[j + 1];
        }
      }
      DistinctCellSetSize(rest);
      assert CellSet(cells) == {cells[0]} + CellSet(rest) by {
        forall c | c in CellSet(cells) ensures c in {cells[0]} + CellSet(rest) {
          var i :| 0 <= i < |cells| && cells[i] == c;
          if i > 0 { assert rest[i - 1] == c; }
        }
        forall c | c in CellSet(rest) ensures c in CellSet(cells) {
          var i :| 0 <= i < |rest| && rest[i] == c;
          assert cells[i + 1] == c;
        }
      }
      assert cells[0] !in CellSet(rest) by {
        forall i | 0 <= i < |rest| ensures rest[i] != cells[0] {
          assert rest[i] == cells[i + 1];
        }
      }
    }
  }

  lemma SubsetSize(a: set<Point>, b: set<Point>)
    requires a <= b
    ensures |a| <= |b|
  {
    assert b == a + (b - a);
  }

  /**
   * A snake on the board without repeated cells has at most Width * Height
   * segments, and one of exactly that length covers every cell, so no cell
   * of the board is free of it.
   */
  lemma SnakeFillsAtMostBoard(snake: seq<Point>, p: Point)
    requires AllInGame(snake) && Distinct(snake)
    ensures |snake| <= Width * Height
    ensures |snake| == Width * Height && IsInGame(p) ==> IsOnSnake(snake, p)
  {
    DistinctCellSetSize(snake);
    BoardSize();
    assert CellSet(snake) <= Board() by {
      forall c | c in CellSet(snake) ensures c in Board() {
        var i :| 0 <= i < |snake| && snake[i] == c;
        assert IsInGame(c);
        assert c == Point(c.x, c.y);
      }
    }
    SubsetSize(CellSet(snake), Board());
    if |snake| == Width * Height && IsInGame(p) && !IsOnSnake(snake, p) {
      assert p == Point(p.x, p.y);
      assert p in Board() && p !in CellSet(snake);
      SubsetSize(CellSet(snake) + {p}, Board());
      assert false;
    }
  }
}
