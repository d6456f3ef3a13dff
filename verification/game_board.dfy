/**
  The board rasteriser `getGameBoard` of `index.js`.

  The board is a QUADRANTS x QUADRANTS grid of booleans. Cell [i][j] is set
  when column i and row j fall inside paddle 1, paddle 2 or the ball square.
  The inputs are the integer cell coordinates the source obtains by flooring
  canvas coordinates; they may lie anywhere, inside the board or not.
 */
module GameBoard {
  import opened Wrappers

  const QUADRANTS: nat := 200

  /** A paddle in cell units: top-left corner and extent. */
  datatype Paddle = Paddle(x: int, y: int, w: int, h: int)

  /** The ball in cell units: centre and half-width. */
  datatype Ball = Ball(x: int, y: int, size: int)

  /** A rectangle of cells, both bounds inclusive on each axis. */
  datatype Region = Region(xLo: int, xHi: int, yLo: int, yHi: int)

  predicate Contains(r: Region, i: int, j: int)
  {
    r.xLo <= i <= r.xHi && r.yLo <= j <= r.yHi
  }

  /** The cells a paddle covers: columns x..x+w and rows y..y+h. */
  function PaddleRegion(p: Paddle): (r: Region)
    ensures forall i, j :: Contains(r, i, j) <==> p.x <= i <= p.x + p.w && p.y <= j <= p.y + p.h
  {
    Region(p.x, p.x + p.w, p.y, p.y + p.h)
  }

  /** The cells the ball covers: a square of half-width `size` around its centre. */
  function BallRegion(b: Ball): (r: Region)
    ensures forall i, j :: Contains(r, i, j) <==>
      b.x - b.size <= i <= b.x + b.size && b.y - b.size <= j <= b.y + b.size
  {
    Region(b.x - b.size, b.x + b.size, b.y - b.size, b.y + b.size)
  }

  /** The three regions in the order the source tests them. */
  function Regions(p1: Paddle, p2: Paddle, ball: Ball): seq<Region>
  {
    [PaddleRegion(p1), PaddleRegion(p2), BallRegion(ball)]
  }

  /** Column i, row j lies in some object. */
  predicate Occupied(p1: Paddle, p2: Paddle, ball: Ball, i: int, j: int)
  {
    Contains(PaddleRegion(p1), i, j) || Contains(PaddleRegion(p2), i, j) || Contains(BallRegion(ball), i, j)
  }

  predicate IsBoard(board: seq<seq<bool>>)
  {
    |board| == QUADRANTS && forall i :: 0 <= i < |board| ==> |board[i]| == QUADRANTS
  }

  /** `getGameBoard`: the nested loop with its if / else-if / else-if body. */
  method GetGameBoard(p1: Paddle, p2: Paddle, ball: Ball) returns (board: seq<seq<bool>>)
    ensures IsBoard(board)
    ensures forall i, j :: 0 <= i < QUADRANTS && 0 <= j < QUADRANTS ==>
      (board[i][j] <==> Occupied(p1, p2, ball, i, j))
    ensures forall i, j :: 0 <= i < QUADRANTS && 0 <= j < QUADRANTS ==>
      (board[i][j] <==> FirstMatch(Regions(p1, p2, ball), i, j).Some?)
  {
    board := seq(QUADRANTS, _ => seq(QUADRANTS, _ => false));
    var i := 0;
    while i < QUADRANTS
      invariant 0 <= i <= QUADRANTS
      invariant IsBoard(board)
      invariant forall k, l :: 0 <= k < i && 0 <= l < QUADRANTS ==>
        (board[k][l] <==> Occupied(p1, p2, ball, k, l))
      invariant forall k, l :: i <= k < QUADRANTS && 0 <= l < QUADRANTS ==> !board[k][l]
    {
      var j := 0;
      while j < QUADRANTS
        invariant 0 <= j <= QUADRANTS
        invariant IsBoard(board)
        invariant forall k, l :: 0 <= k < i && 0 <= l < QUADRANTS ==>
          (board[k][l] <==> Occupied(p1, p2, ball, k, l))
        invariant forall l :: 0 <= l < j ==> (board[i][l] <==> Occupied(p1, p2, ball, i, l))
        invariant forall l :: j <= l < QUADRANTS ==> !board[i][l]
        invariant forall k, l :: i < k < QUADRANTS && 0 <= l < QUADRANTS ==> !board[k][l]
      {
        if Contains(PaddleRegion(p1), i, j) {
          board := board[i := board[i][j := true]];
        } else if Contains(PaddleRegion(p2), i, j) {
          board := board[i := board[i][j := true]];
        } else if Contains(BallRegion(ball), i, j) {
          board := board[i := board[i][j := true]];
        }
        j := j + 1;
      }
      i := i + 1;
    }
    forall i, j | 0 <= i < QUADRANTS && 0 <= j < QUADRANTS
      ensures board[i][j] <==> FirstMatch(Regions(p1, p2, ball), i, j).Some?
    {
      CascadeIsOccupied(p1, p2, ball, i, j);
    }
  }

  /** The branch of an if / else-if cascade over `rs` that fires for (i, j), if any. */
  function FirstMatch(rs: seq<Region>, i: int, j: int): (k: Option<nat>)
    ensures k.Some? ==> k.value < |rs| && Contains(rs[k.value], i, j)
    ensures k.Some? ==> forall m :: 0 <= m < k.value ==> !Contains(rs[m], i, j)
  {
    if rs == [] then None
    else if Contains(rs[0], i, j) then Some(0)
    else match FirstMatch(rs[1..], i, j)
      case None => None
      case Some(k) => Some(k + 1)
  }

  /** A cascade whose every branch sets the cell sets it exactly on the union. */
  lemma {:induction false} FirstMatchIsUnion(rs: seq<Region>, i: int, j: int)
    ensures FirstMatch(rs, i, j).Some? <==> exists r :: r in rs && Contains(r, i, j)
  {
    if rs != [] && !Contains(rs[0], i, j) {
      FirstMatchIsUnion(rs[1..], i, j);
      forall r | r in rs && Contains(r, i, j)
        ensures r in rs[1..]
      {
      }
    }
  }

  /** Reordering the tests of the cascade never changes which cells are set. */
  lemma CascadeOrderIrrelevant(rs: seq<Region>, rs': seq<Region>, i: int, j: int)
    requires multiset(rs) == multiset(rs')
    ensures FirstMatch(rs, i, j).Some? == FirstMatch(rs', i, j).Some?
  {
    FirstMatchIsUnion(rs, i, j);
    FirstMatchIsUnion(rs', i, j);
    forall r
      ensures r in rs <==> r in rs'
    {
      assert r in rs <==> r in multiset(rs);
      assert r in rs' <==> r in multiset(rs');
    }
  }

  /** The cells the source's cascade sets are exactly the occupied ones. */
  lemma CascadeIsOccupied(p1: Paddle, p2: Paddle, ball: Ball, i: int, j: int)
    ensures FirstMatch(Regions(p1, p2, ball), i, j).Some? <==> Occupied(p1, p2, ball, i, j)
  {
    var rs := Regions(p1, p2, ball);
    FirstMatchIsUnion(rs, i, j);
    if Occupied(p1, p2, ball, i, j) {
      if Contains(rs[0], i, j) {
        assert rs[0] in rs;
      } else if Contains(rs[1], i, j) {
        assert rs[1] in rs;
      } else {
        assert rs[2] in rs;
      }
    }
  }

  /** The integers a..b-1. */
  function Range(a: int, b: int): (s: set<int>)
    ensures forall i :: i in s <==> a <= i < b
    decreases b - a
  {
    if b <= a then {} else Range(a, b - 1) + {b - 1}
  }

  lemma {:induction false} RangeSize(a: int, b: int)
    requires a <= b
    ensures |Range(a, b)| == b - a
    decreases b - a
  {
    if a < b {
      RangeSize(a, b - 1);
      assert b - 1 !in Range(a, b - 1);
    }
  }

  /** The board columns (or rows) lying in lo..hi, both ends inclusive. */
  function Span(lo: int, hi: int): (s: set<int>)
    ensures forall i :: i in s <==> 0 <= i < QUADRANTS && lo <= i <= hi
  {
    var a := if lo < 0 then 0 else lo;
    var b := if hi + 1 > QUADRANTS then QUADRANTS else hi + 1;
    Range(a, b)
  }

  /** An inclusive index range lying on the board has hi - lo + 1 indices. */
  lemma SpanSize(lo: int, hi: int)
    requires 0 <= lo && hi < QUADRANTS && lo <= hi + 1
    ensures |Span(lo, hi)| == hi - lo + 1
  {
    RangeSize(lo, hi + 1);
  }

  /** An extent of w inside the board covers w + 1 columns and h + 1 rows. */
  lemma PaddleCoverage(p: Paddle)
    requires 0 <= p.x && 0 <= p.w && p.x + p.w < QUADRANTS
    requires 0 <= p.y && 0 <= p.h && p.y + p.h < QUADRANTS
    ensures |Span(PaddleRegion(p).xLo, PaddleRegion(p).xHi)| == p.w + 1
    ensures |Span(PaddleRegion(p).yLo, PaddleRegion(p).yHi)| == p.h + 1
  {
    SpanSize(p.x, p.x + p.w);
    SpanSize(p.y, p.y + p.h);
  }

  /** The first board index is the column (x) and the second the row (y): for a
      paddle taller than it is wide, cell [x][y + h] is occupied whatever the other
      objects are, while the transposed cell [x + h][y] lies outside the paddle. */
  lemma AxisOrder(p: Paddle, other: Paddle, ball: Ball)
    requires 0 <= p.w < p.h
    ensures Occupied(p, other, ball, p.x, p.y + p.h)
    ensures !Contains(PaddleRegion(p), p.x + p.h, p.y)
  {
  }
}
