/** The rules of Reversi over a board that maps coordinates to pieces: legality of a
    play, applying a play with its captures, and enumerating the legal plays. */
module Logic {
  import opened Pieces

  /** The eight compass directions, as two parallel tables. */
  const DX: seq<int> := [-1,  0,  1, -1, 1, -1, 0, 1]
  const DY: seq<int> := [-1, -1, -1,  0, 0,  1, 1, 1]

  /** `inBounds`: the walks build a `Coord` only from a pair that passes this test,
      so every coordinate they build has non-negative components. */
  function InBounds(n: nat, x: int, y: int): (b: bool)
    ensures b ==> x >= 0 && y >= 0
    ensures b ==> x < n && y < n
  {
    0 <= x < n && 0 <= y < n
  }

  /** What a walk finds at a position: off the board, an empty cell, or a piece. */
  datatype Square = Off | Empty | Stone(piece: Piece)

  function Look(n: nat, board: map<Coord, Piece>, x: int, y: int): Square
  {
    if !InBounds(n, x, y) then Off
    else if Coord(x, y) in board then Stone(board[Coord(x, y)])
    else Empty
  }

  /** The position `k` steps from `c` in direction `d`. */
  function RayX(c: Coord, d: nat, k: int): int
    requires d < |DX|
  {
    c.x + k * DX[d]
  }

  function RayY(c: Coord, d: nat, k: int): int
    requires d < |DY|
  {
    c.y + k * DY[d]
  }

  function SquareAt(n: nat, board: map<Coord, Piece>, c: Coord, d: nat, k: int): Square
    requires d < |DX|
  {
    Look(n, board, RayX(c, d, k), RayY(c, d, k))
  }

  predicate IsOpponent(s: Square, color: Piece)
  {
    s.Stone? && s.piece != color
  }

  /** Walking from `c` in direction `d`, steps 1 .. k-1 hold opponent pieces and step
      `k` holds one of `color`'s own: a play of `color` at `c` captures that run.
      A walk takes at most `n` steps. */
  ghost predicate Flanks(n: nat, board: map<Coord, Piece>, color: Piece, c: Coord, d: nat, k: nat)
  {
    && d < |DX|
    && 2 <= k <= n
    && (forall j :: 1 <= j < k ==> IsOpponent(SquareAt(n, board, c, d, j), color))
    && SquareAt(n, board, c, d, k) == Stone(color)
  }

  /** A legal play: an empty on-board cell from which some direction flanks a run. */
  ghost predicate Legal(n: nat, board: map<Coord, Piece>, color: Piece, c: Coord)
  {
    && InBounds(n, c.x, c.y)
    && c !in board
    && exists d: nat, k: nat :: Flanks(n, board, color, c, d, k)
  }

  predicate OnRay(c: Coord, d: nat, j: int, t: Coord)
    requires d < |DX|
  {
    t.x == RayX(c, d, j) && t.y == RayY(c, d, j)
  }

  /** `t` lies in a run captured by a play of `color` at `c`, in one of the first
      `dirs` directions. */
  ghost predicate FlippedWithin(n: nat, board: map<Coord, Piece>, color: Piece, c: Coord, t: Coord, dirs: nat)
  {
    exists d: nat, j: int, k: nat :: d < dirs && 1 <= j < k && Flanks(n, board, color, c, d, k) && OnRay(c, d, j, t)
  }

  /** The board after placing `color` at `c` and flipping the captured runs of the
      first `dirs` directions. */
  ghost function PlayedThrough(n: nat, board: map<Coord, Piece>, color: Piece, c: Coord, dirs: nat): map<Coord, Piece>
  {
    map t | t in board.Keys + {c} :: if t == c || FlippedWithin(n, board, color, c, t, dirs) then color else board[t]
  }

  /** The board after a play of `color` at `c`. */
  ghost function AfterPlay(n: nat, board: map<Coord, Piece>, color: Piece, c: Coord): map<Coord, Piece>
  {
    PlayedThrough(n, board, color, c, |DX|)
  }

  /** Row-major order: `y` first, then `x`. */
  predicate RowMajorBefore(a: Coord, b: Coord)
  {
    a.y < b.y || (a.y == b.y && a.x < b.x)
  }

  /** `plays` lists every legal play of `color`, nothing else, in strictly ascending
      row-major order (so without repetitions). */
  ghost predicate IsLegalPlayList(n: nat, board: map<Coord, Piece>, color: Piece, plays: seq<Coord>)
  {
    && (forall i :: 0 <= i < |plays| ==> Legal(n, board, color, plays[i]))
    && (forall c :: Legal(n, board, color, c) ==> c in plays)
    && (forall i, j :: 0 <= i < j < |plays| ==> RowMajorBefore(plays[i], plays[j]))
  }

  // ---------------------------------------------------------------------------
  // The direction tables

  /** The tables list exactly the eight distinct non-zero vectors over {-1, 0, 1}. */
  lemma DirectionsAreCompass()
    ensures |DX| == |DY| == 8
    ensures forall d :: 0 <= d < 8 ==> -1 <= DX[d] <= 1 && -1 <= DY[d] <= 1 && (DX[d], DY[d]) != (0, 0)
    ensures forall d, e :: 0 <= d < e < 8 ==> (DX[d], DY[d]) != (DX[e], DY[e])
    ensures forall dx, dy :: -1 <= dx <= 1 && -1 <= dy <= 1 && (dx, dy) != (0, 0) ==>
              exists d :: 0 <= d < 8 && DX[d] == dx && DY[d] == dy
  {
    forall dx, dy | -1 <= dx <= 1 && -1 <= dy <= 1 && (dx, dy) != (0, 0)
      ensures exists d :: 0 <= d < 8 && DX[d] == dx && DY[d] == dy
    {
      var d := if dy == -1 then dx + 1 else if dy == 0 then (if dx == -1 then 3 else 4) else dx + 6;
      assert DX[d] == dx && DY[d] == dy;
    }
  }

  /** Two rays out of the same cell meet only where they are the same ray at the
      same distance; in particular no ray comes back to its start. */
  lemma RaysDisjoint(c: Coord, d1: nat, j1: int, d2: nat, j2: int)
    requires d1 < |DX| && d2 < |DX| && 1 <= j1 && 1 <= j2
    requires RayX(c, d1, j1) == RayX(c, d2, j2) && RayY(c, d1, j1) == RayY(c, d2, j2)
    ensures d1 == d2 && j1 == j2
  {
    var dx1, dy1, dx2, dy2 := DX[d1], DY[d1], DX[d2], DY[d2];
    assert j1 * dx1 == j2 * dx2 && j1 * dy1 == j2 * dy2;
    assert dx1 in {-1, 0, 1} && dy1 in {-1, 0, 1} && dx2 in {-1, 0, 1} && dy2 in {-1, 0, 1};
    assert dx1 != 0 || dy1 != 0;
    assert dx2 != 0 || dy2 != 0;
    assert j1 == j2;
    assert dx1 == dx2 && dy1 == dy2;
  }

  /** A step along a ray never lands back on the starting cell. */
  lemma RayLeavesStart(c: Coord, d: nat, j: int)
    requires d < |DX| && 1 <= j
    ensures RayX(c, d, j) != c.x || RayY(c, d, j) != c.y
  {
    assert DX[d] != 0 || DY[d] != 0;
  }

  // ---------------------------------------------------------------------------
  // Facts about one walk

  /** A walk that met opponent pieces on steps 1 .. s-1 and then stopped at step `s`
      (off the board, an empty cell, an own piece right next to the start, or past
      the `n`-step limit) flanks nothing in that direction. */
  lemma NoFlankPastStop(n: nat, board: map<Coord, Piece>, color: Piece, c: Coord, d: nat, s: nat)
    requires d < |DX| && 1 <= s
    requires forall j :: 1 <= j < s ==> IsOpponent(SquareAt(n, board, c, d, j), color)
    requires s > n || (!IsOpponent(SquareAt(n, board, c, d, s), color) && (s == 1 || SquareAt(n, board, c, d, s) != Stone(color)))
    ensures forall k: nat :: !Flanks(n, board, color, c, d, k)
  {
  }

  /** At most one distance closes a run in a given direction. */
  lemma FlanksUnique(n: nat, board: map<Coord, Piece>, color: Piece, c: Coord, d: nat, k1: nat, k2: nat)
    requires Flanks(n, board, color, c, d, k1) && Flanks(n, board, color, c, d, k2)
    ensures k1 == k2
  {
  }

  /** The first steps of a flanking walk: an opponent piece next to the play, and
      either the mover's piece right after it or a second opponent piece followed
      by another piece. */
  lemma FlankSteps(n: nat, board: map<Coord, Piece>, color: Piece, c: Coord, d: nat, k: nat)
    requires Flanks(n, board, color, c, d, k)
    ensures IsOpponent(SquareAt(n, board, c, d, 1), color)
    ensures k == 2 ==> SquareAt(n, board, c, d, 2) == Stone(color)
    ensures k > 2 ==> IsOpponent(SquareAt(n, board, c, d, 2), color) && SquareAt(n, board, c, d, 3).Stone?
  {
  }

  // ---------------------------------------------------------------------------
  // Applying a play one direction at a time

  /** While only the first `d` directions have been processed, the cells of ray `d`
      still hold what they held before the play. */
  lemma RayUnflipped(n: nat, board: map<Coord, Piece>, color: Piece, c: Coord, d: nat, j: int, cur: map<Coord, Piece>)
    requires d < |DX| && 1 <= j
    requires cur == PlayedThrough(n, board, color, c, d)
    ensures SquareAt(n, cur, c, d, j) == SquareAt(n, board, c, d, j)
  {
    var x, y := RayX(c, d, j), RayY(c, d, j);
    if InBounds(n, x, y) {
      var t := Coord(x, y);
      RayLeavesStart(c, d, j);
      if FlippedWithin(n, board, color, c, t, d) {
        var d': nat, j': int, k': nat :| d' < d && 1 <= j' < k' && Flanks(n, board, color, c, d', k') && OnRay(c, d', j', t);
        RaysDisjoint(c, d, j, d', j');
      }
    }
  }

  /** A direction that flanks nothing adds no flips. */
  lemma SkipDirection(n: nat, board: map<Coord, Piece>, color: Piece, c: Coord, d: nat)
    requires d < |DX|
    requires forall k: nat :: !Flanks(n, board, color, c, d, k)
    ensures PlayedThrough(n, board, color, c, d + 1) == PlayedThrough(n, board, color, c, d)
  {
    forall t | FlippedWithin(n, board, color, c, t, d + 1)
      ensures FlippedWithin(n, board, color, c, t, d)
    {
      var d': nat, j': int, k': nat :| d' < d + 1 && 1 <= j' < k' && Flanks(n, board, color, c, d', k') && OnRay(c, d', j', t);
      assert d' != d;
    }
  }

  /** A direction whose run `run` (steps 1 .. k-1) is closed at step `k` adds exactly
      the cells of that run to the flips. */
  lemma FlipDirection(n: nat, board: map<Coord, Piece>, color: Piece, c: Coord, d: nat, k: nat, run: seq<Coord>)
    requires Flanks(n, board, color, c, d, k)
    requires |run| == k - 1 && forall i :: 0 <= i < |run| ==> OnRay(c, d, i + 1, run[i])
    ensures forall t :: FlippedWithin(n, board, color, c, t, d + 1) <==> FlippedWithin(n, board, color, c, t, d) || t in run
  {
    forall t | FlippedWithin(n, board, color, c, t, d + 1) && !FlippedWithin(n, board, color, c, t, d)
      ensures t in run
    {
      var d': nat, j': int, k': nat :| d' < d + 1 && 1 <= j' < k' && Flanks(n, board, color, c, d', k') && OnRay(c, d', j', t);
      FlanksUnique(n, board, color, c, d, k, k');
      assert OnRay(c, d, j', run[j' - 1]);
      assert t == run[j' - 1];
    }
    forall t | t in run
      ensures FlippedWithin(n, board, color, c, t, d + 1)
    {
      var i :| 0 <= i < |run| && run[i] == t;
      assert d < d + 1 && 1 <= i + 1 < k && Flanks(n, board, color, c, d, k) && OnRay(c, d, i + 1, t);
    }
  }

  /** Placing the piece is the board after zero directions. */
  lemma PlacedOnly(n: nat, board: map<Coord, Piece>, color: Piece, c: Coord)
    ensures PlayedThrough(n, board, color, c, 0) == board[c := color]
  {
  }

  /** Overwriting the closed run of direction `d` with `color` moves from the board
      after `d` directions to the board after `d + 1`. */
  lemma FlipDirectionMap(n: nat, board: map<Coord, Piece>, color: Piece, c: Coord, d: nat, k: nat, run: seq<Coord>,
                         cur: map<Coord, Piece>, after: map<Coord, Piece>)
    requires d < |DX|
    requires k == 1 || Flanks(n, board, color, c, d, k)
    requires k == 1 ==> forall k': nat :: !Flanks(n, board, color, c, d, k')
    requires |run| == k - 1 && forall i :: 0 <= i < |run| ==> OnRay(c, d, i + 1, run[i])
    requires cur == PlayedThrough(n, board, color, c, d)
    requires after.Keys == cur.Keys
    requires forall t :: t in after ==> after[t] == if t in run then color else cur[t]
    ensures after == PlayedThrough(n, board, color, c, d + 1)
  {
    if k == 1 {
      SkipDirection(n, board, color, c, d);
    } else {
      FlipDirection(n, board, color, c, d, k, run);
    }
  }

  // ---------------------------------------------------------------------------
  // What a play does to the board

  /** The cells a play of `color` at `c` captures. */
  ghost function Captures(n: nat, board: map<Coord, Piece>, color: Piece, c: Coord): set<Coord>
  {
    set t | t in board.Keys && FlippedWithin(n, board, color, c, t, |DX|)
  }

  /** The number of pieces of colour `p` on the board. */
  ghost function CountOf(cells: map<Coord, Piece>, p: Piece): nat
  {
    |set t | t in cells.Keys && cells[t] == p|
  }

  /** Every board position lies on the `n` by `n` grid. */
  ghost predicate OnGrid(n: nat, cells: map<Coord, Piece>)
  {
    forall t :: t in cells ==> InBounds(n, t.x, t.y)
  }

  /** A walk from a cell on the board leaves the board within `n` steps, so the
      `n`-step limit of the walks never cuts one short. */
  lemma WalkLeavesBoard(n: nat, c: Coord, d: nat, k: int)
    requires InBounds(n, c.x, c.y) && d < |DX| && k >= n
    ensures !InBounds(n, RayX(c, d, k), RayY(c, d, k))
  {
    if DX[d] == 1 {
      assert RayX(c, d, k) == c.x + k;
    } else if DX[d] == -1 {
      assert RayX(c, d, k) == c.x - k;
    } else if DY[d] == 1 {
      assert RayY(c, d, k) == c.y + k;
    } else {
      assert DY[d] == -1;
      assert RayY(c, d, k) == c.y - k;
    }
  }

  /** A captured cell held an opponent piece on the board, and is not the played cell. */
  lemma CapturedAreOpponents(n: nat, board: map<Coord, Piece>, color: Piece, c: Coord, t: Coord)
    requires FlippedWithin(n, board, color, c, t, |DX|)
    ensures t in board && board[t] != color && t != c && InBounds(n, t.x, t.y)
  {
    var d: nat, j: int, k: nat :| d < |DX| && 1 <= j < k && Flanks(n, board, color, c, d, k) && OnRay(c, d, j, t);
    assert IsOpponent(SquareAt(n, board, c, d, j), color);
    RayLeavesStart(c, d, j);
  }

  /** After a play the mover's piece stands at `c`, no position is removed, and `c`
      is the only one added. */
  lemma AfterPlayPlaces(n: nat, board: map<Coord, Piece>, color: Piece, c: Coord)
    ensures c in AfterPlay(n, board, color, c) && AfterPlay(n, board, color, c)[c] == color
    ensures AfterPlay(n, board, color, c).Keys == board.Keys + {c}
  {
  }

  /** A cell on none of the eight rays out of `c` keeps its piece. */
  lemma AfterPlayOffRays(n: nat, board: map<Coord, Piece>, color: Piece, c: Coord, t: Coord)
    requires t in board && t != c
    requires forall d: nat, j: int :: d < |DX| && 1 <= j ==> !OnRay(c, d, j, t)
    ensures AfterPlay(n, board, color, c)[t] == board[t]
  {
  }

  /** Pieces only ever turn into `color`; in particular no piece of `color` changes. */
  lemma AfterPlayKeepsOwn(n: nat, board: map<Coord, Piece>, color: Piece, c: Coord, t: Coord)
    requires t in board
    ensures AfterPlay(n, board, color, c)[t] in {color, board[t]}
    ensures board[t] == color ==> AfterPlay(n, board, color, c)[t] == color
  {
  }

  /** On ray `d`, the cell `j` steps out turns to `color` exactly when a piece of
      `color` further out closes the run it belongs to; a run that ends at an empty
      cell or the board's edge stays as it was. */
  lemma AfterPlayOnRay(n: nat, board: map<Coord, Piece>, color: Piece, c: Coord, d: nat, j: int, t: Coord)
    requires d < |DX| && 1 <= j && OnRay(c, d, j, t) && t in board
    ensures AfterPlay(n, board, color, c)[t] ==
              if exists k: nat :: j < k && Flanks(n, board, color, c, d, k) then color else board[t]
  {
    RayLeavesStart(c, d, j);
    if FlippedWithin(n, board, color, c, t, |DX|) {
      var d': nat, j': int, k': nat :| d' < |DX| && 1 <= j' < k' && Flanks(n, board, color, c, d', k') && OnRay(c, d', j', t);
      RaysDisjoint(c, d, j, d', j');
      assert j < k' && Flanks(n, board, color, c, d, k');
    }
  }

  /** The mover's pieces after a play at an empty cell: those before, the placed
      one and the captured ones. */
  lemma OwnAfterPlay(n: nat, board: map<Coord, Piece>, color: Piece, c: Coord)
    requires c !in board
    ensures (set t | t in AfterPlay(n, board, color, c).Keys && AfterPlay(n, board, color, c)[t] == color)
         == (set t | t in board.Keys && board[t] == color) + {c} + Captures(n, board, color, c)
  {
  }

  /** The opponent's pieces after a play: those before, less the captured ones. */
  lemma OtherAfterPlay(n: nat, board: map<Coord, Piece>, color: Piece, c: Coord)
    requires c !in board
    ensures (set t | t in AfterPlay(n, board, color, c).Keys && AfterPlay(n, board, color, c)[t] == Next(color))
         == (set t | t in board.Keys && board[t] == Next(color)) - Captures(n, board, color, c)
    ensures Captures(n, board, color, c) <= (set t | t in board.Keys && board[t] == Next(color))
  {
    forall t | t in Captures(n, board, color, c)
      ensures board[t] == Next(color)
    {
      CapturedAreOpponents(n, board, color, c, t);
    }
  }

  /** A legal play captures at least one piece: the first cell of a flanked run. */
  lemma LegalPlayCapturesSome(n: nat, board: map<Coord, Piece>, color: Piece, c: Coord)
    requires Legal(n, board, color, c)
    ensures |Captures(n, board, color, c)| >= 1
  {
    var d: nat, k: nat :| Flanks(n, board, color, c, d, k);
    assert IsOpponent(SquareAt(n, board, c, d, 1), color);
    var first := Coord(RayX(c, d, 1), RayY(c, d, 1));
    assert d < |DX| && 1 <= 1 < k && Flanks(n, board, color, c, d, k) && OnRay(c, d, 1, first);
    assert first in Captures(n, board, color, c);
  }

  /** The counting step behind `CountsAfterPlay`, on plain sets: the mover's new
      set is a disjoint union, and the opponent's loses a subset. */
  lemma CaptureArithmetic(own: set<Coord>, other: set<Coord>, captured: set<Coord>, c: Coord,
                          ownAfter: set<Coord>, otherAfter: set<Coord>)
    requires c !in own && c !in captured && own !! captured && captured <= other
    requires ownAfter == own + {c} + captured && otherAfter == other - captured
    ensures |ownAfter| == |own| + 1 + |captured|
    ensures |otherAfter| == |other| - |captured|
  {
    assert |own + {c}| == |own| + 1;
    assert (own + {c}) !! captured;
    assert other == otherAfter + captured;
  }

  /** A play at an empty cell: the mover gains the placed piece and every capture,
      the opponent loses every capture. */
  lemma CountsAfterPlay(n: nat, board: map<Coord, Piece>, color: Piece, c: Coord)
    requires c !in board
    ensures CountOf(AfterPlay(n, board, color, c), color) == CountOf(board, color) + 1 + |Captures(n, board, color, c)|
    ensures CountOf(AfterPlay(n, board, color, c), Next(color)) == CountOf(board, Next(color)) - |Captures(n, board, color, c)|
  {
    var after := AfterPlay(n, board, color, c);
    var captured := Captures(n, board, color, c);
    var own := set t | t in board.Keys && board[t] == color;
    var other := set t | t in board.Keys && board[t] == Next(color);
    OwnAfterPlay(n, board, color, c);
    OtherAfterPlay(n, board, color, c);
    forall t | t in captured
      ensures t !in own && t != c
    {
      CapturedAreOpponents(n, board, color, c, t);
    }
    CaptureArithmetic(own, other, captured, c,
                      set t | t in after.Keys && after[t] == color,
                      set t | t in after.Keys && after[t] == Next(color));
  }

  /** A legal play captures at least one piece; the mover gains the placed piece and
      every capture, the opponent loses every capture. */
  lemma LegalPlayCaptures(n: nat, board: map<Coord, Piece>, color: Piece, c: Coord)
    requires Legal(n, board, color, c)
    ensures |Captures(n, board, color, c)| >= 1
    ensures CountOf(AfterPlay(n, board, color, c), color) == CountOf(board, color) + 1 + |Captures(n, board, color, c)|
    ensures CountOf(AfterPlay(n, board, color, c), Next(color)) == CountOf(board, Next(color)) - |Captures(n, board, color, c)|
  {
    LegalPlayCapturesSome(n, board, color, c);
    CountsAfterPlay(n, board, color, c);
  }

  /** A play on the grid keeps every position on the grid. */
  lemma AfterPlayOnGrid(n: nat, board: map<Coord, Piece>, color: Piece, c: Coord)
    requires OnGrid(n, board) && InBounds(n, c.x, c.y)
    ensures OnGrid(n, AfterPlay(n, board, color, c))
  {
  }

  lemma NonEmptyHasMember(s: seq<Coord>)
    ensures s != [] ==> s[0] in s
  {
  }

  /** Two lists in strictly ascending row-major order with the same members are equal. */
  lemma {:induction false} RowMajorListsEqual(a: seq<Coord>, b: seq<Coord>)
    requires forall i, j :: 0 <= i < j < |a| ==> RowMajorBefore(a[i], a[j])
    requires forall i, j :: 0 <= i < j < |b| ==> RowMajorBefore(b[i], b[j])
    requires forall c :: c in a <==> c in b
    ensures a == b
  {
    if a == [] && b != [] {
      NonEmptyHasMember(b);
      assert false;
    } else if a != [] && b == [] {
      NonEmptyHasMember(a);
      assert false;
    } else if a != [] && b != [] {
      assert a[0] in a && b[0] in b;
      var i :| 0 <= i < |a| && a[i] == b[0];
      var j :| 0 <= j < |b| && b[j] == a[0];
      assert a[0] == b[0];
      forall c
        ensures c in a[1..] <==> c in b[1..]
      {
        if c in a[1..] {
          var k :| 1 <= k < |a| && a[k] == c;
          assert RowMajorBefore(a[0], a[k]);
          assert c in a && c in b;
          var m :| 0 <= m < |b| && b[m] == c;
          assert m != 0 && b[1..][m - 1] == c;
        }
        if c in b[1..] {
          var k :| 1 <= k < |b| && b[k] == c;
          assert RowMajorBefore(b[0], b[k]);
          assert c in b && c in a;
          var m :| 0 <= m < |a| && a[m] == c;
          assert m != 0 && a[1..][m - 1] == c;
        }
      }
      RowMajorListsEqual(a[1..], b[1..]);
      assert a == [a[0]] + a[1..] && b == [b[0]] + b[1..];
    }
  }

  /** The legal-play list of a position is unique: whatever lists every legal play
      once, in row-major order, is the list `legalPlays` returns. */
  lemma LegalPlayListUnique(n: nat, board: map<Coord, Piece>, color: Piece, p1: seq<Coord>, p2: seq<Coord>)
    requires IsLegalPlayList(n, board, color, p1) && IsLegalPlayList(n, board, color, p2)
    ensures p1 == p2
  {
    RowMajorListsEqual(p1, p2);
  }

  /** A legal-play list repeats no coordinate. */
  lemma LegalPlayListDistinct(n: nat, board: map<Coord, Piece>, color: Piece, plays: seq<Coord>)
    requires IsLegalPlayList(n, board, color, plays)
    ensures forall i, j :: 0 <= i < j < |plays| ==> plays[i] != plays[j]
  {
  }

  // ---------------------------------------------------------------------------
  // The rules engine

  /** The board the game owns and the engine updates in place. */
  class Board {
    var cells: map<Coord, Piece>

    constructor ()
      ensures cells == map[]
    {
      cells := map[];
    }
  }

  class Logic {
    const boardSize: nat

    constructor (boardSize: nat)
      ensures this.boardSize == boardSize
    {
      this.boardSize := boardSize;
    }

    /** `isLegalPlay`: an eight-direction walk looking for a run of opponent pieces
        closed off by one of `color`'s own. */
    method IsLegalPlay(board: map<Coord, Piece>, color: Piece, coord: Coord) returns (legal: bool)
      ensures legal == Legal(boardSize, board, color, coord)
    {
      if !InBounds(boardSize, coord.x, coord.y) || coord in board {
        return false;
      }
      var ii := 0;
      while ii < |DX|
        invariant 0 <= ii <= |DX|
        invariant forall d: nat, k: nat :: d < ii ==> !Flanks(boardSize, board, color, coord, d, k)
      {
        var sawOther := false;
        var x: int, y: int := coord.x, coord.y;
        var dd := 0;
        while dd < boardSize
          invariant 0 <= dd <= boardSize
          invariant x == RayX(coord, ii, dd) && y == RayY(coord, ii, dd)
          invariant sawOther == (dd >= 1)
          invariant forall j :: 1 <= j <= dd ==> IsOpponent(SquareAt(boardSize, board, coord, ii, j), color)
        {
          x := x + DX[ii];
          y := y + DY[ii];
          assert x == RayX(coord, ii, dd + 1) && y == RayY(coord, ii, dd + 1);
          if !InBounds(boardSize, x, y) {
            NoFlankPastStop(boardSize, board, color, coord, ii, dd + 1);
            break;
          }
          var at := Coord(x, y);
          if at !in board {
            NoFlankPastStop(boardSize, board, color, coord, ii, dd + 1);
            break;
          }
          var piece := board[at];
          if piece != color {
            sawOther := true;
          } else if sawOther {
            assert Flanks(boardSize, board, color, coord, ii, dd + 1);
            return true;
          } else {
            NoFlankPastStop(boardSize, board, color, coord, ii, dd + 1);
            break;
          }
          dd := dd + 1;
        }
        if dd == boardSize {
          NoFlankPastStop(boardSize, board, color, coord, ii, dd + 1);
        }
        ii := ii + 1;
      }
      return false;
    }
  
    /** The `for (Coord tf : toFlip) board.put(tf, color)` loop of `applyPlay`. */
    method FlipAll(board: Board, toFlip: seq<Coord>, color: Piece)
      requires forall t :: t in toFlip ==> t in board.cells
      modifies board
      ensures board.cells.Keys == old(board.cells).Keys
      ensures forall t :: t in board.cells ==> board.cells[t] == if t in toFlip then color else old(board.cells)[t]
    {
      for i := 0 to |toFlip|
        invariant board.cells.Keys == old(board.cells).Keys
        invariant forall t :: t in board.cells ==> board.cells[t] == if t in toFlip[..i] then color else old(board.cells)[t]
      {
        board.cells := board.cells[toFlip[i] := color];
      }
      assert toFlip[..|toFlip|] == toFlip;
    }

    /** `applyPlay`: places `color` at `coord` and flips, direction by direction, each
        run of opponent pieces closed off by a piece of `color`. Legality is the
        caller's business and is not checked. */
    method ApplyPlay(board: Board, color: Piece, coord: Coord)
      modifies board
      ensures board.cells == AfterPlay(boardSize, old(board.cells), color, coord)
    {
      ghost var b0 := board.cells;
      board.cells := board.cells[coord := color];
      PlacedOnly(boardSize, b0, color, coord);
      var ii := 0;
      while ii < |DX|
        invariant 0 <= ii <= |DX|
        invariant board.cells == PlayedThrough(boardSize, b0, color, coord, ii)
      {
        ApplyDirection(board, b0, color, coord, ii);
        ii := ii + 1;
      }
    }

    /** One pass of the outer loop of `applyPlay`: walks direction `ii` from `coord`,
        collecting opponent pieces in `toFlip`, and flips them when a piece of `color`
        closes the run. `b0` is the board before the play. The list starts empty on
        each pass, as `toFlip.clear()` leaves it. */
    method ApplyDirection(board: Board, ghost b0: map<Coord, Piece>, color: Piece, coord: Coord, ii: nat)
      requires ii < |DX|
      requires board.cells == PlayedThrough(boardSize, b0, color, coord, ii)
      modifies board
      ensures board.cells == PlayedThrough(boardSize, b0, color, coord, ii + 1)
    {
      var toFlip: seq<Coord> := [];
      var x: int, y: int := coord.x, coord.y;
      ghost var cur := board.cells;
      var dd := 0;
      while dd < boardSize
        invariant 0 <= dd <= boardSize
        invariant x == RayX(coord, ii, dd) && y == RayY(coord, ii, dd)
        invariant |toFlip| == dd
        invariant forall j :: 0 <= j < dd ==> OnRay(coord, ii, j + 1, toFlip[j]) && toFlip[j] in b0
        invariant forall j :: 1 <= j <= dd ==> IsOpponent(SquareAt(boardSize, b0, coord, ii, j), color)
        invariant board.cells == cur
      {
        x := x + DX[ii];
        y := y + DY[ii];
        assert x == RayX(coord, ii, dd + 1) && y == RayY(coord, ii, dd + 1);
        RayUnflipped(boardSize, b0, color, coord, ii, dd + 1, cur);
        if !InBounds(boardSize, x, y) {
          NoFlankPastStop(boardSize, b0, color, coord, ii, dd + 1);
          SkipDirection(boardSize, b0, color, coord, ii);
          return;
        }
        var fc := Coord(x, y);
        RayLeavesStart(coord, ii, dd + 1);
        if fc !in board.cells {
          NoFlankPastStop(boardSize, b0, color, coord, ii, dd + 1);
          SkipDirection(boardSize, b0, color, coord, ii);
          return;
        }
        var piece := board.cells[fc];
        if piece != color {
          toFlip := toFlip + [fc];
        } else {
          FlipAll(board, toFlip, color);
          if dd == 0 {
            NoFlankPastStop(boardSize, b0, color, coord, ii, dd + 1);
          } else {
            assert Flanks(boardSize, b0, color, coord, ii, dd + 1);
          }
          FlipDirectionMap(boardSize, b0, color, coord, ii, dd + 1, toFlip, cur, board.cells);
          return;
        }
        dd := dd + 1;
      }
      NoFlankPastStop(boardSize, b0, color, coord, ii, dd + 1);
      SkipDirection(boardSize, b0, color, coord, ii);
    }

    /** `legalPlays`: every empty cell at which `color` may play, scanning rows (`y`)
        in the outer loop and columns (`x`) in the inner one. */
    method LegalPlays(board: map<Coord, Piece>, color: Piece) returns (plays: seq<Coord>)
      ensures IsLegalPlayList(boardSize, board, color, plays)
    {
      plays := [];
      var yy := 0;
      while yy < boardSize
        invariant 0 <= yy <= boardSize
        invariant forall i :: 0 <= i < |plays| ==> Legal(boardSize, board, color, plays[i]) && plays[i].y < yy
        invariant forall c :: Legal(boardSize, board, color, c) && c.y < yy ==> c in plays
        invariant forall i, j :: 0 <= i < j < |plays| ==> RowMajorBefore(plays[i], plays[j])
      {
        var xx := 0;
        while xx < boardSize
          invariant 0 <= xx <= boardSize
          invariant forall i :: 0 <= i < |plays| ==> Legal(boardSize, board, color, plays[i]) && RowMajorBefore(plays[i], Coord(xx, yy))
          invariant forall c :: Legal(boardSize, board, color, c) && RowMajorBefore(c, Coord(xx, yy)) ==> c in plays
          invariant forall i, j :: 0 <= i < j < |plays| ==> RowMajorBefore(plays[i], plays[j])
        {
          var coord := Coord(xx, yy);
          if coord in board {
            xx := xx + 1;
            continue;
          }
          var legal := IsLegalPlay(board, color, coord);
          if legal {
            plays := plays + [coord];
          }
          xx := xx + 1;
        }
        yy := yy + 1;
      }
    }
  }
}
