/** The game: the board it owns, whose turn it is, the turn handler that shows the
    legal plays, passes or ends the game, the starting position, and the final
    scoring. */
module Reversi {
  import opened Pieces
  import opened Logic

  /** What `endGame` works out: the number of pieces of each colour (indexed by
      ordinal), the colours that share the highest count, and whether the message
      announces one winner or a tie. */
  datatype Outcome = Outcome(count: seq<int>, winners: seq<Piece>, verdict: Verdict)

  /** What the game last handed to its view. */
  datatype Display = Nothing | ShowPlays(color: Piece, plays: seq<Coord>) | GameOver(outcome: Outcome)

  /** The one decision of the game-over message: a single winner, or a tie. */
  datatype Verdict = Wins(winner: Piece) | Tie(tied: seq<Piece>)

  // ---------------------------------------------------------------------------
  // Scoring

  /** The running `highScore` of `endGame` after a scan of `count`: it starts at 0
      and only ever rises. */
  function HighScore(count: seq<int>): (h: int)
    ensures h >= 0
    ensures forall i :: 0 <= i < |count| ==> count[i] <= h
    ensures h == 0 || exists i :: 0 <= i < |count| && count[i] == h
  {
    if |count| == 0 then 0
    else
      var h := HighScore(count[..|count| - 1]);
      if count[|count| - 1] > h then count[|count| - 1] else h
  }

  /** `winners` lists, in enum order, exactly the colours whose count is the high score. */
  ghost predicate IsWinners(count: seq<int>, winners: seq<Piece>)
    requires |count| == |Values|
  {
    && (forall p :: p in winners <==> count[Ordinal(p)] == HighScore(count))
    && (forall i, j :: 0 <= i < j < |winners| ==> Ordinal(winners[i]) < Ordinal(winners[j]))
  }

  /** `o` is the outcome of the board `cells`. */
  ghost predicate IsOutcomeOf(cells: map<Coord, Piece>, o: Outcome)
  {
    && |o.count| == |Values|
    && (forall i :: 0 <= i < |Values| ==> o.count[i] == CountOf(cells, Values[i]))
    && IsWinners(o.count, o.winners)
    && o.verdict == VerdictOf(o.winners)
  }

  /** The pieces of colour `p` among the squares `seen`. */
  ghost function Tally(cells: map<Coord, Piece>, seen: set<Coord>, p: Piece): nat
  {
    |set t | t in seen && t in cells && cells[t] == p|
  }

  /** Counting one more square adds one to the tally of its own colour only. */
  lemma TallyStep(cells: map<Coord, Piece>, seen: set<Coord>, t: Coord, p: Piece)
    requires t in cells && t !in seen
    ensures Tally(cells, seen + {t}, p) == Tally(cells, seen, p) + (if cells[t] == p then 1 else 0)
  {
    var before := set u | u in seen && u in cells && cells[u] == p;
    var after := set u | u in seen + {t} && u in cells && cells[u] == p;
    if cells[t] == p {
      assert after == before + {t};
    } else {
      assert after == before;
    }
  }

  /** The counting loop of `endGame`: one tally per colour over the pieces on the board. */
  method CountPieces(cells: map<Coord, Piece>) returns (count: seq<int>)
    ensures |count| == |Values|
    ensures forall i :: 0 <= i < |Values| ==> count[i] == CountOf(cells, Values[i])
  {
    var tally := new int[|Values|](_ => 0);
    var rest := cells.Keys;
    ghost var seen: set<Coord> := {};
    assert Tally(cells, seen, Black) == 0 && Tally(cells, seen, White) == 0;
    while rest != {}
      invariant rest <= cells.Keys && seen == cells.Keys - rest
      invariant tally[0] == Tally(cells, seen, Black) && tally[1] == Tally(cells, seen, White)
      decreases rest
    {
      var t :| t in rest;
      TallyStep(cells, seen, t, Black);
      TallyStep(cells, seen, t, White);
      var o := Ordinal(cells[t]);
      tally[o] := tally[o] + 1;
      rest := rest - {t};
      seen := seen + {t};
    }
    assert (set t | t in seen && t in cells && cells[t] == Black) == (set t | t in cells.Keys && cells[t] == Black);
    assert (set t | t in seen && t in cells && cells[t] == White) == (set t | t in cells.Keys && cells[t] == White);
    count := tally[..];
  }

  /** The winner loop of `endGame`: keeps the colours seen so far with the highest
      count, starting from a high score of 0. */
  method FindWinners(count: seq<int>) returns (winners: seq<Piece>, highScore: int)
    requires |count| == |Values|
    ensures highScore == HighScore(count)
    ensures IsWinners(count, winners)
  {
    winners := [];
    highScore := 0;
    var ii := 0;
    while ii < |count|
      invariant 0 <= ii <= |count|
      invariant highScore == HighScore(count[..ii])
      invariant forall p :: p in winners <==> Ordinal(p) < ii && count[Ordinal(p)] == highScore
      invariant forall i, j :: 0 <= i < j < |winners| ==> Ordinal(winners[i]) < Ordinal(winners[j])
      invariant forall i :: 0 <= i < |winners| ==> Ordinal(winners[i]) < ii
    {
      assert count[..ii + 1][..ii] == count[..ii];
      var score := count[ii];
      assert Ordinal(Values[ii]) == ii;
      if score == highScore {
        winners := winners + [Values[ii]];
      } else if score > highScore {
        winners := [Values[ii]];
        highScore := score;
      }
      ii := ii + 1;
    }
    assert count[..ii] == count;
  }

  /** `winners.size() == 1` decides between a win and a tie: a win names the one
      winner, a tie lists all of them. */
  function VerdictOf(winners: seq<Piece>): (v: Verdict)
    ensures v.Wins? <==> |winners| == 1
    ensures v.Wins? ==> winners == [v.winner]
    ensures v.Tie? ==> v.tied == winners
  {
    if |winners| == 1 then Wins(winners[0]) else Tie(winners)
  }

  /** Every piece on the board is counted once, for its own colour. */
  lemma CountsCoverBoard(cells: map<Coord, Piece>)
    ensures CountOf(cells, Black) + CountOf(cells, White) == |cells|
  {
    var black := set t | t in cells.Keys && cells[t] == Black;
    var white := set t | t in cells.Keys && cells[t] == White;
    assert cells.Keys == black + white;
    assert black !! white;
  }

  /** Ordinals in strictly increasing order: a list of colours has at most two,
      and with two they come in enum order. */
  lemma OrderedPair(w: seq<Piece>)
    requires forall i, j :: 0 <= i < j < |w| ==> Ordinal(w[i]) < Ordinal(w[j])
    ensures |w| <= 2
    ensures |w| == 2 ==> w == [Black, White]
  {
    OrderedChain(w);
  }

  /** The ordering facts about the first three elements that `OrderedPair` needs. */
  lemma OrderedChain(w: seq<Piece>)
    requires forall i, j :: 0 <= i < j < |w| ==> Ordinal(w[i]) < Ordinal(w[j])
    ensures |w| >= 3 ==> Ordinal(w[0]) < Ordinal(w[1]) < Ordinal(w[2])
    ensures |w| == 2 ==> Ordinal(w[0]) < Ordinal(w[1])
  {
  }

  /** With counts that cannot be negative, the winners are the colours with the
      largest count: never none, both exactly when the counts are equal. */
  lemma WinnersAreArgmax(count: seq<int>, winners: seq<Piece>)
    requires |count| == |Values| && count[0] >= 0 && count[1] >= 0
    requires IsWinners(count, winners)
    ensures HighScore(count) == if count[0] >= count[1] then count[0] else count[1]
    ensures winners != []
    ensures |winners| == 2 <==> count[0] == count[1]
    ensures count[0] > count[1] ==> winners == [Black]
    ensures count[1] > count[0] ==> winners == [White]
    ensures count[0] == count[1] ==> winners == [Black, White]
  {
    assert count[..1] == [count[0]] && count[..1][..0] == [];
    assert count[..|count| - 1] == count[..1];
    var h := HighScore(count);
    assert (Black in winners) == (count[0] == h);
    assert (White in winners) == (count[1] == h);
    OrderedPair(winners);
    assert |winners| == 1 ==> winners == [winners[0]];
  }

  /** The message names a single winner exactly when that colour has strictly more
      pieces, and a tie exactly when the counts are equal. */
  lemma VerdictMeaning(count: seq<int>, winners: seq<Piece>)
    requires |count| == |Values| && count[0] >= 0 && count[1] >= 0
    requires IsWinners(count, winners)
    ensures VerdictOf(winners) == Wins(Black) <==> count[0] > count[1]
    ensures VerdictOf(winners) == Wins(White) <==> count[1] > count[0]
    ensures VerdictOf(winners).Tie? <==> count[0] == count[1]
  {
    WinnersAreArgmax(count, winners);
  }

  /** The announced result of a finished game follows the board: Black wins exactly
      when it has more pieces, White exactly when it has more, a tie exactly when
      the counts are equal. */
  lemma OutcomeVerdict(cells: map<Coord, Piece>, o: Outcome)
    requires IsOutcomeOf(cells, o)
    ensures o.verdict == Wins(Black) <==> CountOf(cells, Black) > CountOf(cells, White)
    ensures o.verdict == Wins(White) <==> CountOf(cells, White) > CountOf(cells, Black)
    ensures o.verdict.Tie? <==> CountOf(cells, Black) == CountOf(cells, White)
  {
    assert o.count[0] == CountOf(cells, Values[0]) && o.count[1] == CountOf(cells, Values[1]);
    VerdictMeaning(o.count, o.winners);
  }

  // ---------------------------------------------------------------------------
  // The starting position and the turn state machine

  /** The four centre pieces set up by `reset`. */
  ghost function StartPosition(n: nat): map<Coord, Piece>
    requires n >= 2
  {
    var h := n / 2;
    map[Coord(h - 1, h - 1) := White, Coord(h, h - 1) := Black,
        Coord(h - 1, h) := Black, Coord(h, h) := White]
  }

  /** The starting position holds four pieces, two of each colour, all on the grid. */
  lemma StartPositionShape(n: nat)
    requires n >= 2
    ensures |StartPosition(n)| == 4 && OnGrid(n, StartPosition(n))
    ensures CountOf(StartPosition(n), Black) == 2 && CountOf(StartPosition(n), White) == 2
  {
    var h := n / 2;
    var s := StartPosition(n);
    assert s.Keys == {Coord(h - 1, h - 1), Coord(h, h - 1), Coord(h - 1, h), Coord(h, h)};
    assert (set t | t in s.Keys && s[t] == Black) == {Coord(h, h - 1), Coord(h - 1, h)};
    assert (set t | t in s.Keys && s[t] == White) == {Coord(h - 1, h - 1), Coord(h, h)};
  }

  /** `color` has at least one legal play. */
  ghost predicate HasPlays(n: nat, cells: map<Coord, Piece>, color: Piece)
  {
    exists c :: Legal(n, cells, color, c)
  }

  /** On a board of side at least 4, Black can open by playing just above the
      white centre piece on the left. */
  lemma StartHasBlackPlay(n: nat)
    requires n >= 4
    ensures Legal(n, StartPosition(n), Black, Coord(n / 2 - 1, n / 2 - 2))
    ensures HasPlays(n, StartPosition(n), Black)
  {
    var c := Coord(n / 2 - 1, n / 2 - 2);
    assert DX[6] == 0 && DY[6] == 1;
    assert SquareAt(n, StartPosition(n), c, 6, 1) == Stone(White);
    assert Flanks(n, StartPosition(n), Black, c, 6, 2);
  }

  /** The plays Black has on the opening board of side 8. */
  const OpeningPlays: seq<Coord> := [Coord(3, 2), Coord(2, 3), Coord(5, 4), Coord(4, 5)]

  /** On the opening board of side 8 every flanking walk for Black starts at one of
      the four opening plays. */
  lemma OpeningFlank(c: Coord, d: nat, k: nat)
    requires Flanks(8, StartPosition(8), Black, c, d, k)
    ensures c in OpeningPlays
  {
    FlankSteps(8, StartPosition(8), Black, c, d, k);
  }

  /** Each of the four opening plays closes a run of one white piece. */
  lemma OpeningPlaysLegal()
    ensures forall i :: 0 <= i < |OpeningPlays| ==> Legal(8, StartPosition(8), Black, OpeningPlays[i])
  {
    var s := StartPosition(8);
    assert Flanks(8, s, Black, Coord(3, 2), 6, 2);
    assert Flanks(8, s, Black, Coord(2, 3), 4, 2);
    assert Flanks(8, s, Black, Coord(5, 4), 3, 2);
    assert Flanks(8, s, Black, Coord(4, 5), 1, 2);
  }

  /** Black has no opening play other than the four. */
  lemma OpeningPlaysComplete()
    ensures forall c :: Legal(8, StartPosition(8), Black, c) ==> c in OpeningPlays
  {
    forall c | Legal(8, StartPosition(8), Black, c)
      ensures c in OpeningPlays
    {
      var d: nat, k: nat :| Flanks(8, StartPosition(8), Black, c, d, k);
      OpeningFlank(c, d, k);
    }
  }

  /** From the opening board of side 8, Black's legal plays in row-major order are
      (3,2), (2,3), (5,4), (4,5), and no other list satisfies that description. */
  lemma OpeningLegalPlays(plays: seq<Coord>)
    ensures IsLegalPlayList(8, StartPosition(8), Black, OpeningPlays)
    ensures IsLegalPlayList(8, StartPosition(8), Black, plays) ==> plays == OpeningPlays
  {
    OpeningPlaysLegal();
    OpeningPlaysComplete();
    assert forall i, j :: 0 <= i < j < |OpeningPlays| ==> RowMajorBefore(OpeningPlays[i], OpeningPlays[j]);
    if IsLegalPlayList(8, StartPosition(8), Black, plays) {
      LegalPlayListUnique(8, StartPosition(8), Black, plays, OpeningPlays);
    }
  }

  /** What the turn handler shows for `color` on `cells`: its legal plays when it
      has some, otherwise the final outcome. */
  ghost predicate Shows(n: nat, cells: map<Coord, Piece>, color: Piece, display: Display)
  {
    if HasPlays(n, cells, color) then
      display.ShowPlays? && display.color == color && IsLegalPlayList(n, cells, color, display.plays)
    else
      display.GameOver? && IsOutcomeOf(cells, display.outcome)
  }

  class Reversi {
    const boardSize: nat := 8
    const pieces: Board
    const logic: Logic
    /** The `turn` value: `None` until the first `reset`. */
    var turn: Option<Piece>
    /** The turn handler's own flag: did the previous colour have to pass? */
    var lastPlayerPassed: bool
    var display: Display

    ghost predicate Valid()
      reads this, pieces
    {
      logic.boardSize == boardSize && OnGrid(boardSize, pieces.cells)
    }

    /** Wires the turn handler (with its flag clear) and starts the game. */
    constructor ()
      ensures Valid() && fresh(pieces)
      ensures pieces.cells == StartPosition(boardSize)
      ensures turn == Some(Black) && !lastPlayerPassed
      ensures Shows(boardSize, pieces.cells, Black, display)
      ensures display == ShowPlays(Black, OpeningPlays)
    {
      pieces := new Board();
      logic := new Logic(boardSize);
      turn := None;
      lastPlayerPassed := false;
      display := Nothing;
      new;
      Reset();
    }

    /** `reset`: clears the board, sets the four centre pieces and forces the turn to
        Black, which runs the turn handler. Black always has a play then, so the
        handler clears `lastPlayerPassed` whatever it was before. */
    method Reset()
      requires Valid()
      modifies this, pieces
      ensures Valid()
      ensures pieces.cells == StartPosition(boardSize)
      ensures turn == Some(Black) && !lastPlayerPassed
      ensures Shows(boardSize, pieces.cells, Black, display)
      ensures display == ShowPlays(Black, OpeningPlays)
    {
      pieces.cells := map[];
      var half := boardSize / 2;
      pieces.cells := pieces.cells[Coord(half - 1, half - 1) := White];
      pieces.cells := pieces.cells[Coord(half, half - 1) := Black];
      pieces.cells := pieces.cells[Coord(half - 1, half) := Black];
      pieces.cells := pieces.cells[Coord(half, half) := White];
      StartPositionShape(boardSize);
      StartHasBlackPlay(boardSize);
      turn := Some(Black);
      var _ := OnTurn(Black);
      OpeningLegalPlays(display.plays);
    }

    /** The turn handler, run each time `turn` takes the value `color`. With plays it
        shows them; without, it ends the game if the previous colour passed too, and
        otherwise passes: it sets the flag and hands the turn to the other colour,
        which runs the handler once more (the value changes, so `update` emits).
        `evaluations` counts the runs: never more than two. */
    method OnTurn(color: Piece) returns (ghost evaluations: nat)
      requires Valid() && turn == Some(color)
      modifies this
      decreases if lastPlayerPassed then 0 else 1
      ensures Valid() && pieces.cells == old(pieces.cells)
      ensures HasPlays(boardSize, pieces.cells, color) || old(lastPlayerPassed) ==>
                && turn == Some(color)
                && lastPlayerPassed == !HasPlays(boardSize, pieces.cells, color)
                && Shows(boardSize, pieces.cells, color, display)
                && evaluations == 1
      ensures !HasPlays(boardSize, pieces.cells, color) && !old(lastPlayerPassed) ==>
                && turn == Some(Next(color))
                && lastPlayerPassed == !HasPlays(boardSize, pieces.cells, Next(color))
                && Shows(boardSize, pieces.cells, Next(color), display)
                && evaluations == 2
      ensures !old(lastPlayerPassed) ==>
                (display.GameOver? <==> !HasPlays(boardSize, pieces.cells, color) && !HasPlays(boardSize, pieces.cells, Next(color)))
    {
      var plays := logic.LegalPlays(pieces.cells, color);
      if plays != [] {
        assert Legal(boardSize, pieces.cells, color, plays[0]);
        lastPlayerPassed := false;
        display := ShowPlays(color, plays);
        evaluations := 1;
      } else if lastPlayerPassed {
        EndGame();
        evaluations := 1;
      } else {
        lastPlayerPassed := true;
        turn := Some(Next(color));
        var more := OnTurn(Next(color));
        NextInvolution(color);
        evaluations := 1 + more;
      }
    }

    /** The scoring part of `endGame`: tally the pieces, pick the winners and decide
        between announcing one winner and a tie. */
    method EndGame()
      modifies this`display
      ensures display.GameOver? && IsOutcomeOf(pieces.cells, display.outcome)
    {
      var count := CountPieces(pieces.cells);
      var winners, _ := FindWinners(count);
      display := GameOver(Outcome(count, winners, VerdictOf(winners)));
    }
  }
}
