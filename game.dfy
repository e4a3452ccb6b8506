/** The game state machine of weiqi/script.js: the module-level state of
    lines 9-17 and the procedures that update it (resetGame, applyHandicap,
    handleMove, processMoveResult, finishTurn, handlePass, endGame,
    markDeadStonesAuto, updateFinalScore, toggleDeadStone, computerPlay). */
module GameState {
  import opened GoBoard
  import opened Connectivity
  import opened Moves
  import opened DeadStones
  import opened Scoring
  import opened Computer

  // ---------------------------------------------------------------------
  // Handicap stones (applyHandicap, lines 44-51)

  /** The star points receiving Black's handicap stones. */
  function HandicapPoints(n: int): seq<Coord> {
    if n == 2 then [Pos(2, 6), Pos(6, 2)]
    else if n == 4 then [Pos(2, 2), Pos(2, 6), Pos(6, 2), Pos(6, 6)]
    else if n == 9 then
      [Pos(2, 2), Pos(2, 6), Pos(6, 2), Pos(6, 6), Pos(4, 4), Pos(2, 4), Pos(6, 4), Pos(4, 2), Pos(4, 6)]
    else []
  }

  /** A supported handicap of `n` stones places `n` different stones, on the
      star points (rows and columns 2, 4 and 6); any other number places
      none. */
  lemma HandicapPointsProps(n: int)
    ensures |HandicapPoints(n)| == if n == 2 || n == 4 || n == 9 then n else 0
    ensures Distinct(HandicapPoints(n))
    ensures forall q :: q in HandicapPoints(n) ==> q.r in {2, 4, 6} && q.c in {2, 4, 6}
  {
  }

  // ---------------------------------------------------------------------
  // Dead-stone toggling (toggleDeadStone, line 238)

  /** The dead set after toggling the group `g` of the stone `key`: the
      group is freed when `key` was dead, and marked otherwise. */
  function Toggled(dead: set<Coord>, g: set<Coord>, key: Coord): (d: set<Coord>)
    ensures key in g ==> (g <= d || g !! d) && (key in d <==> key !in dead)
    ensures d - g == dead - g
  {
    if key in dead then dead - g else dead + g
  }

  /** Toggling a group twice restores the dead set when the group was
      uniformly marked. */
  lemma ToggleTwice(dead: set<Coord>, g: set<Coord>, key: Coord)
    requires key in g && (g <= dead || g !! dead)
    ensures Toggled(Toggled(dead, g, key), g, key) == dead
  {
  }

  /** One stone of toggleDeadStone's loop. */
  method ToggleCell(ghost dead0: set<Coord>, group: seq<Coord>, i: int, isDead: bool, dead: set<Coord>)
    returns (dead': set<Coord>)
    requires 0 <= i < |group|
    requires dead == if isDead then dead0 - Elems(group[..i]) else dead0 + Elems(group[..i])
    ensures dead' == if isDead then dead0 - Elems(group[..i + 1]) else dead0 + Elems(group[..i + 1])
  {
    assert group[..i + 1] == group[..i] + [group[i]];
    ElemsAppend(group[..i], group[i]);
    if isDead {
      dead' := dead - {group[i]};
    } else {
      dead' := dead + {group[i]};
    }
  }

  /** One group of markDeadStonesAuto's loop. */
  method MarkGroup(b: Board, groups: seq<seq<Coord>>, i: int, dead: set<Coord>) returns (dead': set<Coord>)
    requires 0 <= i < |groups| && IsGroup(b, groups[i])
    requires dead == DeadAmong(b, groups[..i])
    ensures dead' == DeadAmong(b, groups[..i + 1])
  {
    DeadAmongStep(b, groups, i);
    var verdict := GroupIsDead(b, groups[i]);
    dead' := dead;
    if verdict {
      dead' := dead + Elems(groups[i]);
    }
  }

  // ---------------------------------------------------------------------
  // The game

  class Game {
    /** boardState */
    var board: Board
    /** deadStonesSet */
    var dead: set<Coord>
    /** currentPlayer */
    var player: Stone
    /** previousBoardJson: the position before the last move, for ko */
    var previous: Option<Board>
    /** isAiProcessing */
    var aiBusy: bool
    /** isGameOver */
    var gameOver: bool
    var passCount: nat
    /** captures[BLACK] and captures[WHITE] */
    var capturesBlack: nat
    var capturesWhite: nat
    /** The last result of updateFinalScore. */
    var report: Option<Score>
    /** The game mode: the computer plays White. */
    const vsComputer: bool

    /** resetGame with the chosen handicap and mode. */
    constructor (handicap: int, vsComputer: bool)
      ensures this.vsComputer == vsComputer
      ensures forall q: Coord :: At(board, q) == if q in HandicapPoints(handicap) then Black else Empty
      ensures player == if handicap > 0 then White else Black
      ensures dead == {} && previous == None && !aiBusy && !gameOver && passCount == 0
      ensures capturesBlack == 0 && capturesWhite == 0 && report == None
    {
      this.vsComputer := vsComputer;
      board := EmptyBoard();
      dead := {};
      player := Black;
      previous := None;
      aiBusy := false;
      gameOver := false;
      passCount := 0;
      capturesBlack, capturesWhite := 0, 0;
      report := None;
      new;
      ApplyHandicap(handicap);
      player := if handicap > 0 then White else Black;
    }

    /** applyHandicap: Black stones on the handicap points. */
    method ApplyHandicap(n: int)
      modifies this`board
      ensures forall q: Coord :: At(board, q) == if q in HandicapPoints(n) then Black else At(old(board), q)
    {
      var pts := HandicapPoints(n);
      for i := 0 to |pts|
        invariant forall q: Coord :: At(board, q) == if q in pts[..i] then Black else At(old(board), q)
      {
        board := Update(board, pts[i], Black);
        assert forall q :: q in pts[..i + 1] <==> q in pts[..i] || q == pts[i];
      }
      assert pts[..|pts|] == pts;
    }

    /** The capture tally of `color`. */
    function Captures(color: Stone): nat
      reads this
    {
      if color == Black then capturesBlack else capturesWhite
    }

    /** finishTurn: the other player moves next and the pass count restarts;
        the computer is set thinking when it is its turn. */
    method FinishTurn()
      modifies this`player, this`passCount, this`aiBusy
      ensures player == Opponent(old(player)) && passCount == 0
      ensures aiBusy == (old(aiBusy) || (vsComputer && player == White && !gameOver))
    {
      player := if player == Black then White else Black;
      passCount := 0;
      if vsComputer && player == White && !gameOver {
        aiBusy := true;
      }
    }

    /** processMoveResult: commits an accepted move, keeping the position
        before it as the ko reference and crediting the captures to the
        player who moved. */
    method ProcessMoveResult(res: MoveResult)
      requires res.Accepted?
      modifies this
      ensures previous == Some(old(board)) && board == res.board
      ensures Captures(old(player)) == old(Captures(player)) + res.captured
      ensures Captures(player) == old(Captures(Opponent(player)))
      ensures player == Opponent(old(player)) && passCount == 0
      ensures aiBusy == (old(aiBusy) || (vsComputer && player == White && !gameOver))
      ensures dead == old(dead) && gameOver == old(gameOver) && report == old(report)
    {
      previous := Some(board);
      board := res.board;
      if player == Black {
        capturesBlack := capturesBlack + res.captured;
      } else {
        capturesWhite := capturesWhite + res.captured;
      }
      FinishTurn();
    }

    /** updateFinalScore: the score of the current position. */
    method UpdateFinalScore()
      modifies this`report
      ensures report == Some(ScoreOf(board, dead, capturesBlack, capturesWhite))
    {
      var s := FinalScore(board, dead, capturesBlack, capturesWhite);
      report := Some(s);
    }

    /** markDeadStonesAuto: marks the dead groups of the board. */
    method MarkDeadStonesAuto()
      modifies this`dead
      ensures dead == AutoDead(board)
    {
      dead := {};
      var b := board;
      var groups := GetAllGroups(b);
      for i := 0 to |groups|
        invariant dead == DeadAmong(b, groups[..i])
      {
        dead := MarkGroup(b, groups, i, dead);
      }
      assert groups[..|groups|] == groups;
      DeadAmongGroups(b, groups);
    }

    /** endGame: the game is over, dead stones are marked and the score is
        computed. */
    method EndGame()
      modifies this
      ensures gameOver && dead == AutoDead(board)
      ensures report == Some(ScoreOf(board, dead, capturesBlack, capturesWhite))
      ensures board == old(board) && player == old(player) && previous == old(previous)
      ensures aiBusy == old(aiBusy) && passCount == old(passCount)
      ensures capturesBlack == old(capturesBlack) && capturesWhite == old(capturesWhite)
    {
      gameOver := true;
      MarkDeadStonesAuto();
      UpdateFinalScore();
    }

    /** handlePass: the second consecutive pass ends the game without a
        change of player; otherwise the other player moves next. */
    method HandlePass()
      modifies this
      ensures passCount == old(passCount) + 1
      ensures board == old(board) && previous == old(previous)
      ensures capturesBlack == old(capturesBlack) && capturesWhite == old(capturesWhite)
      ensures passCount >= 2 ==>
                gameOver && player == old(player) && aiBusy == old(aiBusy) &&
                dead == AutoDead(board) && report == Some(ScoreOf(board, dead, capturesBlack, capturesWhite))
      ensures passCount < 2 ==>
                gameOver == old(gameOver) && player == Opponent(old(player)) &&
                aiBusy == (old(aiBusy) || (vsComputer && player == White)) &&
                dead == old(dead) && report == old(report)
    {
      passCount := passCount + 1;
      if passCount >= 2 {
        EndGame();
      } else {
        player := if player == Black then White else Black;
        if vsComputer && player == White {
          aiBusy := true;
        }
      }
    }

    /** toggleDeadStone: flips the dead mark of the whole group at `p`,
        following the mark of `p` itself, and rescores. */
    method ToggleDeadStone(p: Coord)
      modifies this`dead, this`report
      ensures dead == Toggled(old(dead), Component(board, p), p)
      ensures report == Some(ScoreOf(board, dead, capturesBlack, capturesWhite))
    {
      FlipGroup(p);
      UpdateFinalScore();
    }

    /** The loop of toggleDeadStone over the group at `p`. */
    method FlipGroup(p: Coord)
      modifies this`dead
      ensures dead == Toggled(old(dead), Component(board, p), p)
    {
      var group := FindGroup(board, p);
      var isDead := p in dead;
      ghost var dead0 := dead;
      for i := 0 to |group|
        invariant dead == if isDead then dead0 - Elems(group[..i]) else dead0 + Elems(group[..i])
      {
        dead := ToggleCell(dead0, group, i, isDead, dead);
      }
      assert group[..|group|] == group;
    }

    /** handleMove: after the game only stones can be clicked, to toggle
        them dead; during the game clicks are ignored while the computer is
        thinking; otherwise the move is tried and, when accepted,
        committed. */
    method HandleMove(p: Coord)
      modifies this
      ensures old(gameOver) && At(old(board), p) != Empty ==>
                dead == Toggled(old(dead), Component(board, p), p) &&
                report == Some(ScoreOf(board, dead, capturesBlack, capturesWhite)) &&
                board == old(board) && player == old(player) && gameOver &&
                previous == old(previous) && passCount == old(passCount) && aiBusy == old(aiBusy) &&
                capturesBlack == old(capturesBlack) && capturesWhite == old(capturesWhite)
      ensures (old(gameOver) && At(old(board), p) == Empty) || (!old(gameOver) && old(aiBusy)) ==>
                unchanged(this)
      ensures !old(gameOver) && !old(aiBusy) ==>
                match Attempt(old(board), p, old(player), old(previous))
                case Refused(_) => unchanged(this)
                case Played(nb, removed) =>
                  previous == Some(old(board)) && board == nb &&
                  Captures(old(player)) == old(Captures(player)) + |removed| &&
                  Captures(Opponent(old(player))) == old(Captures(Opponent(player))) &&
                  player == Opponent(old(player)) && passCount == 0 && !gameOver &&
                  aiBusy == (vsComputer && player == White) &&
                  dead == old(dead) && report == old(report)
    {
      if gameOver {
        if At(board, p) != Empty {
          ToggleDeadStone(p);
        }
        return;
      }
      if aiBusy {
        return;
      }
      var res := AttemptMove(board, p, player, previous);
      if res.Accepted? {
        DistinctCard(res.capturedCoords);
        ProcessMoveResult(res);
      }
    }

    /** computerPlay: nothing once the game is over; otherwise White plays
        the selected move, or passes when it has none. */
    method ComputerPlay()
      modifies this
      ensures old(gameOver) ==> unchanged(this)
      ensures !old(gameOver) && (exists q: Coord :: Legal(old(board), old(previous), q)) ==>
                exists q: Coord ::
                  BestMove(old(board), old(previous), q) &&
                  var a := Attempt(old(board), q, White, old(previous));
                  previous == Some(old(board)) && board == a.board &&
                  Captures(old(player)) == old(Captures(player)) + |a.removed| &&
                  Captures(Opponent(old(player))) == old(Captures(Opponent(player))) &&
                  player == Opponent(old(player)) && passCount == 0 &&
                  aiBusy == (vsComputer && player == White) &&
                  dead == old(dead) && gameOver == old(gameOver) && report == old(report)
      ensures !old(gameOver) && (forall q: Coord :: !Legal(old(board), old(previous), q)) ==>
                passCount == old(passCount) + 1 &&
                board == old(board) && previous == old(previous) &&
                capturesBlack == old(capturesBlack) && capturesWhite == old(capturesWhite) &&
                (passCount >= 2 ==>
                   gameOver && player == old(player) && !aiBusy &&
                   dead == AutoDead(board) && report == Some(ScoreOf(board, dead, capturesBlack, capturesWhite))) &&
                (passCount < 2 ==>
                   gameOver == old(gameOver) && player == Opponent(old(player)) &&
                   aiBusy == (vsComputer && player == White) && dead == old(dead) && report == old(report))
    {
      if gameOver {
        return;
      }
      var choice, res := SelectMove(board, previous);
      if choice.Some? {
        CommitComputerMove(choice.value, res);
      } else {
        ComputerPass();
      }
    }

    /** The move branch of computerPlay: the thinking flag drops and the
        White move at `p`, which attemptMove reported as `res`, is
        committed. */
    method CommitComputerMove(ghost p: Coord, res: MoveResult)
      requires Attempt(board, p, White, previous).Played?
      requires Reports(res, Attempt(board, p, White, previous))
      modifies this
      ensures var a := Attempt(old(board), p, White, old(previous));
              previous == Some(old(board)) && board == a.board &&
              Captures(old(player)) == old(Captures(player)) + |a.removed| &&
              Captures(Opponent(old(player))) == old(Captures(Opponent(player))) &&
              player == Opponent(old(player)) && passCount == 0 &&
              aiBusy == (vsComputer && player == White && !gameOver) &&
              dead == old(dead) && gameOver == old(gameOver) && report == old(report)
    {
      DistinctCard(res.capturedCoords);
      aiBusy := false;
      ProcessMoveResult(res);
    }

    /** The pass branch of computerPlay: the thinking flag drops and White
        passes. */
    method ComputerPass()
      modifies this
      ensures passCount == old(passCount) + 1
      ensures board == old(board) && previous == old(previous)
      ensures capturesBlack == old(capturesBlack) && capturesWhite == old(capturesWhite)
      ensures passCount >= 2 ==>
                gameOver && player == old(player) && !aiBusy &&
                dead == AutoDead(board) && report == Some(ScoreOf(board, dead, capturesBlack, capturesWhite))
      ensures passCount < 2 ==>
                gameOver == old(gameOver) && player == Opponent(old(player)) &&
                aiBusy == (vsComputer && player == White) && dead == old(dead) && report == old(report)
    {
      aiBusy := false;
      HandlePass();
    }
  }
}
