/** The one-ply computer player: the move selection of computerPlay
    (weiqi/script.js line 229).

    Every cell is tried for White against the same ko reference; a legal
    move scores fifty points per captured stone minus its Manhattan distance
    to the centre (4, 4). The source sorts the legal moves by descending
    score with a stable sort and takes the first, that is, the first move of
    maximal score in row-major order. */
module Computer {
  import opened GoBoard
  import opened Connectivity
  import opened Moves

  /** Manhattan distance to the centre of the board. */
  function Distance(p: Coord): nat {
    Abs(p.r - 4) + Abs(p.c - 4)
  }

  /** The score of a legal move at `p` capturing `captured` stones. */
  function MoveScore(captured: nat, p: Coord): int {
    captured * 50 - Distance(p)
  }

  /** A capture always outweighs position: a move that captures more stones
      scores higher, wherever the two moves are. */
  lemma CaptureDominates(k1: nat, p1: Coord, k2: nat, p2: Coord)
    requires k1 < k2
    ensures MoveScore(k1, p1) < MoveScore(k2, p2)
  {
    assert Distance(p1) <= 8 && Distance(p2) <= 8;
  }

  /** White may play at `q`. */
  ghost predicate Legal(b: Board, prev: Option<Board>, q: Coord) {
    Attempt(b, q, White, prev).Played?
  }

  /** The score of the legal White move at `q`. */
  ghost function Value(b: Board, prev: Option<Board>, q: Coord): int
    requires Legal(b, prev, q)
  {
    MoveScore(|Attempt(b, q, White, prev).removed|, q)
  }

  /** `p` is the move computerPlay selects: a legal White move whose score
      no legal move exceeds, and which every earlier legal move, in
      row-major order, falls short of. */
  ghost predicate BestMove(b: Board, prev: Option<Board>, p: Coord) {
    Legal(b, prev, p) &&
    forall q: Coord :: Legal(b, prev, q) ==>
      Value(b, prev, q) <= Value(b, prev, p) &&
      (Before(q, p.r, p.c) ==> Value(b, prev, q) < Value(b, prev, p))
  }

  /** The selected move is determined by the position: at most one move is
      best. */
  lemma BestMoveUnique(b: Board, prev: Option<Board>, p: Coord, q: Coord)
    requires BestMove(b, prev, p) && BestMove(b, prev, q)
    ensures p == q
  {
    // Each would score strictly less than the other if it came first.
    assert !Before(q, p.r, p.c);
    assert !Before(p, q.r, q.c);
  }

  /** The selection has looked at every cell before (r, c): `best` is the
      first legal move of maximal score among them, if there is any legal
      move among them. */
  ghost predicate Selected(b: Board, prev: Option<Board>, best: Option<Coord>, bestScore: int, r: int, c: int) {
    (best.None? ==> forall q: Coord :: Before(q, r, c) ==> !Legal(b, prev, q)) &&
    (best.Some? ==>
       Before(best.value, r, c) && Legal(b, prev, best.value) && bestScore == Value(b, prev, best.value) &&
       forall q: Coord :: Before(q, r, c) && Legal(b, prev, q) ==>
         Value(b, prev, q) <= bestScore &&
         (Before(q, best.value.r, best.value.c) ==> Value(b, prev, q) < bestScore))
  }

  lemma SelectedRow(b: Board, prev: Option<Board>, best: Option<Coord>, bestScore: int, r: int)
    requires Selected(b, prev, best, bestScore, r, SIZE)
    ensures Selected(b, prev, best, bestScore, r + 1, 0)
  {
  }

  /** An illegal cell, or a legal one that does not beat the best so far,
      leaves the selection as it is. */
  lemma SelectedKeep(b: Board, prev: Option<Board>, best: Option<Coord>, bestScore: int, p: Coord)
    requires Selected(b, prev, best, bestScore, p.r, p.c)
    requires Legal(b, prev, p) ==> best.Some? && Value(b, prev, p) <= bestScore
    ensures Selected(b, prev, best, bestScore, p.r, p.c + 1)
  {
    forall q: Coord | Before(q, p.r, p.c + 1) && q != p
      ensures Before(q, p.r, p.c)
    {
    }
  }

  /** A legal cell that beats the best so far becomes the best. */
  lemma SelectedTake(b: Board, prev: Option<Board>, best: Option<Coord>, bestScore: int, p: Coord)
    requires Selected(b, prev, best, bestScore, p.r, p.c)
    requires Legal(b, prev, p) && (best.None? || Value(b, prev, p) > bestScore)
    ensures Selected(b, prev, Some(p), Value(b, prev, p), p.r, p.c + 1)
  {
    forall q: Coord | Before(q, p.r, p.c + 1) && q != p
      ensures Before(q, p.r, p.c)
    {
    }
  }

  /** One cell of computerPlay's scan. */
  method ConsiderCell(b: Board, prev: Option<Board>, p: Coord,
                      best: Option<Coord>, bestScore: int, bestRes: MoveResult)
    returns (best': Option<Coord>, bestScore': int, bestRes': MoveResult)
    requires Selected(b, prev, best, bestScore, p.r, p.c)
    requires best.Some? ==> Reports(bestRes, Attempt(b, best.value, White, prev))
    ensures Selected(b, prev, best', bestScore', p.r, p.c + 1)
    ensures best'.Some? ==> Reports(bestRes', Attempt(b, best'.value, White, prev))
  {
    best', bestScore', bestRes' := best, bestScore, bestRes;
    var res := AttemptMove(b, p, White, prev);
    if res.Accepted? {
      var score := MoveScore(res.captured, p);
      DistinctCard(res.capturedCoords);
      assert Legal(b, prev, p) && score == Value(b, prev, p);
      if best.None? || score > bestScore {
        SelectedTake(b, prev, best, bestScore, p);
        best', bestScore', bestRes' := Some(p), score, res;
      } else {
        SelectedKeep(b, prev, best, bestScore, p);
      }
    } else {
      SelectedKeep(b, prev, best, bestScore, p);
    }
  }

  /** One row of computerPlay's scan. */
  method ConsiderRow(b: Board, prev: Option<Board>, r: int,
                     best: Option<Coord>, bestScore: int, bestRes: MoveResult)
    returns (best': Option<Coord>, bestScore': int, bestRes': MoveResult)
    requires 0 <= r < SIZE
    requires Selected(b, prev, best, bestScore, r, 0)
    requires best.Some? ==> Reports(bestRes, Attempt(b, best.value, White, prev))
    ensures Selected(b, prev, best', bestScore', r + 1, 0)
    ensures best'.Some? ==> Reports(bestRes', Attempt(b, best'.value, White, prev))
  {
    best', bestScore', bestRes' := best, bestScore, bestRes;
    for c := 0 to SIZE
      invariant Selected(b, prev, best', bestScore', r, c)
      invariant best'.Some? ==> Reports(bestRes', Attempt(b, best'.value, White, prev))
    {
      best', bestScore', bestRes' := ConsiderCell(b, prev, Pos(r, c), best', bestScore', bestRes');
    }
    SelectedRow(b, prev, best', bestScore', r);
  }

  /** The move selection of computerPlay: no move when White has no legal
      move; otherwise a legal move, with what attemptMove reports for it,
      whose score no legal move exceeds and every earlier legal move falls
      short of. */
  method SelectMove(b: Board, prev: Option<Board>) returns (choice: Option<Coord>, res: MoveResult)
    ensures choice.None? <==> forall q: Coord :: !Legal(b, prev, q)
    ensures choice.Some? ==>
              BestMove(b, prev, choice.value) && Reports(res, Attempt(b, choice.value, White, prev))
  {
    choice, res := None, Rejected(Occupied);
    var bestScore := 0;
    for r := 0 to SIZE
      invariant Selected(b, prev, choice, bestScore, r, 0)
      invariant choice.Some? ==> Reports(res, Attempt(b, choice.value, White, prev))
    {
      choice, bestScore, res := ConsiderRow(b, prev, r, choice, bestScore, res);
    }
  }
}
