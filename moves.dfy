/** Move validation and application: attemptMove (weiqi/script.js lines 93-116).

    The source places the stone on a copy of the board, removes every
    neighbouring opponent group left without liberties (in the order of
    getNeighbors), and then refuses suicide and simple ko. `Attempt` states
    that outcome on values; `AttemptMove` is the source's procedure, proved
    to compute it. */
module Moves {
  import opened GoBoard
  import opened Connectivity

  /** Why a move is refused: the cell is taken (the source answers with an
      empty message), the stone would have no liberty (suicide), or the
      position would repeat the previous one (ko). */
  datatype Reject = Occupied | Suicide | Ko

  /** What attemptMove returns: a refusal, or the new board with the number
      and the coordinates of the captured stones. */
  datatype MoveResult =
    | Rejected(reason: Reject)
    | Accepted(board: Board, captured: nat, capturedCoords: seq<Coord>)

  /** The outcome of a move as a value: the captured stones as a set. */
  datatype Outcome = Refused(reason: Reject) | Played(board: Board, removed: set<Coord>)

  /** A board and the stones removed from it so far. */
  datatype Captures = Captures(board: Board, removed: set<Coord>)

  /** The opponent group at `n` is on the board and has no liberty. */
  predicate Doomed(b: Board, n: Coord, opp: Stone) {
    At(b, n) == opp && |Liberties(b, Component(b, n))| == 0
  }

  /** One neighbour in attemptMove's capture loop: an opponent stone whose
      group has no liberty left is removed with its whole group. */
  function CaptureAt(b: Board, n: Coord, opp: Stone): Captures {
    if Doomed(b, n, opp) then Captures(Clear(b, Component(b, n)), Component(b, n))
    else Captures(b, {})
  }

  /** The capture loop over the neighbours `ns`, in order, each step looking
      at the board the previous steps left. */
  function CaptureAll(b: Board, ns: seq<Coord>, opp: Stone): Captures
    decreases |ns|
  {
    if ns == [] then Captures(b, {})
    else
      var c := CaptureAll(b, ns[..|ns| - 1], opp);
      var d := CaptureAt(c.board, ns[|ns| - 1], opp);
      Captures(d.board, c.removed + d.removed)
  }

  /** The outcome of playing `player` at `p` on `b`, given the position
      before the previous move (`None` before any move). */
  function Attempt(b: Board, p: Coord, player: Stone, prev: Option<Board>): Outcome {
    if At(b, p) != Empty then Refused(Occupied)
    else
      var c := CaptureAll(Update(b, p, player), Neighbors(p), Opponent(player));
      if c.removed == {} && |Liberties(c.board, Component(c.board, p))| == 0 then Refused(Suicide)
      else if prev == Some(c.board) then Refused(Ko)
      else Played(c.board, c.removed)
  }

  // ---------------------------------------------------------------------
  // The captures do not depend on the order of the neighbours

  /** The doomed opponent groups among the neighbours `ns`, all judged on
      the board `b` itself. */
  function DoomedCells(b: Board, ns: seq<Coord>, opp: Stone): set<Coord>
    decreases |ns|
  {
    if ns == [] then {}
    else
      var n := ns[|ns| - 1];
      DoomedCells(b, ns[..|ns| - 1], opp) + DoomedGroup(b, n, opp)
  }

  /** The group at `n` when it is doomed, otherwise nothing. */
  function DoomedGroup(b: Board, n: Coord, opp: Stone): set<Coord> {
    if Doomed(b, n, opp) then Component(b, n) else {}
  }

  /** `d` is made of whole groups of colour `opp`. */
  ghost predicate WholeGroups(b: Board, opp: Stone, d: set<Coord>) {
    forall x :: x in d ==> At(b, x) == opp && Component(b, x) <= d
  }

  /** Removing whole opponent groups leaves every other opponent group, and
      its liberties, as they were. */
  lemma GroupUnaffected(b: Board, opp: Stone, d: set<Coord>, n: Coord)
    requires WholeGroups(b, opp, d)
    requires At(b, n) == opp && n !in d
    ensures Component(Clear(b, d), n) == Component(b, n)
    ensures Liberties(Clear(b, d), Component(b, n)) == Liberties(b, Component(b, n))
  {
    var b' := Clear(b, d);
    var c := Component(b, n);
    var c' := Component(b', n);
    ComponentProps(b, n);
    ComponentProps(b', n);
    assert c !! d by {
      forall x | x in c ensures x !in d {
        if x in d {
          ComponentSame(b, n, x);
        }
      }
    }
    ComponentLeast(b', n, c);
    ComponentLeast(b, n, c');
  }

  lemma ComponentWhole(b: Board, opp: Stone, d: set<Coord>, n: Coord)
    requires WholeGroups(b, opp, d) && At(b, n) == opp
    ensures WholeGroups(b, opp, d + Component(b, n))
  {
    ComponentProps(b, n);
    forall x | x in Component(b, n)
      ensures Component(b, x) == Component(b, n)
    {
      ComponentSame(b, n, x);
    }
  }

  /** One step of the capture loop on a board from which the whole groups
      `d` have already been removed. */
  lemma CaptureStep(b: Board, opp: Stone, d: set<Coord>, n: Coord)
    requires WholeGroups(b, opp, d)
    ensures CaptureAt(Clear(b, d), n, opp).board == Clear(b, d + DoomedGroup(b, n, opp))
    ensures d + CaptureAt(Clear(b, d), n, opp).removed == d + DoomedGroup(b, n, opp)
    ensures WholeGroups(b, opp, d + DoomedGroup(b, n, opp))
  {
    var b' := Clear(b, d);
    if At(b', n) == opp {
      GroupUnaffected(b, opp, d, n);
      if Doomed(b, n, opp) {
        ClearClear(b, d, Component(b, n));
        ComponentWhole(b, opp, d, n);
      } else {
        assert d + DoomedGroup(b, n, opp) == d;
      }
    } else if Doomed(b, n, opp) {
      ComponentProps(b, n);
      assert n in d;
      assert d + DoomedGroup(b, n, opp) == d;
    } else {
      assert d + DoomedGroup(b, n, opp) == d;
    }
  }

  /** The capture loop removes exactly the doomed groups of the original
      board, whatever the order of the neighbours. */
  lemma {:induction false} CaptureAllIsDoomed(b: Board, ns: seq<Coord>, opp: Stone)
    ensures CaptureAll(b, ns, opp) == Captures(Clear(b, DoomedCells(b, ns, opp)), DoomedCells(b, ns, opp))
    ensures WholeGroups(b, opp, DoomedCells(b, ns, opp))
    decreases |ns|
  {
    if ns == [] {
      BoardExt(Clear(b, {}), b);
    } else {
      CaptureAllIsDoomed(b, ns[..|ns| - 1], opp);
      CaptureStep(b, opp, DoomedCells(b, ns[..|ns| - 1], opp), ns[|ns| - 1]);
    }
  }

  lemma {:induction false} DoomedCellsIn(b: Board, ns: seq<Coord>, opp: Stone, q: Coord)
    ensures q in DoomedCells(b, ns, opp) <==> exists n :: n in ns && Doomed(b, n, opp) && q in Component(b, n)
    decreases |ns|
  {
    if ns != [] {
      var init := ns[..|ns| - 1];
      DoomedCellsIn(b, init, opp, q);
      assert ns == init + [ns[|ns| - 1]];
    }
  }

  // ---------------------------------------------------------------------
  // What attemptMove promises

  /** The stones a move of `player` at `p` captures: the opponent groups
      next to `p` that have no liberty once the stone is placed. */
  function Captured(b: Board, p: Coord, player: Stone): set<Coord> {
    DoomedCells(Update(b, p, player), Neighbors(p), Opponent(player))
  }

  /** The board after the move: the stone placed and the captured groups removed. */
  function Result(b: Board, p: Coord, player: Stone): Board {
    Clear(Update(b, p, player), Captured(b, p, player))
  }

  /** The three refusals: an occupied cell; a stone that captures nothing and
      whose group has no liberty; a resulting position equal to the previous
      one (never when there is none). */
  lemma AttemptRefusals(b: Board, p: Coord, player: Stone, prev: Option<Board>)
    ensures Attempt(b, p, player, prev) == Refused(Occupied) <==> At(b, p) != Empty
    ensures var placed := Update(b, p, player);
            Attempt(b, p, player, prev) == Refused(Suicide) <==>
              At(b, p) == Empty && Captured(b, p, player) == {} &&
              |Liberties(placed, Component(placed, p))| == 0
    ensures Attempt(b, p, player, prev) == Refused(Ko) <==>
              At(b, p) == Empty && Attempt(b, p, player, None).Played? && prev == Some(Result(b, p, player))
    ensures prev == None ==> Attempt(b, p, player, prev) != Refused(Ko)
  {
    var placed := Update(b, p, player);
    CaptureAllIsDoomed(placed, Neighbors(p), Opponent(player));
    if Captured(b, p, player) == {} {
      BoardExt(Clear(placed, {}), placed);
    }
  }

  /** The captured stones were opponent stones, and the placed stone is not
      among them. */
  lemma CapturedWereOpponents(b: Board, p: Coord, player: Stone)
    ensures p !in Captured(b, p, player)
    ensures forall q :: q in Captured(b, p, player) ==> At(b, q) == Opponent(player)
  {
    CaptureAllIsDoomed(Update(b, p, player), Neighbors(p), Opponent(player));
  }

  /** A capture always leaves the capturing stone a liberty: the cell of an
      adjacent captured stone. */
  lemma CaptureGivesLiberty(b: Board, p: Coord, player: Stone)
    requires Captured(b, p, player) != {}
    ensures var nb := Result(b, p, player);
            |Liberties(nb, Component(nb, p))| >= 1
  {
    var placed := Update(b, p, player);
    var opp := Opponent(player);
    var nb := Result(b, p, player);
    var q :| q in Captured(b, p, player);
    DoomedCellsIn(placed, Neighbors(p), opp, q);
    var n :| n in Neighbors(p) && Doomed(placed, n, opp) && q in Component(placed, n);
    ComponentProps(placed, n);
    DoomedCellsIn(placed, Neighbors(p), opp, n);
    ComponentProps(nb, p);
    assert n in Liberties(nb, Component(nb, p));
  }

  /** An accepted move: the stone stands at `p`, the captured stones are
      exactly the doomed opponent groups, each held an opponent stone and is
      now empty, no other cell changed, and the new stone's group has a
      liberty. */
  lemma AttemptPlayed(b: Board, p: Coord, player: Stone, prev: Option<Board>)
    requires Attempt(b, p, player, prev).Played?
    ensures Attempt(b, p, player, prev) == Played(Result(b, p, player), Captured(b, p, player))
    ensures var nb := Result(b, p, player);
            At(nb, p) == player &&
            (forall q :: q in Captured(b, p, player) ==> At(b, q) == Opponent(player) && At(nb, q) == Empty) &&
            (forall q: Coord :: q != p && q !in Captured(b, p, player) ==> At(nb, q) == At(b, q)) &&
            |Liberties(nb, Component(nb, p))| >= 1
  {
    CaptureAllIsDoomed(Update(b, p, player), Neighbors(p), Opponent(player));
    CapturedWereOpponents(b, p, player);
    if Captured(b, p, player) != {} {
      CaptureGivesLiberty(b, p, player);
    }
  }

  // ---------------------------------------------------------------------
  // The procedure of the source

  /** `res` is what attemptMove reports for the outcome `o`: the same
      refusal, or the same board with the captured stones listed once each
      and counted. */
  predicate Reports(res: MoveResult, o: Outcome) {
    match o
    case Refused(reason) => res == Rejected(reason)
    case Played(board, removed) =>
      res.Accepted? && res.board == board && Elems(res.capturedCoords) == removed &&
      Distinct(res.capturedCoords) && res.captured == |res.capturedCoords|
  }

  lemma DistinctAppend(s: seq<Coord>, t: seq<Coord>)
    requires Distinct(s) && Distinct(t) && Elems(s) !! Elems(t)
    ensures Distinct(s + t)
  {
    forall i, j | 0 <= i < j < |s + t|
      ensures (s + t)[i] != (s + t)[j]
    {
      if i < |s| && j >= |s| {
        assert (s + t)[i] in Elems(s) && (s + t)[j] in Elems(t);
      }
    }
  }

  lemma CaptureAllStep(b: Board, ns: seq<Coord>, k: int, opp: Stone)
    requires 0 <= k < |ns|
    ensures var c := CaptureAll(b, ns[..k], opp);
            var d := CaptureAt(c.board, ns[k], opp);
            CaptureAll(b, ns[..k + 1], opp) == Captures(d.board, c.removed + d.removed)
  {
    assert ns[..k + 1][..k] == ns[..k];
  }

  /** The inner loop of a capture (lines 104-108): empty every cell of
      `group`, counting and recording each. */
  method RemoveGroup(board: Board, group: seq<Coord>, count: nat, coords: seq<Coord>)
    returns (board': Board, count': nat, coords': seq<Coord>)
    ensures board' == Clear(board, Elems(group))
    ensures coords' == coords + group && count' == count + |group|
  {
    board', count', coords' := board, count, coords;
    BoardExt(Clear(board, {}), board);
    assert Elems(group[..0]) == {};
    for j := 0 to |group|
      invariant board' == Clear(board, Elems(group[..j]))
      invariant coords' == coords + group[..j] && count' == count + j
    {
      var q := group[j];
      ClearStep(board, Elems(group[..j]), q);
      assert Elems(group[..j + 1]) == Elems(group[..j]) + {q} by {
        assert group[..j + 1] == group[..j] + [q];
      }
      board' := Update(board', q, Empty);
      count' := count' + 1;
      coords' := coords' + [q];
    }
    assert group[..|group|] == group;
  }

  /** The capture loop has handled the neighbours `ns[..k]`: the board and
      the recorded coordinates are those `CaptureAll` gives, each recorded
      once and empty now. */
  ghost predicate CapturedSoFar(placed: Board, ns: seq<Coord>, k: int, opp: Stone,
                                next: Board, count: nat, coords: seq<Coord>)
    requires 0 <= k <= |ns|
  {
    CaptureAll(placed, ns[..k], opp) == Captures(next, Elems(coords)) &&
    Distinct(coords) && count == |coords| &&
    forall q :: q in coords ==> At(next, q) == Empty
  }

  lemma CapturedSoFarStep(placed: Board, ns: seq<Coord>, k: int, opp: Stone,
                          next: Board, count: nat, coords: seq<Coord>,
                          next': Board, count': nat, coords': seq<Coord>)
    requires 0 <= k < |ns|
    requires CapturedSoFar(placed, ns, k, opp, next, count, coords)
    requires next' == CaptureAt(next, ns[k], opp).board
    requires Elems(coords') == Elems(coords) + CaptureAt(next, ns[k], opp).removed
    requires Distinct(coords') && count' == |coords'|
    requires forall q :: q in coords' ==> At(next', q) == Empty
    ensures CapturedSoFar(placed, ns, k + 1, opp, next', count', coords')
  {
    CaptureAllStep(placed, ns, k, opp);
  }

  /** One neighbour `n` of the capture loop (lines 101-110): an opponent
      stone whose group has no liberty is removed with its group. */
  method CaptureNeighbor(next: Board, n: Coord, opp: Stone, count: nat, coords: seq<Coord>)
    returns (next': Board, count': nat, coords': seq<Coord>)
    requires Distinct(coords) && count == |coords|
    requires forall q :: q in coords ==> At(next, q) == Empty
    ensures next' == CaptureAt(next, n, opp).board
    ensures Elems(coords') == Elems(coords) + CaptureAt(next, n, opp).removed
    ensures Distinct(coords') && count' == |coords'|
    ensures forall q :: q in coords' ==> At(next', q) == Empty
  {
    next', count', coords' := next, count, coords;
    if At(next, n) == opp {
      var group := FindGroup(next, n);
      var libs := CountLiberties(next, group);
      if libs == 0 {
        ComponentProps(next, n);
        DistinctAppend(coords, group);
        next', count', coords' := RemoveGroup(next, group, count, coords);
      }
    }
  }

  /** The capture loop of attemptMove (lines 100-111) over the neighbours of
      the placed stone at `p`. */
  method CaptureNeighbors(placed: Board, p: Coord, opp: Stone) returns (next: Board, count: nat, coords: seq<Coord>)
    ensures CaptureAll(placed, Neighbors(p), opp) == Captures(next, Elems(coords))
    ensures Distinct(coords) && count == |coords|
  {
    next, count, coords := placed, 0, [];
    var ns := Neighbors(p);
    for k := 0 to |ns|
      invariant CapturedSoFar(placed, ns, k, opp, next, count, coords)
    {
      var next', count', coords' := CaptureNeighbor(next, ns[k], opp, count, coords);
      CapturedSoFarStep(placed, ns, k, opp, next, count, coords, next', count', coords');
      next, count, coords := next', count', coords';
    }
    assert ns[..|ns|] == ns;
  }

  /** attemptMove: refuse an occupied cell; place the stone on a copy of the
      board; remove the neighbouring opponent groups left without liberty;
      refuse suicide, then ko; otherwise return the new board and the
      captured stones. */
  method AttemptMove(b: Board, p: Coord, player: Stone, prev: Option<Board>) returns (res: MoveResult)
    ensures Reports(res, Attempt(b, p, player, prev))
  {
    if At(b, p) != Empty {
      return Rejected(Occupied);
    }
    var next, count, coords := CaptureNeighbors(Update(b, p, player), p, Opponent(player));
    var myGroup := FindGroup(next, p);
    var myLibs := CountLiberties(next, myGroup);
    DistinctCard(coords);
    if count == 0 && myLibs == 0 {
      return Rejected(Suicide);
    }
    if prev == Some(next) {
      return Rejected(Ko);
    }
    return Accepted(next, count, coords);
  }
}
