/** End-of-game scoring: territory (weiqi/script.js lines 140-159) and the
    final score (line 237). */
module Scoring {
  import opened GoBoard
  import opened Connectivity

  // ---------------------------------------------------------------------
  // Territory

  /** The owner of the empty region around the empty cell `q`. */
  function RegionOwner(b: Board, q: Coord): Option<Stone> {
    OwnerOf(BorderColors(b, Component(b, q)))
  }

  /** The empty cells. */
  function EmptyCells(b: Board): set<Coord> {
    set q | q in AllCoords() && At(b, q) == Empty
  }

  /** The empty cells whose region is bordered by `color` alone. */
  function OwnedBy(b: Board, color: Stone): set<Coord> {
    set q | q in AllCoords() && At(b, q) == Empty && RegionOwner(b, q) == Some(color)
  }

  /** Each empty cell is counted for one colour at most, so the two
      territories together never exceed the empty cells. */
  lemma TerritoryBound(b: Board)
    ensures |OwnedBy(b, Black)| + |OwnedBy(b, White)| <= |EmptyCells(b)|
  {
    var both := OwnedBy(b, Black) + OwnedBy(b, White);
    assert OwnedBy(b, Black) !! OwnedBy(b, White);
    assert |both| == |OwnedBy(b, Black)| + |OwnedBy(b, White)|;
    SubsetCard(both, EmptyCells(b));
  }

  /** A region is owned as a whole: every cell of it has the same owner. */
  lemma RegionOwnerUniform(b: Board, p: Coord, q: Coord)
    requires q in Component(b, p)
    ensures RegionOwner(b, q) == RegionOwner(b, p)
  {
    ComponentSame(b, p, q);
  }

  /** The cells of the regions found at `reps`. */
  ghost function Regions(b: Board, reps: seq<Coord>): set<Coord>
    decreases |reps|
  {
    if |reps| == 0 then {}
    else Regions(b, reps[..|reps| - 1]) + Component(b, reps[|reps| - 1])
  }

  /** Each region of `reps` was new when it was found. */
  ghost predicate Fresh(b: Board, reps: seq<Coord>)
    decreases |reps|
  {
    |reps| == 0 ||
    (Fresh(b, reps[..|reps| - 1]) && reps[|reps| - 1] !in Regions(b, reps[..|reps| - 1]))
  }

  /** The total size of the regions of `reps` owned by `color`. */
  ghost function OwnedSize(b: Board, reps: seq<Coord>, color: Stone): nat
    decreases |reps|
  {
    if |reps| == 0 then 0
    else
      var last := reps[|reps| - 1];
      OwnedSize(b, reps[..|reps| - 1], color)
        + (if RegionOwner(b, last) == Some(color) then |Component(b, last)| else 0)
  }

  /** The cells of `vs` whose region is bordered by `color` alone. */
  ghost function Owned(b: Board, color: Stone, vs: set<Coord>): set<Coord> {
    set q | q in vs && RegionOwner(b, q) == Some(color)
  }

  /** A cell outside the found regions shares no cell with them. */
  lemma {:induction false} RegionsDisjoint(b: Board, reps: seq<Coord>, p: Coord)
    requires p !in Regions(b, reps)
    ensures Component(b, p) !! Regions(b, reps)
    decreases |reps|
  {
    if |reps| > 0 {
      var last := reps[|reps| - 1];
      RegionsDisjoint(b, reps[..|reps| - 1], p);
      ComponentsDisjointOrEqual(b, p, last);
      ComponentProps(b, p);
    }
  }

  /** The regions of `reps` consist of empty cells. */
  lemma {:induction false} RegionsEmpty(b: Board, reps: seq<Coord>, q: Coord)
    requires forall i :: 0 <= i < |reps| ==> At(b, reps[i]) == Empty
    requires q in Regions(b, reps)
    ensures At(b, q) == Empty
    decreases |reps|
  {
    var last := reps[|reps| - 1];
    if q in Component(b, last) {
      ComponentProps(b, last);
    } else {
      RegionsEmpty(b, reps[..|reps| - 1], q);
    }
  }

  /** The owned cells of one region: all of it or none. */
  lemma OwnedPart(b: Board, p: Coord, color: Stone)
    ensures Owned(b, color, Component(b, p)) ==
            if RegionOwner(b, p) == Some(color) then Component(b, p) else {}
  {
    ComponentProps(b, p);
    forall q | q in Component(b, p)
      ensures RegionOwner(b, q) == RegionOwner(b, p)
    {
      RegionOwnerUniform(b, p, q);
    }
  }

  lemma OwnedUnion(b: Board, color: Stone, s: set<Coord>, t: set<Coord>)
    requires s !! t
    ensures Owned(b, color, s + t) == Owned(b, color, s) + Owned(b, color, t)
    ensures |Owned(b, color, s + t)| == |Owned(b, color, s)| + |Owned(b, color, t)|
  {
    assert Owned(b, color, s) <= s;
    assert Owned(b, color, t) <= t;
  }

  /** The tally kept for the fresh regions `reps` is the number of owned
      cells among them. */
  lemma {:induction false} OwnedSizeCount(b: Board, reps: seq<Coord>, color: Stone)
    requires Fresh(b, reps)
    ensures OwnedSize(b, reps, color) == |Owned(b, color, Regions(b, reps))|
    decreases |reps|
  {
    if |reps| > 0 {
      var init, last := reps[..|reps| - 1], reps[|reps| - 1];
      var done, reg := Regions(b, init), Component(b, last);
      assert Regions(b, reps) == reg + done;
      assert reg !! done by {
        RegionsDisjoint(b, init, last);
      }
      assert |Owned(b, color, reg + done)| == |Owned(b, color, reg)| + |Owned(b, color, done)| by {
        OwnedUnion(b, color, reg, done);
      }
      assert |Owned(b, color, reg)| == if RegionOwner(b, last) == Some(color) then |reg| else 0 by {
        OwnedPart(b, last, color);
      }
      OwnedSizeCount(b, init, color);
    }
  }

  /** calculateTerritory's scan has reached (r, c): the regions found so far
      are fresh regions of empty cells, every empty cell before (r, c) lies in
      one of them, and the tallies are the owned sizes of the regions. */
  ghost predicate TerritoryScanned(b: Board, reps: seq<Coord>, black: nat, white: nat, r: int, c: int) {
    EmptyReps(b, reps) && Fresh(b, reps) && Covers(b, reps, r, c) &&
    black == OwnedSize(b, reps, Black) && white == OwnedSize(b, reps, White)
  }

  /** The representatives are empty cells. */
  ghost predicate EmptyReps(b: Board, reps: seq<Coord>) {
    forall i :: 0 <= i < |reps| ==> At(b, reps[i]) == Empty
  }

  /** Every empty cell before (r, c) lies in a found region. */
  ghost predicate Covers(b: Board, reps: seq<Coord>, r: int, c: int) {
    forall q: Coord :: Before(q, r, c) && At(b, q) == Empty ==> q in Regions(b, reps)
  }

  lemma TerritoryScannedRow(b: Board, reps: seq<Coord>, black: nat, white: nat, r: int)
    requires TerritoryScanned(b, reps, black, white, r, SIZE)
    ensures TerritoryScanned(b, reps, black, white, r + 1, 0)
  {
  }

  lemma TerritoryScannedSkip(b: Board, reps: seq<Coord>, black: nat, white: nat, p: Coord)
    requires TerritoryScanned(b, reps, black, white, p.r, p.c)
    requires At(b, p) != Empty || p in Regions(b, reps)
    ensures TerritoryScanned(b, reps, black, white, p.r, p.c + 1)
  {
    forall q: Coord | Before(q, p.r, p.c + 1) && At(b, q) == Empty
      ensures q in Regions(b, reps)
    {
      if q != p {
        assert Before(q, p.r, p.c);
      }
    }
  }

  /** Appending a representative adds its region, its freshness and its
      owned size. */
  lemma AppendRegion(b: Board, reps: seq<Coord>, p: Coord)
    ensures Regions(b, reps + [p]) == Regions(b, reps) + Component(b, p)
    ensures Fresh(b, reps + [p]) == (Fresh(b, reps) && p !in Regions(b, reps))
    ensures forall color: Stone :: OwnedSize(b, reps + [p], color) ==
              OwnedSize(b, reps, color) + (if RegionOwner(b, p) == Some(color) then |Component(b, p)| else 0)
  {
    var reps' := reps + [p];
    assert reps'[..|reps'| - 1] == reps;
  }

  /** A new region found at an unvisited empty cell adds its size to the
      tally of its owner. */
  lemma TerritoryScannedAdd(b: Board, reps: seq<Coord>, black: nat, white: nat, p: Coord, black': nat, white': nat)
    requires TerritoryScanned(b, reps, black, white, p.r, p.c)
    requires At(b, p) == Empty && p !in Regions(b, reps)
    requires black' == black + if RegionOwner(b, p) == Option<Stone>.Some(Black) then |Component(b, p)| else 0
    requires white' == white + if RegionOwner(b, p) == Option<Stone>.Some(White) then |Component(b, p)| else 0
    ensures TerritoryScanned(b, reps + [p], black', white', p.r, p.c + 1)
  {
    var reps' := reps + [p];
    assert Fresh(b, reps') && black' == OwnedSize(b, reps', Black) && white' == OwnedSize(b, reps', White)
        && Regions(b, reps') == Regions(b, reps) + Component(b, p) by {
      AppendRegion(b, reps, p);
    }
    assert EmptyReps(b, reps') by {
      forall i | 0 <= i < |reps'| ensures At(b, reps'[i]) == Empty {
        if i < |reps| {
          assert reps'[i] == reps[i];
        }
      }
    }
    assert Covers(b, reps', p.r, p.c + 1) by {
      forall q: Coord | Before(q, p.r, p.c + 1) && At(b, q) == Empty
        ensures q in Regions(b, reps')
      {
        if q == p {
          ComponentProps(b, p);
        } else {
          assert Before(q, p.r, p.c);
        }
      }
    }
  }

  /** One cell of calculateTerritory's scan: an empty cell not yet visited
      starts a flood fill, whose region is credited to its owner. */
  method TerritoryCell(b: Board, p: Coord, visited: set<Coord>, black: nat, white: nat, ghost reps: seq<Coord>)
    returns (visited': set<Coord>, black': nat, white': nat, ghost reps': seq<Coord>)
    requires TerritoryScanned(b, reps, black, white, p.r, p.c) && visited == Regions(b, reps)
    ensures TerritoryScanned(b, reps', black', white', p.r, p.c + 1) && visited' == Regions(b, reps')
    ensures var found := At(b, p) == Empty && p !in visited;
            reps' == (if found then reps + [p] else reps) &&
            visited' == (if found then visited + Component(b, p) else visited) &&
            black' == black + (if found && RegionOwner(b, p) == Option<Stone>.Some(Black) then |Component(b, p)| else 0) &&
            white' == white + (if found && RegionOwner(b, p) == Option<Stone>.Some(White) then |Component(b, p)| else 0)
  {
    visited', black', white', reps' := visited, black, white, reps;
    if At(b, p) == Empty && p !in visited {
      var area := FloodFill(b, p);
      assert Elems(area.coords) == Component(b, p) && area.size == |Component(b, p)|
          && area.owner == RegionOwner(b, p);
      reps' := reps + [p];
      assert Regions(b, reps') == visited + Component(b, p) by {
        AppendRegion(b, reps, p);
      }
      visited' := visited + Elems(area.coords);
      if area.owner == Option<Stone>.Some(Black) {
        black' := black + area.size;
      } else if area.owner == Option<Stone>.Some(White) {
        white' := white + area.size;
      }
      TerritoryScannedAdd(b, reps, black, white, p, black', white');
    } else {
      TerritoryScannedSkip(b, reps, black, white, p);
    }
  }

  /** At the end of the scan the found regions are exactly the empty cells. */
  lemma TerritoryScannedAll(b: Board, reps: seq<Coord>, black: nat, white: nat)
    requires TerritoryScanned(b, reps, black, white, SIZE, 0)
    ensures black == |OwnedBy(b, Black)| && white == |OwnedBy(b, White)|
  {
    forall color: Stone ensures Owned(b, color, Regions(b, reps)) == OwnedBy(b, color) {
      forall q | q in Regions(b, reps) ensures At(b, q) == Empty {
        RegionsEmpty(b, reps, q);
      }
    }
    OwnedSizeCount(b, reps, Black);
    OwnedSizeCount(b, reps, White);
  }

  /** One row of calculateTerritory's scan. */
  method TerritoryRow(b: Board, r: int, visited: set<Coord>, black: nat, white: nat, ghost reps: seq<Coord>)
    returns (visited': set<Coord>, black': nat, white': nat, ghost reps': seq<Coord>)
    requires 0 <= r < SIZE
    requires TerritoryScanned(b, reps, black, white, r, 0) && visited == Regions(b, reps)
    ensures TerritoryScanned(b, reps', black', white', r + 1, 0) && visited' == Regions(b, reps')
  {
    visited', black', white', reps' := visited, black, white, reps;
    for c := 0 to SIZE
      invariant TerritoryScanned(b, reps', black', white', r, c) && visited' == Regions(b, reps')
    {
      visited', black', white', reps' := TerritoryCell(b, Pos(r, c), visited', black', white', reps');
    }
    TerritoryScannedRow(b, reps', black', white', r);
  }

  /** calculateTerritory: every empty region is counted once, for the one
      colour that borders it, if any. */
  method CalculateTerritory(b: Board) returns (black: nat, white: nat)
    ensures black == |OwnedBy(b, Black)| && white == |OwnedBy(b, White)|
  {
    black, white := 0, 0;
    var visited: set<Coord> := {};
    ghost var reps: seq<Coord> := [];
    for r := 0 to SIZE
      invariant TerritoryScanned(b, reps, black, white, r, 0) && visited == Regions(b, reps)
    {
      visited, black, white, reps := TerritoryRow(b, r, visited, black, white, reps);
    }
    TerritoryScannedAll(b, reps, black, white);
  }

  // ---------------------------------------------------------------------
  // Final score (updateFinalScore, line 237)

  /** Komi, 7.5 points, counted in half points. */
  const KOMI_HALVES: nat := 15

  /** The scores in half points, and the verdict. */
  datatype Score = Score(blackHalves: nat, whiteHalves: nat, blackWins: bool)

  /** The colour a dead stone on a cell of colour `c` credits: White for a
      black stone, Black for anything else. */
  function Credit(c: Cell): (s: Stone)
    ensures c != Empty ==> s == Opponent(c)
  {
    if c == Black then White else Black
  }

  /** The cells of `s` whose removal credits `color`. */
  ghost function CreditedTo(b: Board, s: set<Coord>, color: Stone): set<Coord> {
    set q | q in s && Credit(At(b, q)) == color
  }

  /** The verdict on the points `black` and `white` (komi not yet added):
      White gets 7.5 more, so there is never a tie, and Black wins exactly
      when Black has more points, White exactly when White has. */
  function Tally(black: nat, white: nat): (s: Score)
    ensures s.blackHalves == 2 * black && s.whiteHalves == 2 * white + KOMI_HALVES
    ensures s.blackHalves != s.whiteHalves
    ensures s.blackWins <==> s.blackHalves > s.whiteHalves
    ensures !s.blackWins <==> s.whiteHalves > s.blackHalves
  {
    Score(2 * black, 2 * white + KOMI_HALVES, 2 * black > 2 * white + KOMI_HALVES)
  }

  /** The final score for the board `b` with the stones `dead` marked dead
      and the capture tallies `capBlack` and `capWhite`: the dead stones are
      removed before the territory is counted and each credits one bonus
      point. */
  ghost function ScoreOf(b: Board, dead: set<Coord>, capBlack: nat, capWhite: nat): Score {
    var scoring := Clear(b, dead);
    Tally(|OwnedBy(scoring, Black)| + capBlack + |CreditedTo(b, dead, Black)|,
          |OwnedBy(scoring, White)| + capWhite + |CreditedTo(b, dead, White)|)
  }

  /** Each dead stone gives exactly one bonus point, to one colour. */
  lemma BonusTotal(b: Board, dead: set<Coord>)
    ensures |CreditedTo(b, dead, Black)| + |CreditedTo(b, dead, White)| == |dead|
  {
    assert CreditedTo(b, dead, Black) + CreditedTo(b, dead, White) == dead;
  }

  /** Territory and bonus together never exceed the empty cells of the
      scoring board plus the dead stones. */
  lemma ScoreBound(b: Board, dead: set<Coord>, capBlack: nat, capWhite: nat)
    ensures var s := ScoreOf(b, dead, capBlack, capWhite);
            s.blackHalves + s.whiteHalves <=
              2 * (|EmptyCells(Clear(b, dead))| + |dead| + capBlack + capWhite) + KOMI_HALVES
  {
    TerritoryBound(Clear(b, dead));
    BonusTotal(b, dead);
  }

  lemma CreditedStep(b: Board, s: set<Coord>, q: Coord, color: Stone)
    requires q !in s
    ensures |CreditedTo(b, s + {q}, color)| ==
            |CreditedTo(b, s, color)| + if Credit(At(b, q)) == color then 1 else 0
  {
    if Credit(At(b, q)) == color {
      assert CreditedTo(b, s + {q}, color) == CreditedTo(b, s, color) + {q};
    } else {
      assert CreditedTo(b, s + {q}, color) == CreditedTo(b, s, color);
    }
  }

  /** One dead stone of updateFinalScore's loop: credit the opposite colour,
      then empty the cell. */
  method RemoveDead(b: Board, done: set<Coord>, q: Coord, temp: Board, bonusBlack: nat, bonusWhite: nat)
    returns (temp': Board, bonusBlack': nat, bonusWhite': nat)
    requires q !in done && temp == Clear(b, done)
    requires bonusBlack == |CreditedTo(b, done, Black)| && bonusWhite == |CreditedTo(b, done, White)|
    ensures temp' == Clear(b, done + {q})
    ensures bonusBlack' == |CreditedTo(b, done + {q}, Black)| && bonusWhite' == |CreditedTo(b, done + {q}, White)|
  {
    bonusBlack', bonusWhite' := bonusBlack, bonusWhite;
    if At(temp, q) == Black {
      bonusWhite' := bonusWhite + 1;
    } else {
      bonusBlack' := bonusBlack + 1;
    }
    temp' := Update(temp, q, Empty);
    ClearStep(b, done, q);
    CreditedStep(b, done, q, Black);
    CreditedStep(b, done, q, White);
  }

  /** The loop of updateFinalScore over the dead stones. */
  method RemoveAllDead(b: Board, dead: set<Coord>) returns (temp: Board, bonusBlack: nat, bonusWhite: nat)
    ensures temp == Clear(b, dead)
    ensures bonusBlack == |CreditedTo(b, dead, Black)| && bonusWhite == |CreditedTo(b, dead, White)|
  {
    temp := b;
    bonusBlack, bonusWhite := 0, 0;
    var todo := dead;
    assert dead - todo == {};
    BoardExt(Clear(b, {}), b);
    while todo != {}
      invariant todo <= dead && temp == Clear(b, dead - todo)
      invariant bonusBlack == |CreditedTo(b, dead - todo, Black)|
      invariant bonusWhite == |CreditedTo(b, dead - todo, White)|
      decreases |todo|
    {
      var q :| q in todo;
      temp, bonusBlack, bonusWhite := RemoveDead(b, dead - todo, q, temp, bonusBlack, bonusWhite);
      assert dead - (todo - {q}) == (dead - todo) + {q};
      todo := todo - {q};
    }
    assert dead - todo == dead;
  }

  /** updateFinalScore: removes the dead stones from a copy of the board,
      counting the bonus, then adds territory, captures and komi. */
  method FinalScore(b: Board, dead: set<Coord>, capBlack: nat, capWhite: nat) returns (s: Score)
    ensures s == ScoreOf(b, dead, capBlack, capWhite)
  {
    var temp, bonusBlack, bonusWhite := RemoveAllDead(b, dead);
    var terrBlack, terrWhite := CalculateTerritory(temp);
    s := Tally(terrBlack + capBlack + bonusBlack, terrWhite + capWhite + bonusWhite);
  }
}
