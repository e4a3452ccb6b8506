/** The end-of-game dead-stone heuristic: markDeadStonesAuto
    (weiqi/script.js lines 118-138).

    A group with fewer than two liberties is dead, unless it is in a seki:
    some stone of the other colour next to one of its liberties belongs to
    a group that has two liberties or fewer itself. */
module DeadStones {
  import opened GoBoard
  import opened Connectivity

  /** `n` holds a stone of the colour opposed to `color` whose group has at
      most two liberties. */
  predicate Threat(b: Board, n: Coord, color: Cell) {
    At(b, n) != Empty && At(b, n) != color && |Liberties(b, Component(b, n))| <= 2
  }

  /** The liberty `l` touches a threatening opposing stone. */
  ghost predicate ThreatNear(b: Board, l: Coord, color: Cell) {
    exists n :: n in Neighbors(l) && Threat(b, n, color)
  }

  /** The group made of `g`, of colour `color`, counts as a seki. */
  ghost predicate Seki(b: Board, g: set<Coord>, color: Cell) {
    exists l :: l in Liberties(b, g) && ThreatNear(b, l, color)
  }

  /** The heuristic's verdict on the group of the stone `p`. */
  ghost predicate DeadGroup(b: Board, p: Coord) {
    var g := Component(b, p);
    |Liberties(b, g)| < 2 && !Seki(b, g, At(b, p))
  }

  /** The stones the heuristic marks dead. */
  ghost function AutoDead(b: Board): set<Coord> {
    set q | q in Stones(b) && DeadGroup(b, q)
  }

  // ---------------------------------------------------------------------
  // What the heuristic promises

  /** Every stone of a group gets the same verdict. */
  lemma DeadGroupUniform(b: Board, p: Coord, q: Coord)
    requires q in Component(b, p)
    ensures DeadGroup(b, q) == DeadGroup(b, p)
  {
    ComponentSame(b, p, q);
    ComponentProps(b, p);
  }

  /** A marked stone is a stone whose group has at most one liberty. */
  lemma AutoDeadFewLiberties(b: Board, q: Coord)
    requires q in AutoDead(b)
    ensures At(b, q) != Empty
    ensures |Liberties(b, Component(b, q))| <= 1
  {
  }

  /** Marking is by whole groups: the group of a marked stone is marked. */
  lemma AutoDeadWholeGroups(b: Board, q: Coord)
    requires q in AutoDead(b)
    ensures Component(b, q) <= AutoDead(b)
  {
    ComponentProps(b, q);
    forall x | x in Component(b, q) ensures x in AutoDead(b) {
      DeadGroupUniform(b, q, x);
    }
  }

  /** No marked group lies next, through one of its liberties, to an
      opposing group with two liberties or fewer. */
  lemma AutoDeadNoSeki(b: Board, q: Coord, l: Coord, n: Coord)
    requires q in AutoDead(b)
    requires l in Liberties(b, Component(b, q)) && n in Neighbors(l)
    requires At(b, n) != Empty && At(b, n) != At(b, q)
    ensures |Liberties(b, Component(b, n))| > 2
  {
    assert !ThreatNear(b, l, At(b, q));
    assert !Threat(b, n, At(b, q));
  }

  // ---------------------------------------------------------------------
  // The procedure of the source

  /** One liberty of the seki test: looks at the stones around `l`. */
  method ScanLiberty(b: Board, l: Coord, color: Cell, isSeki: bool) returns (isSeki': bool)
    ensures isSeki' == (isSeki || ThreatNear(b, l, color))
  {
    isSeki' := isSeki;
    var ns := Neighbors(l);
    ghost var found := false;
    for j := 0 to |ns|
      invariant found == exists k :: 0 <= k < j && Threat(b, ns[k], color)
      invariant isSeki' == (isSeki || found)
    {
      var n := ns[j];
      if At(b, n) != Empty && At(b, n) != color {
        var grp := FindGroup(b, n);
        var libs := CountLiberties(b, grp);
        if libs <= 2 {
          isSeki' := true;
        }
      }
      found := found || Threat(b, n, color);
    }
  }

  /** The seki test of markDeadStonesAuto for the group `g` of colour
      `color`. */
  method IsSeki(b: Board, g: seq<Coord>, color: Cell) returns (isSeki: bool)
    ensures isSeki == Seki(b, Elems(g), color)
  {
    var libs := LibertyCoords(b, g);
    isSeki := false;
    var todo := libs;
    while todo != {}
      invariant todo <= libs
      invariant isSeki == exists l :: l in libs - todo && ThreatNear(b, l, color)
      decreases |todo|
    {
      var l :| l in todo;
      isSeki := ScanLiberty(b, l, color, isSeki);
      todo := todo - {l};
    }
  }

  /** The verdict of markDeadStonesAuto on one group of getAllGroups. */
  method GroupIsDead(b: Board, g: seq<Coord>) returns (dead: bool)
    requires IsGroup(b, g)
    ensures dead == DeadGroup(b, g[0])
  {
    var color := At(b, g[0]);
    var libs := CountLiberties(b, g);
    if libs <= 2 {
      var isSeki := IsSeki(b, g, color);
      if isSeki {
        return false;
      }
    }
    dead := libs < 2;
  }

  /** The cells of the groups of `gs` whose verdict is dead. */
  ghost function DeadAmong(b: Board, gs: seq<seq<Coord>>): set<Coord>
    decreases |gs|
  {
    if gs == [] then {}
    else
      var g := gs[|gs| - 1];
      DeadAmong(b, gs[..|gs| - 1]) + if |g| > 0 && DeadGroup(b, g[0]) then Elems(g) else {}
  }

  lemma DeadAmongStep(b: Board, gs: seq<seq<Coord>>, i: int)
    requires 0 <= i < |gs|
    ensures DeadAmong(b, gs[..i + 1]) ==
            DeadAmong(b, gs[..i]) + if |gs[i]| > 0 && DeadGroup(b, gs[i][0]) then Elems(gs[i]) else {}
  {
    assert gs[..i + 1][..i] == gs[..i];
  }

  /** Over whole groups, collecting the dead groups is the same as keeping
      the dead stones among the covered cells. */
  lemma {:induction false} DeadAmongGroups(b: Board, gs: seq<seq<Coord>>)
    requires forall i :: 0 <= i < |gs| ==> IsGroup(b, gs[i])
    ensures DeadAmong(b, gs) == AutoDead(b) * Covered(gs)
    decreases |gs|
  {
    if gs != [] {
      var init, g := gs[..|gs| - 1], gs[|gs| - 1];
      assert forall i :: 0 <= i < |init| ==> init[i] == gs[i];
      DeadAmongGroups(b, init);
      assert Covered(gs) == Covered(init) + Elems(g);
      assert IsGroup(b, g);
      ComponentProps(b, g[0]);
      forall x | x in Elems(g) ensures x in AutoDead(b) <==> DeadGroup(b, g[0]) {
        DeadGroupUniform(b, g[0], x);
      }
    }
  }
}
