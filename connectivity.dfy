/** Connectivity analysis: groups, liberties and empty regions
    (weiqi/script.js lines 161-177 and 231-234).

    The breadth-first searches of the source are methods; what they compute
    is specified by `Closure`, the least set containing a seed that is closed
    under same-coloured orthogonal neighbours. */
module Connectivity {
  import opened GoBoard

  function Elems(s: seq<Coord>): set<Coord> {
    set x | x in s
  }

  /** Cells of colour `color` orthogonally adjacent to a cell of `s`. */
  function Expand(b: Board, color: Cell, s: set<Coord>): set<Coord> {
    set x, q | x in s && q in Neighbors(x) && At(b, q) == color :: q
  }

  /** `s` already holds every cell of colour `color` next to one of its cells. */
  predicate Closed(b: Board, color: Cell, s: set<Coord>) {
    forall x, q :: x in s && q in Neighbors(x) && At(b, q) == color ==> q in s
  }

  /** The cells reachable from `s` through orthogonal steps onto cells of
      colour `color`: the fixpoint of `Expand`. */
  function Closure(b: Board, color: Cell, s: set<Coord>): set<Coord>
    decreases AllCoords() - s
  {
    var next := s + Expand(b, color, s);
    if next == s then s else Closure(b, color, next)
  }

  /** The group (or empty region) of `p`: every cell connected to `p`
      through cells of `p`'s own colour. */
  function Component(b: Board, p: Coord): set<Coord> {
    Closure(b, At(b, p), {p})
  }

  /** The empty cells orthogonally adjacent to a cell of `s`. */
  function Liberties(b: Board, s: set<Coord>): set<Coord> {
    set x, q | x in s && q in Neighbors(x) && At(b, q) == Empty :: q
  }

  /** The colours of the stones orthogonally adjacent to a cell of `s`. */
  function BorderColors(b: Board, s: set<Coord>): set<Stone> {
    set x, q | x in s && q in Neighbors(x) && At(b, q) != Empty :: At(b, q)
  }

  // ---------------------------------------------------------------------
  // Properties of the closure

  lemma {:induction false} ClosureProps(b: Board, color: Cell, s: set<Coord>)
    ensures s <= Closure(b, color, s)
    ensures Closed(b, color, Closure(b, color, s))
    ensures forall q :: q in Closure(b, color, s) ==> q in s || At(b, q) == color
    decreases AllCoords() - s
  {
    var next := s + Expand(b, color, s);
    if next != s {
      ClosureProps(b, color, next);
    } else {
      forall x, q | x in s && q in Neighbors(x) && At(b, q) == color
        ensures q in s
      {
        assert q in Expand(b, color, s);
      }
    }
  }

  /** The closure is the least closed superset of its seed. */
  lemma {:induction false} ClosureLeast(b: Board, color: Cell, s: set<Coord>, t: set<Coord>)
    requires s <= t && Closed(b, color, t)
    ensures Closure(b, color, s) <= t
    decreases AllCoords() - s
  {
    var next := s + Expand(b, color, s);
    if next != s {
      assert Expand(b, color, s) <= t;
      ClosureLeast(b, color, next, t);
    }
  }

  lemma ComponentProps(b: Board, p: Coord)
    ensures p in Component(b, p)
    ensures Closed(b, At(b, p), Component(b, p))
    ensures forall q :: q in Component(b, p) ==> At(b, q) == At(b, p)
  {
    ClosureProps(b, At(b, p), {p});
  }

  lemma ComponentLeast(b: Board, p: Coord, t: set<Coord>)
    requires p in t && Closed(b, At(b, p), t)
    ensures Component(b, p) <= t
  {
    ClosureLeast(b, At(b, p), {p}, t);
  }

  /** Connectivity is symmetric: every member of a component has that same
      component. */
  lemma ComponentSame(b: Board, p: Coord, q: Coord)
    requires q in Component(b, p)
    ensures Component(b, q) == Component(b, p)
  {
    ComponentProps(b, p);
    ComponentProps(b, q);
    ComponentLeast(b, q, Component(b, p));
    if p !in Component(b, q) {
      var t := Component(b, p) - Component(b, q);
      forall x, y | x in t && y in Neighbors(x) && At(b, y) == At(b, p)
        ensures y in t
      {
        AdjacentSymmetric(x, y);
        assert y in Component(b, p);
      }
      ComponentLeast(b, p, t);
      assert false;
    }
    ComponentLeast(b, p, Component(b, q));
  }

  /** Two components are equal or share no cell. */
  lemma ComponentsDisjointOrEqual(b: Board, p: Coord, q: Coord)
    ensures Component(b, p) == Component(b, q) || Component(b, p) !! Component(b, q)
  {
    if x :| x in Component(b, p) && x in Component(b, q) {
      ComponentSame(b, p, x);
      ComponentSame(b, q, x);
    }
  }

  // ---------------------------------------------------------------------
  // The searches of the source

  /** Appending a new cell to a queue adds it to the queue's set and, when
      it was not there yet, adds one to the set's size. */
  lemma ElemsAppend(s: seq<Coord>, x: Coord)
    ensures Elems(s + [x]) == Elems(s) + {x}
  {
  }

  /** Growing a queue at its end keeps the prefix already dequeued. */
  lemma PrefixStep(s: seq<Coord>, t: seq<Coord>, i: int)
    requires 0 < i <= |s| <= |t| && t[..|s|] == s
    ensures t[..i] == s[..i - 1] + [s[i - 1]]
    ensures Elems(t[..i]) == Elems(s[..i - 1]) + {s[i - 1]}
  {
    assert t[..i] == s[..i];
    assert s[..i] == s[..i - 1] + [s[i - 1]];
  }

  /** A sequence without repetitions has as many elements as its set. */
  lemma {:induction false} DistinctCard(s: seq<Coord>)
    requires Distinct(s)
    ensures |Elems(s)| == |s|
  {
    if s != [] {
      DistinctCard(s[1..]);
      assert Elems(s) == Elems(s[1..]) + {s[0]};
      assert s[0] !in Elems(s[1..]);
    }
  }

  /** A sequence with as many elements as its set has no repetitions. */
  lemma {:induction false} CardDistinct(s: seq<Coord>)
    requires |Elems(s)| == |s|
    ensures Distinct(s)
  {
    if s != [] {
      assert Elems(s) == Elems(s[1..]) + {s[0]};
      if s[0] in Elems(s[1..]) {
        assert Elems(s) == Elems(s[1..]);
        ElemsCardBound(s[1..]);
        assert false;
      }
      CardDistinct(s[1..]);
    }
  }

  lemma {:induction false} ElemsCardBound(s: seq<Coord>)
    ensures |Elems(s)| <= |s|
  {
    if s != [] {
      assert Elems(s) == Elems(s[1..]) + {s[0]};
      ElemsCardBound(s[1..]);
    }
  }

  lemma SubsetCard<T>(a: set<T>, b: set<T>)
    requires a <= b
    ensures |a| <= |b|
  {
    assert b == a + (b - a);
  }

  /** Every neighbour of colour `color` of a cell of `done` is in `visited`. */
  predicate Expanded(b: Board, color: Cell, done: set<Coord>, visited: set<Coord>) {
    forall x, q :: x in done && q in Neighbors(x) && At(b, q) == color ==> q in visited
  }

  /** The cells among `ns` holding `color`. */
  function Among(b: Board, color: Cell, ns: seq<Coord>): set<Coord>
    decreases |ns|
  {
    if ns == [] then {}
    else
      var last := ns[|ns| - 1];
      Among(b, color, ns[..|ns| - 1]) + if At(b, last) == color then {last} else {}
  }

  lemma AmongStep(b: Board, color: Cell, ns: seq<Coord>, k: int)
    requires 0 <= k < |ns|
    ensures Among(b, color, ns[..k + 1]) ==
            Among(b, color, ns[..k]) + if At(b, ns[k]) == color then {ns[k]} else {}
  {
    assert ns[..k + 1][..k] == ns[..k];
  }

  lemma {:induction false} AmongIn(b: Board, color: Cell, ns: seq<Coord>, q: Coord)
    ensures q in Among(b, color, ns) <==> q in ns && At(b, q) == color
    decreases |ns|
  {
    if ns != [] {
      var init := ns[..|ns| - 1];
      AmongIn(b, color, init, q);
      assert ns == init + [ns[|ns| - 1]];
    }
  }

  /** What a scan of the neighbours `ns[..k]` has done to a search's queue
      and visited set: the cells of colour `color` among them that were not
      visited yet are appended to the queue, each once. */
  ghost predicate Scanned(b: Board, color: Cell, ns: seq<Coord>, k: int,
                          queue: seq<Coord>, visited: set<Coord>, queue': seq<Coord>, visited': set<Coord>)
    requires 0 <= k <= |ns|
  {
    |queue'| >= |queue| && queue'[..|queue|] == queue &&
    visited' == Elems(queue') && |visited'| == |queue'| &&
    visited' == visited + Among(b, color, ns[..k])
  }

  lemma ScannedStep(b: Board, color: Cell, ns: seq<Coord>, k: int,
                    queue: seq<Coord>, visited: set<Coord>,
                    queue0: seq<Coord>, visited0: set<Coord>, queue1: seq<Coord>, visited1: set<Coord>)
    requires 0 <= k < |ns|
    requires Scanned(b, color, ns, k, queue, visited, queue0, visited0)
    requires |queue1| >= |queue0| && queue1[..|queue0|] == queue0
    requires visited1 == Elems(queue1) && |visited1| == |queue1|
    requires visited1 == visited0 + if At(b, ns[k]) == color then {ns[k]} else {}
    ensures Scanned(b, color, ns, k + 1, queue, visited, queue1, visited1)
  {
    AmongStep(b, color, ns, k);
    assert queue1[..|queue|] == queue0[..|queue|];
  }

  /** One neighbour `n` in findGroup's search: enqueued and marked when it
      has colour `color` and was not visited yet. */
  method VisitCell(b: Board, color: Cell, n: Coord, queue: seq<Coord>, visited: set<Coord>)
    returns (queue': seq<Coord>, visited': set<Coord>)
    requires visited == Elems(queue) && |visited| == |queue|
    ensures |queue'| >= |queue| && queue'[..|queue|] == queue
    ensures visited' == Elems(queue') && |visited'| == |queue'|
    ensures visited' == visited + if At(b, n) == color then {n} else {}
  {
    queue', visited' := queue, visited;
    if n !in visited && At(b, n) == color {
      ElemsAppend(queue, n);
      visited' := visited + {n};
      queue' := queue + [n];
    }
  }

  /** The inner step of findGroup's search (the `forEach` over the neighbours
      of `cur`): enqueue and mark every unvisited neighbour of colour `color`. */
  method VisitNeighbors(b: Board, color: Cell, cur: Coord, queue: seq<Coord>, visited: set<Coord>)
    returns (queue': seq<Coord>, visited': set<Coord>)
    requires visited == Elems(queue) && |visited| == |queue|
    ensures |queue'| >= |queue| && queue'[..|queue|] == queue
    ensures visited' == Elems(queue') && |visited'| == |queue'|
    ensures visited' == visited + Among(b, color, Neighbors(cur))
  {
    queue', visited' := queue, visited;
    var ns := Neighbors(cur);
    for k := 0 to |ns|
      invariant Scanned(b, color, ns, k, queue, visited, queue', visited')
    {
      ghost var queue0, visited0 := queue', visited';
      queue', visited' := VisitCell(b, color, ns[k], queue', visited');
      ScannedStep(b, color, ns, k, queue, visited, queue0, visited0, queue', visited');
    }
    assert ns[..|ns|] == ns;
  }

  /** One iteration of a search keeps the searches' invariants: the newly
      visited cells stay inside the closed set `c`, and one more cell is
      expanded. */
  lemma SearchStep(b: Board, color: Cell, c: set<Coord>, cur: Coord, done: set<Coord>,
                   visited0: set<Coord>, visited: set<Coord>)
    requires visited0 <= c && Closed(b, color, c) && cur in visited0
    requires visited == visited0 + Among(b, color, Neighbors(cur))
    requires Expanded(b, color, done, visited0)
    ensures visited <= c
    ensures Expanded(b, color, done + {cur}, visited)
  {
    forall q ensures q in Among(b, color, Neighbors(cur)) <==> q in Neighbors(cur) && At(b, q) == color {
      AmongIn(b, color, Neighbors(cur), q);
    }
  }

  /** When every visited cell has been expanded, the visited cells are the
      whole closure of the start cell. */
  lemma SearchComplete(b: Board, color: Cell, p: Coord, visited: set<Coord>)
    requires p in visited && visited <= Closure(b, color, {p})
    requires Expanded(b, color, visited, visited)
    ensures visited == Closure(b, color, {p})
  {
    ClosureLeast(b, color, {p}, visited);
  }

  /** findGroup: breadth-first search from `p` over cells of `p`'s colour. */
  method FindGroup(b: Board, p: Coord) returns (group: seq<Coord>)
    ensures |group| > 0 && group[0] == p
    ensures Distinct(group)
    ensures Elems(group) == Component(b, p)
  {
    var color := At(b, p);
    ComponentProps(b, p);
    ghost var comp := Component(b, p);
    group := [];
    var queue := [p];
    var visited := {p};
    ghost var done: set<Coord> := {};
    var i := 0;
    SubsetCard(visited, AllCoords());
    while i < |queue|
      invariant 0 <= i <= |queue| <= |AllCoords()|
      invariant group == queue[..i] && done == Elems(group)
      invariant |queue| > 0 && queue[0] == p
      invariant visited == Elems(queue) && |visited| == |queue|
      invariant visited <= comp
      invariant Expanded(b, color, done, visited)
      decreases |AllCoords()| - i
    {
      var cur := queue[i];
      i := i + 1;
      ghost var queue0, visited0 := queue, visited;
      queue, visited := VisitNeighbors(b, color, cur, queue, visited);
      PrefixStep(queue0, queue, i);
      SearchStep(b, color, comp, cur, done, visited0, visited);
      SubsetCard(visited, AllCoords());
      group := group + [cur];
      done := done + {cur};
    }
    assert group == queue;
    SearchComplete(b, color, p, visited);
    CardDistinct(group);
  }

  /** One neighbour `n` in floodFill's search: an empty cell not yet seen is
      enqueued, a stone contributes its colour to the border. */
  method VisitRegionCell(b: Board, n: Coord, queue: seq<Coord>, visited: set<Coord>, seen: set<Stone>)
    returns (queue': seq<Coord>, visited': set<Coord>, seen': set<Stone>)
    requires visited == Elems(queue) && |visited| == |queue|
    ensures |queue'| >= |queue| && queue'[..|queue|] == queue
    ensures visited' == Elems(queue') && |visited'| == |queue'|
    ensures visited' == visited + if At(b, n) == Empty then {n} else {}
    ensures seen' == seen + if At(b, n) == Empty then {} else {At(b, n)}
  {
    queue', visited', seen' := queue, visited, seen;
    if At(b, n) != Empty {
      seen' := seen + {At(b, n)};
    } else if n !in visited {
      ElemsAppend(queue, n);
      visited' := visited + {n};
      queue' := queue + [n];
    }
  }

  /** `Scanned` for floodFill's inner loop, which also collects the colours
      of the stones among `ns[..k]`. */
  ghost predicate RegionScanned(b: Board, ns: seq<Coord>, k: int,
                                queue: seq<Coord>, visited: set<Coord>, seen: set<Stone>,
                                queue': seq<Coord>, visited': set<Coord>, seen': set<Stone>)
    requires 0 <= k <= |ns|
  {
    Scanned(b, Empty, ns, k, queue, visited, queue', visited') &&
    seen' == seen + StoneColors(b, ns[..k])
  }

  lemma RegionScannedStep(b: Board, ns: seq<Coord>, k: int,
                          queue: seq<Coord>, visited: set<Coord>, seen: set<Stone>,
                          queue0: seq<Coord>, visited0: set<Coord>, seen0: set<Stone>,
                          queue1: seq<Coord>, visited1: set<Coord>, seen1: set<Stone>)
    requires 0 <= k < |ns|
    requires RegionScanned(b, ns, k, queue, visited, seen, queue0, visited0, seen0)
    requires |queue1| >= |queue0| && queue1[..|queue0|] == queue0
    requires visited1 == Elems(queue1) && |visited1| == |queue1|
    requires visited1 == visited0 + if At(b, ns[k]) == Empty then {ns[k]} else {}
    requires seen1 == seen0 + if At(b, ns[k]) == Empty then {} else {At(b, ns[k])}
    ensures RegionScanned(b, ns, k + 1, queue, visited, seen, queue1, visited1, seen1)
  {
    ScannedStep(b, Empty, ns, k, queue, visited, queue0, visited0, queue1, visited1);
    StoneColorsStep(b, ns, k);
  }

  /** The inner step of floodFill's search: enqueue every unvisited empty
      neighbour of `cur` and record the colour of every stone next to it. */
  method VisitRegionNeighbors(b: Board, cur: Coord, queue: seq<Coord>, visited: set<Coord>, seen: set<Stone>)
    returns (queue': seq<Coord>, visited': set<Coord>, seen': set<Stone>)
    requires visited == Elems(queue) && |visited| == |queue|
    ensures |queue'| >= |queue| && queue'[..|queue|] == queue
    ensures visited' == Elems(queue') && |visited'| == |queue'|
    ensures visited' == visited + Among(b, Empty, Neighbors(cur))
    ensures seen' == seen + BorderColors(b, {cur})
  {
    queue', visited', seen' := queue, visited, seen;
    var ns := Neighbors(cur);
    for k := 0 to |ns|
      invariant RegionScanned(b, ns, k, queue, visited, seen, queue', visited', seen')
    {
      ghost var queue0, visited0, seen0 := queue', visited', seen';
      queue', visited', seen' := VisitRegionCell(b, ns[k], queue', visited', seen');
      RegionScannedStep(b, ns, k, queue, visited, seen, queue0, visited0, seen0, queue', visited', seen');
    }
    assert ns[..|ns|] == ns;
    BorderColorsOne(b, cur);
  }

  /** The colours of the stones among `ns`, collected in order. */
  function StoneColors(b: Board, ns: seq<Coord>): set<Stone>
    decreases |ns|
  {
    if ns == [] then {}
    else
      var last := ns[|ns| - 1];
      StoneColors(b, ns[..|ns| - 1]) + if At(b, last) == Empty then {} else {At(b, last)}
  }

  lemma StoneColorsStep(b: Board, ns: seq<Coord>, k: int)
    requires 0 <= k < |ns|
    ensures StoneColors(b, ns[..k + 1]) ==
            StoneColors(b, ns[..k]) + if At(b, ns[k]) == Empty then {} else {At(b, ns[k])}
  {
    assert ns[..k + 1][..k] == ns[..k];
  }

  lemma {:induction false} StoneColorsIn(b: Board, ns: seq<Coord>, c: Stone)
    ensures c in StoneColors(b, ns) <==> exists q :: q in ns && At(b, q) == c
    decreases |ns|
  {
    if ns != [] {
      var init := ns[..|ns| - 1];
      StoneColorsIn(b, init, c);
      assert ns == init + [ns[|ns| - 1]];
    }
  }

  lemma BorderColorsOne(b: Board, x: Coord)
    ensures BorderColors(b, {x}) == StoneColors(b, Neighbors(x))
  {
    forall c: Stone
      ensures c in BorderColors(b, {x}) <==> c in StoneColors(b, Neighbors(x))
    {
      StoneColorsIn(b, Neighbors(x), c);
    }
  }

  lemma BorderColorsUnion(b: Board, s: set<Coord>, t: set<Coord>)
    ensures BorderColors(b, s + t) == BorderColors(b, s) + BorderColors(b, t)
  {
  }

  datatype Region = Region(size: nat, owner: Option<Stone>, coords: seq<Coord>)

  /** The owner of a region: the colour bordering it when exactly one colour
      does, otherwise none. */
  function OwnerOf(colors: set<Stone>): Option<Stone> {
    if Black in colors && White in colors then None
    else if Black in colors then Option<Stone>.Some(Black)
    else if White in colors then Option<Stone>.Some(White)
    else None
  }

  /** A region has an owner exactly when a single colour borders it, and
      then the owner is that colour. */
  lemma OwnerOfSingle(colors: set<Stone>)
    ensures OwnerOf(colors).Some? <==> |colors| == 1
    ensures OwnerOf(colors).Some? ==> colors == {OwnerOf(colors).value}
  {
    if Black in colors && White in colors {
      assert {Black, White} <= colors;
      assert |{Black, White}| == 2;
      SubsetCard({Black, White}, colors);
    } else if Black in colors {
      assert colors == {Black} by {
        forall x | x in colors ensures x == Black { }
      }
    } else if White in colors {
      assert colors == {White} by {
        forall x | x in colors ensures x == White { }
      }
    } else {
      assert colors == {} by {
        forall x | x in colors ensures false { }
      }
    }
  }

  /** floodFill: breadth-first search from `p` over empty cells, reporting the
      region's size, cells and owner. */
  method FloodFill(b: Board, p: Coord) returns (area: Region)
    ensures Elems(area.coords) == Closure(b, Empty, {p})
    ensures |area.coords| > 0 && area.coords[0] == p && Distinct(area.coords)
    ensures area.size == |area.coords| == |Closure(b, Empty, {p})|
    ensures area.owner == OwnerOf(BorderColors(b, Closure(b, Empty, {p})))
  {
    ClosureProps(b, Empty, {p});
    ghost var region := Closure(b, Empty, {p});
    var queue := [p];
    var coords := {p};
    var size := 0;
    var seen: set<Stone> := {};
    ghost var done: set<Coord> := {};
    var i := 0;
    SubsetCard(coords, AllCoords());
    while i < |queue|
      invariant 0 <= i <= |queue| <= |AllCoords()| && size == i
      invariant |queue| > 0 && queue[0] == p
      invariant coords == Elems(queue) && |coords| == |queue|
      invariant done == Elems(queue[..i])
      invariant coords <= region
      invariant Expanded(b, Empty, done, coords)
      invariant seen == BorderColors(b, done)
      decreases |AllCoords()| - i
    {
      var cur := queue[i];
      i := i + 1;
      size := size + 1;
      ghost var queue0, coords0 := queue, coords;
      queue, coords, seen := VisitRegionNeighbors(b, cur, queue, coords, seen);
      PrefixStep(queue0, queue, i);
      SearchStep(b, Empty, region, cur, done, coords0, coords);
      SubsetCard(coords, AllCoords());
      BorderColorsUnion(b, done, {cur});
      done := done + {cur};
    }
    assert queue[..i] == queue;
    SearchComplete(b, Empty, p, coords);
    CardDistinct(queue);
    area := Region(size, OwnerOf(seen), queue);
  }

  lemma LibertiesStep(b: Board, group: seq<Coord>, i: int)
    requires 0 <= i < |group|
    ensures Liberties(b, Elems(group[..i + 1])) ==
            Liberties(b, Elems(group[..i])) + Among(b, Empty, Neighbors(group[i]))
  {
    assert Elems(group[..i + 1]) == Elems(group[..i]) + {group[i]} by {
      assert group[..i + 1] == group[..i] + [group[i]];
    }
    forall q ensures q in Among(b, Empty, Neighbors(group[i])) <==> q in Neighbors(group[i]) && At(b, q) == Empty {
      AmongIn(b, Empty, Neighbors(group[i]), q);
    }
  }

  /** The empty neighbours of one stone (the inner `forEach` of getLibertyCoords). */
  method EmptyNeighbors(b: Board, x: Coord, libs: set<Coord>) returns (libs': set<Coord>)
    ensures libs' == libs + Among(b, Empty, Neighbors(x))
  {
    libs' := libs;
    var ns := Neighbors(x);
    for k := 0 to |ns|
      invariant libs' == libs + Among(b, Empty, ns[..k])
    {
      AmongStep(b, Empty, ns, k);
      if At(b, ns[k]) == Empty {
        libs' := libs' + {ns[k]};
      }
    }
    assert ns[..|ns|] == ns;
  }

  /** getLibertyCoords: the empty neighbours of the stones of `group`. */
  method LibertyCoords(b: Board, group: seq<Coord>) returns (libs: set<Coord>)
    ensures libs == Liberties(b, Elems(group))
  {
    libs := {};
    for i := 0 to |group|
      invariant libs == Liberties(b, Elems(group[..i]))
    {
      LibertiesStep(b, group, i);
      libs := EmptyNeighbors(b, group[i], libs);
    }
    assert group[..|group|] == group;
  }

  /** countLiberties: the number of distinct liberties of `group`. */
  method CountLiberties(b: Board, group: seq<Coord>) returns (n: nat)
    ensures n == |Liberties(b, Elems(group))|
  {
    var libs := LibertyCoords(b, group);
    n := |libs|;
  }

  // ---------------------------------------------------------------------
  // All groups of a board

  /** The cells holding a stone. */
  function Stones(b: Board): set<Coord> {
    set q | q in AllCoords() && At(b, q) != Empty
  }

  /** `g` lists, once each, the cells of the group of its first stone. */
  predicate IsGroup(b: Board, g: seq<Coord>) {
    |g| > 0 && At(b, g[0]) != Empty && Distinct(g) && Elems(g) == Component(b, g[0])
  }

  /** The cells of all the groups of `gs`. */
  function Covered(gs: seq<seq<Coord>>): set<Coord>
    decreases |gs|
  {
    if gs == [] then {} else Covered(gs[..|gs| - 1]) + Elems(gs[|gs| - 1])
  }

  lemma CoveredAppend(gs: seq<seq<Coord>>, g: seq<Coord>)
    ensures Covered(gs + [g]) == Covered(gs) + Elems(g)
  {
    assert (gs + [g])[..|gs|] == gs;
  }

  lemma {:induction false} CoveredIn(gs: seq<seq<Coord>>, q: Coord)
    ensures q in Covered(gs) <==> exists i :: 0 <= i < |gs| && q in Elems(gs[i])
    decreases |gs|
  {
    if gs != [] {
      var init := gs[..|gs| - 1];
      CoveredIn(init, q);
      assert forall i :: 0 <= i < |init| ==> init[i] == gs[i];
    }
  }

  /** Groups listed by getAllGroups: each a whole group, no two sharing a cell. */
  predicate GroupsPartition(b: Board, gs: seq<seq<Coord>>) {
    (forall i :: 0 <= i < |gs| ==> IsGroup(b, gs[i])) &&
    (forall i, j :: 0 <= i < j < |gs| ==> Elems(gs[i]) !! Elems(gs[j]))
  }

  /** `q` comes before (r, c) in row-major order, the order of the scans. */
  predicate Before(q: Coord, r: int, c: int) {
    q.r < r || (q.r == r && q.c < c)
  }

  /** A new group found at an unvisited stone shares no cell with the groups
      found before it. */
  lemma GroupsExtend(b: Board, gs: seq<seq<Coord>>, g: seq<Coord>)
    requires GroupsPartition(b, gs) && IsGroup(b, g)
    requires g[0] !in Covered(gs)
    ensures GroupsPartition(b, gs + [g])
  {
    forall i | 0 <= i < |gs|
      ensures Elems(gs[i]) !! Elems(g)
    {
      ComponentsDisjointOrEqual(b, gs[i][0], g[0]);
      ComponentProps(b, g[0]);
      CoveredIn(gs, g[0]);
    }
  }

  /** getAllGroups' scan has reached (r, c): the groups found so far
      partition the visited cells, which hold every stone before (r, c). */
  ghost predicate GroupsScanned(b: Board, groups: seq<seq<Coord>>, visited: set<Coord>, r: int, c: int) {
    GroupsPartition(b, groups) && visited == Covered(groups) && visited <= Stones(b) &&
    forall q: Coord :: Before(q, r, c) && At(b, q) != Empty ==> q in visited
  }

  lemma GroupsScannedRow(b: Board, groups: seq<seq<Coord>>, visited: set<Coord>, r: int)
    requires GroupsScanned(b, groups, visited, r, SIZE)
    ensures GroupsScanned(b, groups, visited, r + 1, 0)
  {
  }

  /** A stone already visited, or an empty cell, adds nothing to the scan. */
  lemma GroupsScannedSkip(b: Board, groups: seq<seq<Coord>>, visited: set<Coord>, p: Coord)
    requires GroupsScanned(b, groups, visited, p.r, p.c)
    requires At(b, p) == Empty || p in visited
    ensures GroupsScanned(b, groups, visited, p.r, p.c + 1)
  {
  }

  /** The group of an unvisited stone extends the scan past that stone. */
  lemma GroupsScannedAdd(b: Board, groups: seq<seq<Coord>>, visited: set<Coord>, p: Coord, g: seq<Coord>)
    requires GroupsScanned(b, groups, visited, p.r, p.c)
    requires At(b, p) != Empty && p !in visited
    requires |g| > 0 && g[0] == p && Distinct(g) && Elems(g) == Component(b, p)
    ensures GroupsScanned(b, groups + [g], visited + Elems(g), p.r, p.c + 1)
  {
    ComponentProps(b, p);
    GroupsExtend(b, groups, g);
    CoveredAppend(groups, g);
  }

  /** One cell of getAllGroups' scan: a stone not yet visited starts a new group. */
  method ScanCell(b: Board, p: Coord, groups: seq<seq<Coord>>, visited: set<Coord>)
    returns (groups': seq<seq<Coord>>, visited': set<Coord>)
    requires GroupsScanned(b, groups, visited, p.r, p.c)
    ensures GroupsScanned(b, groups', visited', p.r, p.c + 1)
    ensures At(b, p) != Empty && p !in visited ==>
              |groups'| == |groups| + 1 && groups'[..|groups|] == groups &&
              groups'[|groups|][0] == p && Elems(groups'[|groups|]) == Component(b, p) &&
              visited' == visited + Component(b, p)
    ensures At(b, p) == Empty || p in visited ==> groups' == groups && visited' == visited
  {
    groups', visited' := groups, visited;
    if At(b, p) != Empty && p !in visited {
      var g := FindGroup(b, p);
      GroupsScannedAdd(b, groups, visited, p, g);
      visited' := visited + Elems(g);
      groups' := groups + [g];
    } else {
      GroupsScannedSkip(b, groups, visited, p);
    }
  }

  /** getAllGroups: scan the board in row-major order and collect the group
      of every stone not already in a group found before. */
  method GetAllGroups(b: Board) returns (groups: seq<seq<Coord>>)
    ensures GroupsPartition(b, groups)
    ensures Covered(groups) == Stones(b)
  {
    groups := [];
    var visited: set<Coord> := {};
    for r := 0 to SIZE
      invariant GroupsScanned(b, groups, visited, r, 0)
    {
      for c := 0 to SIZE
        invariant GroupsScanned(b, groups, visited, r, c)
      {
        groups, visited := ScanCell(b, Pos(r, c), groups, visited);
      }
      GroupsScannedRow(b, groups, visited, r);
    }
  }
}
