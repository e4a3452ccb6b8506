/** The 9x9 Go board: cell states, coordinates, orthogonal neighbours and
    single-cell updates (weiqi/script.js lines 5-6 and line 230). */
module GoBoard {

  const SIZE: int := 9

  /** A cell holds nothing, a black stone or a white stone. */
  datatype Cell = Empty | Black | White

  /** The colour of a player: a cell that is not empty. */
  type Stone = c: Cell | c != Empty witness Black

  datatype Option<T> = None | Some(value: T)

  function Opponent(s: Stone): (o: Stone)
    ensures o != s
  {
    if s == Black then White else Black
  }

  datatype Pos = Pos(r: int, c: int)

  predicate InBounds(p: Pos) {
    0 <= p.r < SIZE && 0 <= p.c < SIZE
  }

  /** A position on the board, 0-indexed (row, column). */
  type Coord = p: Pos | InBounds(p) witness Pos(0, 0)

  type Row = s: seq<Cell> | |s| == SIZE witness seq(SIZE, _ => Empty)

  /** A board is SIZE rows of SIZE cells, indexed `b[row][col]` as in the source. */
  type Board = b: seq<Row> | |b| == SIZE witness seq(SIZE, _ => seq(SIZE, _ => Empty))

  function At(b: Board, p: Coord): Cell {
    b[p.r][p.c]
  }

  /** The board with the single cell `p` set to `x`. */
  function Update(b: Board, p: Coord, x: Cell): (b': Board)
    ensures At(b', p) == x
    ensures forall q: Coord :: q != p ==> At(b', q) == At(b, q)
  {
    b[p.r := b[p.r][p.c := x]]
  }

  function EmptyBoard(): (b: Board)
    ensures forall p: Coord :: At(b, p) == Empty
  {
    seq(SIZE, _ => seq(SIZE, _ => Empty))
  }

  /** Two boards that agree on every cell are the same board. */
  lemma BoardExt(a: Board, b: Board)
    requires forall p: Coord :: At(a, p) == At(b, p)
    ensures a == b
  {
    forall r | 0 <= r < SIZE
      ensures a[r] == b[r]
    {
      forall c | 0 <= c < SIZE
        ensures a[r][c] == b[r][c]
      {
        assert At(a, Pos(r, c)) == At(b, Pos(r, c));
      }
    }
  }

  /** The board with every cell of `s` emptied (used for captures and for
      removing dead stones before scoring). */
  function Clear(b: Board, s: set<Coord>): (b': Board)
    ensures forall q: Coord :: At(b', q) == if q in s then Empty else At(b, q)
  {
    seq(SIZE, r requires 0 <= r < SIZE =>
      seq(SIZE, c requires 0 <= c < SIZE =>
        if Pos(r, c) in s then Empty else b[r][c]))
  }

  lemma ClearStep(b: Board, s: set<Coord>, x: Coord)
    ensures Clear(b, s + {x}) == Update(Clear(b, s), x, Empty)
  {
    BoardExt(Clear(b, s + {x}), Update(Clear(b, s), x, Empty));
  }

  lemma ClearClear(b: Board, s: set<Coord>, t: set<Coord>)
    ensures Clear(Clear(b, s), t) == Clear(b, s + t)
  {
    BoardExt(Clear(Clear(b, s), t), Clear(b, s + t));
  }

  /** Every coordinate of the board. */
  function AllCoords(): (all: set<Coord>)
    ensures forall p: Coord :: p in all
  {
    var all := set r, c | 0 <= r < SIZE && 0 <= c < SIZE :: Pos(r, c);
    assert forall p: Coord :: p == Pos(p.r, p.c) && p in all;
    all
  }

  function Abs(x: int): nat {
    if x < 0 then -x else x
  }

  /** Orthogonal adjacency, the independent definition `Neighbors` is proved against. */
  predicate Adjacent(p: Pos, q: Pos) {
    Abs(p.r - q.r) + Abs(p.c - q.c) == 1
  }

  predicate Distinct<T(==)>(s: seq<T>) {
    forall i, j :: 0 <= i < j < |s| ==> s[i] != s[j]
  }

  /** getNeighbors: up, down, left, right, clipped to the board. */
  function Neighbors(p: Coord): (ns: seq<Coord>)
    ensures Distinct(ns) && |ns| <= 4
  {
    (if p.r > 0 then [Pos(p.r - 1, p.c)] else []) +
    (if p.r < SIZE - 1 then [Pos(p.r + 1, p.c)] else []) +
    (if p.c > 0 then [Pos(p.r, p.c - 1)] else []) +
    (if p.c < SIZE - 1 then [Pos(p.r, p.c + 1)] else [])
  }

  /** The neighbours are exactly the orthogonally adjacent coordinates. */
  lemma NeighborsAdjacent(p: Coord, q: Coord)
    ensures q in Neighbors(p) <==> Adjacent(p, q)
  {
  }

  lemma AdjacentSymmetric(p: Coord, q: Coord)
    ensures q in Neighbors(p) <==> p in Neighbors(q)
  {
    NeighborsAdjacent(p, q);
    NeighborsAdjacent(q, p);
  }
}
