/** Conway's Game of Life on a torus, as pure functions over one generation.
    A generation `g` is indexed `g[x][y]`, where x ranges over the first
    extent of mesa's `Grid` and y over the second; cell states are the
    integer codes of `Cell.ALIVE` and `Cell.DEAD`. */
module Life {
  import opened Common

  /** `Cell.ALIVE` and `Cell.DEAD`. */
  const ALIVE: int := 1
  const DEAD: int := 0

  /** Every column of the generation has the same length. */
  predicate IsGrid(g: seq<seq<int>>) {
    forall x :: 0 <= x < |g| ==> |g[x]| == |g[0]|
  }

  /** Extent of the second coordinate (zero for an empty grid). */
  function Height(g: seq<seq<int>>): (h: nat) {
    if |g| == 0 then 0 else |g[0]|
  }

  predicate InGrid(g: seq<seq<int>>, p: (int, int)) {
    IsGrid(g) && 0 <= p.0 < |g| && 0 <= p.1 < Height(g)
  }

  /** Python's `k % n` (torus wrap-around) for the coordinates that one step
      off the grid can produce. */
  function Wrap(k: int, n: int): (r: int)
    requires n > 0 && -1 <= k <= n
    ensures 0 <= r < n
  {
    if k < 0 then k + n else if k == n then 0 else k
  }

  /** Wrap is Python's (and Dafny's) modulus on that range. */
  lemma WrapIsMod(k: int, n: int)
    requires n > 0 && -1 <= k <= n
    ensures Wrap(k, n) == k % n
  {
  }

  /** Distinct offsets of at most one step land on distinct coordinates
      when the cycle has at least three positions. */
  lemma WrapInjective(x: int, d1: int, d2: int, n: int)
    requires n >= 3 && 0 <= x < n && -1 <= d1 <= 1 && -1 <= d2 <= 1
    ensures Wrap(x + d1, n) == Wrap(x + d2, n) <==> d1 == d2
  {
  }

  /** The Moore offsets (dx, dy) in the order mesa's neighbourhood query
      visits them: dy outer, dx inner, the centre (0, 0) skipped. */
  const Offsets: seq<(int, int)> :=
    [(-1, -1), (0, -1), (1, -1), (-1, 0), (1, 0), (-1, 1), (0, 1), (1, 1)]

  /** The eight wrapped offset coordinates around (x, y), before duplicates
      are dropped. */
  function Around(x: int, y: int, w: int, h: int): (r: seq<(int, int)>)
    requires w > 0 && h > 0 && 0 <= x < w && 0 <= y < h
    ensures |r| == 8
  {
    seq(8, k requires 0 <= k < 8 => (Wrap(x + Offsets[k].0, w), Wrap(y + Offsets[k].1, h)))
  }

  /** Keeps the first occurrence of every element, as the neighbourhood
      query does when it skips coordinates it has already collected. */
  function Dedup(s: seq<(int, int)>): (r: seq<(int, int)>)
    ensures forall p :: p in r <==> p in s
    ensures Distinct(r)
    ensures |r| <= |s|
  {
    if s == [] then []
    else
      var prev := Dedup(s[..|s| - 1]);
      assert forall p :: p in s <==> p in s[..|s| - 1] || p == s[|s| - 1];
      if s[|s| - 1] in prev then prev else prev + [s[|s| - 1]]
  }

  lemma {:induction false} DedupOfDistinct(s: seq<(int, int)>)
    requires Distinct(s)
    ensures Dedup(s) == s
  {
    if s != [] {
      DedupOfDistinct(s[..|s| - 1]);
      assert s[|s| - 1] !in s[..|s| - 1];
    }
  }

  /** The coordinates of the toroidal Moore neighbourhood of (x, y), each
      once (the neighbour iteration of `Cell.neighbors`). */
  function Neighbours(g: seq<seq<int>>, x: int, y: int): (r: seq<(int, int)>)
    requires IsGrid(g) && 0 <= x < |g| && 0 <= y < Height(g)
    ensures forall p :: p in r ==> InGrid(g, p)
    ensures Distinct(r) && |r| <= 8
  {
    Dedup(Around(x, y, |g|, Height(g)))
  }

  /** `Cell.is_alive` of the cell at p. */
  predicate IsAlive(g: seq<seq<int>>, p: (int, int))
    requires InGrid(g, p)
  {
    g[p.0][p.1] == ALIVE
  }

  /** 1 for a live cell, 0 otherwise (Python's `sum` over `is_alive`). */
  function AliveBit(g: seq<seq<int>>, p: (int, int)): (b: nat)
    requires InGrid(g, p)
    ensures b <= 1 && (b == 1 <==> IsAlive(g, p))
  {
    if IsAlive(g, p) then 1 else 0
  }

  /** How many of the cells at `ps` are alive. */
  function CountAlive(g: seq<seq<int>>, ps: seq<(int, int)>): (n: nat)
    requires forall p :: p in ps ==> InGrid(g, p)
    ensures n <= |ps|
    ensures (forall p :: p in ps ==> !IsAlive(g, p)) ==> n == 0
  {
    if ps == [] then 0 else AliveBit(g, ps[0]) + CountAlive(g, ps[1..])
  }

  /** The live-neighbour count that `Cell.step` computes. */
  function LiveCount(g: seq<seq<int>>, x: int, y: int): (n: nat)
    requires IsGrid(g) && 0 <= x < |g| && 0 <= y < Height(g)
    ensures n <= 8
  {
    CountAlive(g, Neighbours(g, x, y))
  }

  /** The state `Cell.step` stages for a cell in state `state` with `live`
      live neighbours. */
  function LifeRule(state: int, live: int): (r: int)
    ensures r == state || r == ALIVE || r == DEAD
    ensures r == ALIVE ==> live == 3 || (live == 2 && state == ALIVE)
    ensures state == ALIVE && r == DEAD ==> live < 2 || live > 3
  {
    if state == ALIVE then
      if live < 2 || live > 3 then DEAD else state
    else
      if live == 3 then ALIVE else state
  }

  /** The next generation: every cell staged from the current generation
      only, then all committed together. */
  function NextGen(g: seq<seq<int>>): (r: seq<seq<int>>)
    requires IsGrid(g)
    ensures IsGrid(r) && |r| == |g| && Height(r) == Height(g)
  {
    seq(|g|, x requires 0 <= x < |g| =>
      seq(Height(g), y requires 0 <= y < Height(g) => LifeRule(g[x][y], LiveCount(g, x, y))))
  }

  // ---------------------------------------------------------------------
  // The rule

  /** The staging rule is Conway's B3/S23 on live/dead cells: a cell is
      alive next iff it has exactly three live neighbours, or it is alive
      and has exactly two. */
  lemma LifeRuleIsB3S23(state: int, live: int)
    requires state == ALIVE || state == DEAD
    ensures LifeRule(state, live) == ALIVE || LifeRule(state, live) == DEAD
    ensures LifeRule(state, live) == ALIVE <==> live == 3 || (state == ALIVE && live == 2)
  {
  }

  /** The individual cases of the rule, for any state code. */
  lemma LifeRuleCases(state: int, live: int)
    ensures state == ALIVE && live < 2 ==> LifeRule(state, live) == DEAD
    ensures state == ALIVE && live > 3 ==> LifeRule(state, live) == DEAD
    ensures state == ALIVE && 2 <= live <= 3 ==> LifeRule(state, live) == ALIVE
    ensures state != ALIVE && live == 3 ==> LifeRule(state, live) == ALIVE
    ensures state != ALIVE && live != 3 ==> LifeRule(state, live) == state
  {
  }

  // ---------------------------------------------------------------------
  // The neighbourhood on a torus of at least 3 x 3

  /** Coordinates a and b are at most one step apart on a cycle of length n. */
  predicate Near(a: int, b: int, n: int) {
    b - a == -1 || b - a == 0 || b - a == 1 || b - a == n - 1 || b - a == 1 - n
  }

  /** On a torus of at least 3 x 3 the eight wrapped offsets are distinct. */
  lemma AroundDistinct(x: int, y: int, w: int, h: int)
    requires w >= 3 && h >= 3 && 0 <= x < w && 0 <= y < h
    ensures Distinct(Around(x, y, w, h))
  {
    var a := Around(x, y, w, h);
    forall i, j | 0 <= i < j < 8
      ensures a[i] != a[j]
    {
      WrapInjective(x, Offsets[i].0, Offsets[j].0, w);
      WrapInjective(y, Offsets[i].1, Offsets[j].1, h);
    }
  }

  /** Each wrapped offset is one step away from the centre and is not the
      centre itself. */
  lemma AroundAreNear(x: int, y: int, w: int, h: int, k: int)
    requires w >= 3 && h >= 3 && 0 <= x < w && 0 <= y < h && 0 <= k < 8
    ensures var p := Around(x, y, w, h)[k];
      0 <= p.0 < w && 0 <= p.1 < h && p != (x, y) && Near(x, p.0, w) && Near(y, p.1, h)
  {
    WrapInjective(x, Offsets[k].0, 0, w);
    WrapInjective(y, Offsets[k].1, 0, h);
  }

  /** Every cell one step away from the centre, other than the centre, is
      one of the wrapped offsets. */
  lemma NearAreAround(x: int, y: int, w: int, h: int, p: (int, int))
    requires w >= 3 && h >= 3 && 0 <= x < w && 0 <= y < h
    requires 0 <= p.0 < w && 0 <= p.1 < h && p != (x, y) && Near(x, p.0, w) && Near(y, p.1, h)
    ensures p in Around(x, y, w, h)
  {
    var dx := if p.0 == x then 0 else if p.0 == Wrap(x + 1, w) then 1 else -1;
    var dy := if p.1 == y then 0 else if p.1 == Wrap(y + 1, h) then 1 else -1;
    var k := if dy == -1 then dx + 1 else if dy == 0 then (if dx == -1 then 3 else 4) else dx + 6;
    assert Offsets[k] == (dx, dy);
    assert Around(x, y, w, h)[k] == p;
  }

  /** On a torus of at least 3 x 3 the neighbourhood has exactly eight
      distinct cells: exactly the cells one step away (wrapping at the
      edges) other than the centre. */
  lemma NeighbourhoodOnTorus(g: seq<seq<int>>, x: int, y: int)
    requires IsGrid(g) && |g| >= 3 && Height(g) >= 3
    requires 0 <= x < |g| && 0 <= y < Height(g)
    ensures Neighbours(g, x, y) == Around(x, y, |g|, Height(g))
    ensures |Neighbours(g, x, y)| == 8
    ensures forall p :: p in Neighbours(g, x, y) <==>
      InGrid(g, p) && p != (x, y) && Near(x, p.0, |g|) && Near(y, p.1, Height(g))
  {
    var w, h := |g|, Height(g);
    var a := Around(x, y, w, h);
    AroundDistinct(x, y, w, h);
    DedupOfDistinct(a);
    forall p | p in a
      ensures InGrid(g, p) && p != (x, y) && Near(x, p.0, w) && Near(y, p.1, h)
    {
      var k :| 0 <= k < 8 && a[k] == p;
      AroundAreNear(x, y, w, h, k);
    }
    forall p | InGrid(g, p) && p != (x, y) && Near(x, p.0, w) && Near(y, p.1, h)
      ensures p in a
    {
      NearAreAround(x, y, w, h, p);
    }
  }

  /** On a torus of at least 3 x 3 the live-neighbour count is the sum over
      the eight wrapped offsets. */
  lemma LiveCountAround(g: seq<seq<int>>, x: int, y: int)
    requires IsGrid(g) && |g| >= 3 && Height(g) >= 3
    requires 0 <= x < |g| && 0 <= y < Height(g)
    ensures var a := Around(x, y, |g|, Height(g));
      LiveCount(g, x, y) ==
        AliveBit(g, a[0]) + AliveBit(g, a[1]) + AliveBit(g, a[2]) + AliveBit(g, a[3]) +
        AliveBit(g, a[4]) + AliveBit(g, a[5]) + AliveBit(g, a[6]) + AliveBit(g, a[7])
  {
    NeighbourhoodOnTorus(g, x, y);
    CountAliveEight(g, Around(x, y, |g|, Height(g)));
  }

  lemma CountAliveEight(g: seq<seq<int>>, ps: seq<(int, int)>)
    requires |ps| == 8 && forall p :: p in ps ==> InGrid(g, p)
    ensures CountAlive(g, ps) ==
      AliveBit(g, ps[0]) + AliveBit(g, ps[1]) + AliveBit(g, ps[2]) + AliveBit(g, ps[3]) +
      AliveBit(g, ps[4]) + AliveBit(g, ps[5]) + AliveBit(g, ps[6]) + AliveBit(g, ps[7])
  {
    assert CountAlive(g, ps[8..]) == 0;
    assert CountAlive(g, ps[7..]) == AliveBit(g, ps[7]) + CountAlive(g, ps[8..]);
    assert CountAlive(g, ps[6..]) == AliveBit(g, ps[6]) + CountAlive(g, ps[7..]);
    assert CountAlive(g, ps[5..]) == AliveBit(g, ps[5]) + CountAlive(g, ps[6..]);
    assert CountAlive(g, ps[4..]) == AliveBit(g, ps[4]) + CountAlive(g, ps[5..]);
    assert CountAlive(g, ps[3..]) == AliveBit(g, ps[3]) + CountAlive(g, ps[4..]);
    assert CountAlive(g, ps[2..]) == AliveBit(g, ps[2]) + CountAlive(g, ps[3..]);
    assert CountAlive(g, ps[1..]) == AliveBit(g, ps[1]) + CountAlive(g, ps[2..]);
  }

  // ---------------------------------------------------------------------
  // Known patterns

  /** A live cell none of whose neighbours is alive is dead in the next
      generation. */
  lemma IsolatedCellDies(g: seq<seq<int>>, x: int, y: int)
    requires IsGrid(g) && 0 <= x < |g| && 0 <= y < Height(g)
    requires g[x][y] == ALIVE
    requires forall p :: p in Neighbours(g, x, y) ==> !IsAlive(g, p)
    ensures NextGen(g)[x][y] == DEAD
  {
  }

  /** Row (or column) i is one of the two rows a, a + 1 (mod n) of a block. */
  predicate InPair(i: int, a: int, n: int)
    requires n > 0 && 0 <= a < n
  {
    i == a || i == Wrap(a + 1, n)
  }

  /** The generation whose only live cells are the 2 x 2 block with corner
      (a, b), wrapping at the edges. */
  function Block(a: int, b: int, w: int, h: int): (g: seq<seq<int>>)
    requires 0 <= a < w && 0 <= b < h
    ensures IsGrid(g) && |g| == w && Height(g) == h
  {
    seq(w, x requires 0 <= x < w =>
      seq(h, y requires 0 <= y < h => if InPair(x, a, w) && InPair(y, b, h) then ALIVE else DEAD))
  }

  /** Around any row, the block's two rows are met in a pattern that makes
      three live neighbours possible only for the block's own cells. */
  lemma PairAround(x: int, a: int, n: int)
    requires n >= 3 && 0 <= a < n && 0 <= x < n
    ensures InPair(x, a, n) ==> (InPair(Wrap(x - 1, n), a, n) <==> !InPair(Wrap(x + 1, n), a, n))
    ensures !(InPair(Wrap(x - 1, n), a, n) && InPair(x, a, n) && InPair(Wrap(x + 1, n), a, n))
  {
  }

  lemma AroundAt(x: int, y: int, w: int, h: int)
    requires w > 0 && h > 0 && 0 <= x < w && 0 <= y < h
    ensures var s := Around(x, y, w, h);
      var xm, xp, ym, yp := Wrap(x - 1, w), Wrap(x + 1, w), Wrap(y - 1, h), Wrap(y + 1, h);
      s[0] == (xm, ym) && s[1] == (x, ym) && s[2] == (xp, ym) && s[3] == (xm, y) &&
      s[4] == (xp, y) && s[5] == (xm, yp) && s[6] == (x, yp) && s[7] == (xp, yp)
  {
  }

  lemma BlockBit(a: int, b: int, w: int, h: int, p: (int, int))
    requires 0 <= a < w && 0 <= b < h && 0 <= p.0 < w && 0 <= p.1 < h
    ensures AliveBit(Block(a, b, w, h), p) == if InPair(p.0, a, w) && InPair(p.1, b, h) then 1 else 0
  {
  }

  /** On an otherwise dead torus holding one 2 x 2 block, each of the
      block's cells has exactly three live neighbours and no other cell
      has exactly three. */
  lemma BlockLiveCounts(a: int, b: int, w: int, h: int, x: int, y: int)
    requires w >= 3 && h >= 3 && 0 <= a < w && 0 <= b < h
    requires 0 <= x < w && 0 <= y < h
    ensures InPair(x, a, w) && InPair(y, b, h) ==> LiveCount(Block(a, b, w, h), x, y) == 3
    ensures !(InPair(x, a, w) && InPair(y, b, h)) ==> LiveCount(Block(a, b, w, h), x, y) != 3
  {
    var g := Block(a, b, w, h);
    var s := Around(x, y, w, h);
    LiveCountAround(g, x, y);
    AroundAt(x, y, w, h);
    PairAround(x, a, w);
    PairAround(y, b, h);
    var xm, xp, ym, yp := Wrap(x - 1, w), Wrap(x + 1, w), Wrap(y - 1, h), Wrap(y + 1, h);
    BlockBit(a, b, w, h, (xm, ym));
    BlockBit(a, b, w, h, (x, ym));
    BlockBit(a, b, w, h, (xp, ym));
    BlockBit(a, b, w, h, (xm, y));
    BlockBit(a, b, w, h, (xp, y));
    BlockBit(a, b, w, h, (xm, yp));
    BlockBit(a, b, w, h, (x, yp));
    BlockBit(a, b, w, h, (xp, yp));
  }

  /** Each cell of an otherwise dead torus holding one 2 x 2 block keeps its
      state. */
  lemma BlockCellKeeps(a: int, b: int, w: int, h: int, x: int, y: int)
    requires w >= 3 && h >= 3 && 0 <= a < w && 0 <= b < h
    requires 0 <= x < w && 0 <= y < h
    ensures NextGen(Block(a, b, w, h))[x][y] == Block(a, b, w, h)[x][y]
  {
    BlockLiveCounts(a, b, w, h, x, y);
  }

  /** A 2 x 2 block of live cells on an otherwise dead torus of at least
      3 x 3 is a still life. */
  lemma BlockIsStill(a: int, b: int, w: int, h: int)
    requires w >= 3 && h >= 3 && 0 <= a < w && 0 <= b < h
    ensures NextGen(Block(a, b, w, h)) == Block(a, b, w, h)
  {
    var g := Block(a, b, w, h);
    forall x | 0 <= x < w
      ensures NextGen(g)[x] == g[x]
    {
      forall y | 0 <= y < h
        ensures NextGen(g)[x][y] == g[x][y]
      {
        BlockCellKeeps(a, b, w, h, x, y);
      }
    }
  }
}
