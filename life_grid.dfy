/** `GoLGrid` of game_of_life: a torus of cells, seeded at random and
    advanced by simultaneous (two-phase) activation. */
module LifeGrid {
  import opened Common
  import opened Life
  import opened LifeCell
  import opened Oracle

  class GoLGrid {
    /** The constructor's arguments.  mesa's `Grid` takes (width, height),
        and the constructor passes `height` first, so the first coordinate x
        ranges over `height` values and the second, y, over `width`. */
    const height: nat
    const width: nat
    /** `grid`: the torus, one cell per coordinate. */
    var cells: array2<Cell?>
    /** `schedule`: the cells in the order they were added. */
    var agents: seq<Cell>
    var running: bool

    ghost predicate Valid()
      reads this, cells
    {
      && cells.Length0 == height && cells.Length1 == width
      && Populated(cells)
      && Covers(agents)
    }

    /** `order` holds every cell of the grid, and nothing else. */
    ghost predicate Covers(order: seq<Cell>)
      reads this, cells
    {
      && (forall c :: c in order ==> 0 <= c.x < cells.Length0 && 0 <= c.y < cells.Length1 && cells[c.x, c.y] == c)
      && (forall i, j :: 0 <= i < cells.Length0 && 0 <= j < cells.Length1 ==> cells[i, j] in order)
    }

    /** The current generation. */
    ghost function View(): (g: seq<seq<int>>)
      requires Valid()
      reads this, cells, Objects(cells)
    {
      Snapshot(cells)
    }

    /** Builds the torus cell by cell in coordinate order (x outer, y inner);
        each cell is alive iff its seeding draw `random() < 0.1` succeeds. */
    constructor (rng: Random, height: nat := 50, width: nat := 50)
      modifies rng
      ensures Valid() && fresh(cells) && running
      ensures this.height == height && this.width == width
      ensures forall c :: c in agents ==> fresh(c) && c.nextState == None
      ensures rng.drawn == old(rng.drawn) + height * width
      ensures forall i, j :: 0 <= i < height && 0 <= j < width ==>
        cells[i, j].state == if rng.outcome(old(rng.drawn) + i * width + j) then ALIVE else DEAD
    {
      var grid := new Cell?[height, width]((i, j) => null);
      var schedule: seq<Cell> := [];
      ghost var d0 := rng.drawn;
      for i := 0 to height
        invariant rng.drawn == d0 + i * width
        invariant forall p, q :: 0 <= p < height && 0 <= q < width ==>
          (grid[p, q] != null <==> p < i)
        invariant forall p, q :: 0 <= p < i && 0 <= q < width ==>
          && grid[p, q] != null && grid[p, q].x == p && grid[p, q].y == q
          && grid[p, q].nextState == None && grid[p, q] in schedule
          && grid[p, q].state == if rng.outcome(d0 + p * width + q) then ALIVE else DEAD
        invariant forall c :: c in schedule ==>
          fresh(c) && 0 <= c.x < i && 0 <= c.y < width && grid[c.x, c.y] == c
      {
        for j := 0 to width
          invariant rng.drawn == d0 + i * width + j
          invariant forall p, q :: 0 <= p < height && 0 <= q < width ==>
            (grid[p, q] != null <==> p < i || (p == i && q < j))
          invariant forall p, q :: (0 <= p < i && 0 <= q < width) || (p == i && 0 <= q < j) ==>
            && grid[p, q] != null && grid[p, q].x == p && grid[p, q].y == q
            && grid[p, q].nextState == None && grid[p, q] in schedule
            && grid[p, q].state == if rng.outcome(d0 + p * width + q) then ALIVE else DEAD
          invariant forall c :: c in schedule ==>
            fresh(c) && 0 <= c.x <= i && 0 <= c.y < width && grid[c.x, c.y] == c
        {
          var cell := new Cell((i, j));
          var draw := rng.Below();
          if draw {
            cell.state := ALIVE;
          }
          grid[i, j] := cell;
          schedule := schedule + [cell];
        }
        assert d0 + i * width + width == d0 + (i + 1) * width;
      }
      this.height, this.width := height, width;
      cells, agents := grid, schedule;
      running := true;
    }

    /** `step`: one tick of simultaneous activation over the scheduled
        cells. */
    method Step()
      requires Valid()
      modifies agents
      ensures Valid()
      ensures View() == NextGen(old(View()))
    {
      SimultaneousStep(agents);
    }

    /** Simultaneous activation visiting the cells in `order`: `Step` on every
        cell, then `Advance` on every cell.  Whatever the order, the new
        generation is the next generation of the old one. */
    method SimultaneousStep(order: seq<Cell>)
      requires Valid() && Covers(order)
      modifies order
      ensures Valid()
      ensures View() == NextGen(old(View()))
    {
      ghost var next := NextGen(View());
      StageAll(order);
      CommitAll(order, next);
      SnapshotIs(cells, next);
    }

    /** Phase one: every cell stages its next state from the current
        generation; no `state` changes. */
    method StageAll(order: seq<Cell>)
      requires Valid() && Covers(order)
      modifies order
      ensures forall i, j :: 0 <= i < height && 0 <= j < width ==> cells[i, j].state == old(cells[i, j].state)
      ensures forall c :: c in order ==> c.nextState == Some(NextGen(old(View()))[c.x][c.y])
    {
      ghost var g := View();
      ghost var next := NextGen(g);
      for k := 0 to |order|
        invariant forall i, j :: 0 <= i < height && 0 <= j < width ==> cells[i, j].state == g[i][j]
        invariant forall c :: c in order[..k] ==> c.nextState == Some(next[c.x][c.y])
      {
        SnapshotIs(cells, g);
        order[k].Step(cells);
        assert order[..k + 1] == order[..k] + [order[k]];
      }
    }

    /** Phase two: every cell commits the state it staged. */
    method CommitAll(order: seq<Cell>, ghost next: seq<seq<int>>)
      requires Valid() && Covers(order)
      requires IsGrid(next) && |next| == height && (height > 0 ==> Height(next) == width)
      requires forall c :: c in order ==> c.nextState == Some(next[c.x][c.y])
      modifies order
      ensures forall i, j :: 0 <= i < height && 0 <= j < width ==> cells[i, j].state == next[i][j]
    {
      for k := 0 to |order|
        invariant forall c :: c in order ==> c.nextState == Some(next[c.x][c.y])
        invariant forall c :: c in order[..k] ==> c.state == next[c.x][c.y]
      {
        order[k].Advance();
        assert order[..k + 1] == order[..k] + [order[k]];
      }
      assert order[..|order|] == order;
    }
  }
}
