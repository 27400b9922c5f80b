/** `Cell` of game_of_life: one grid cell with its current state and the
    state staged for the next generation. */
module LifeCell {
  import opened Common
  import opened Life

  class Cell {
    /** The coordinate the cell was created for; never reassigned. */
    const x: int
    const y: int
    /** `ALIVE` or `DEAD` (any code the constructor was given). */
    var state: int
    /** `_next_state`: `None` until the first `Step`. */
    var nextState: Option<int>

    /** A cell at `position`, dead unless told otherwise. */
    constructor (position: (int, int), initState: int := DEAD)
      ensures x == position.0 && y == position.1
      ensures state == initState && nextState == None
    {
      x, y := position.0, position.1;
      state := initState;
      nextState := None;
    }

    /** `is_alive`: the current state is `ALIVE`. */
    predicate IsAlive()
      reads this
    {
      state == ALIVE
    }

    /** Phase one: count the live neighbours on the torus `cells` (the
        model's grid) and stage the next state.  Only `nextState` changes;
        no cell's `state`, this one's included, is written. */
    method Step(cells: array2<Cell?>)
      requires Populated(cells) && 0 <= x < cells.Length0 && 0 <= y < cells.Length1
      modifies this`nextState
      ensures nextState == Some(LifeRule(state, LiveCount(old(Snapshot(cells)), x, y)))
    {
      var live := LiveCount(Snapshot(cells), x, y);
      nextState := Some(state);
      if IsAlive() {
        if live < 2 || live > 3 {
          nextState := Some(DEAD);
        }
      } else {
        if live == 3 {
          nextState := Some(ALIVE);
        }
      }
    }

    /** Phase two: commit the staged state.  Only `state` changes. */
    method Advance()
      requires nextState.Some?
      modifies this`state
      ensures state == nextState.value
    {
      state := nextState.value;
    }
  }

  /** Every coordinate of the array holds a cell created for that
      coordinate (so no cell sits at two coordinates). */
  predicate Populated(cells: array2<Cell?>)
    reads cells
  {
    forall i, j :: 0 <= i < cells.Length0 && 0 <= j < cells.Length1 ==>
      cells[i, j] != null && cells[i, j].x == i && cells[i, j].y == j
  }

  /** The cells of the array, as a frame. */
  function Objects(cells: array2<Cell?>): set<Cell?>
    reads cells
  {
    set i, j | 0 <= i < cells.Length0 && 0 <= j < cells.Length1 :: cells[i, j]
  }

  /** The current generation held by the cells. */
  function Snapshot(cells: array2<Cell?>): (g: seq<seq<int>>)
    requires Populated(cells)
    reads cells, Objects(cells)
    ensures IsGrid(g) && |g| == cells.Length0 && (|g| > 0 ==> Height(g) == cells.Length1)
    ensures forall i, j :: 0 <= i < cells.Length0 && 0 <= j < cells.Length1 ==> g[i][j] == cells[i, j].state
  {
    seq(cells.Length0, i requires 0 <= i < cells.Length0 && Populated(cells) reads cells, Objects(cells) =>
      seq(cells.Length1, j requires 0 <= j < cells.Length1 && Populated(cells) reads cells, Objects(cells) =>
        cells[i, j].state))
  }

  /** A cell's `is_alive` is the live flag of the generation read off the
      cells, at the cell's coordinate: the flags the live count sums. */
  lemma IsAliveAgrees(cells: array2<Cell?>, i: int, j: int)
    requires Populated(cells) && 0 <= i < cells.Length0 && 0 <= j < cells.Length1
    ensures InGrid(Snapshot(cells), (i, j))
    ensures cells[i, j].IsAlive() <==> IsAlive(Snapshot(cells), (i, j))
    ensures AliveBit(Snapshot(cells), (i, j)) == if cells[i, j].IsAlive() then 1 else 0
  {
  }

  /** A generation equals the snapshot when it agrees with every cell. */
  lemma SnapshotIs(cells: array2<Cell?>, g: seq<seq<int>>)
    requires Populated(cells) && IsGrid(g) && |g| == cells.Length0
    requires |g| > 0 ==> Height(g) == cells.Length1
    requires forall i, j :: 0 <= i < cells.Length0 && 0 <= j < cells.Length1 ==> g[i][j] == cells[i, j].state
    ensures Snapshot(cells) == g
  {
    var s := Snapshot(cells);
    forall i | 0 <= i < |g|
      ensures s[i] == g[i]
    {
    }
  }
}
