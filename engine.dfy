/** The World engine that the CLI drives, as src/include/World.h declares it.
    Only the declaration is available, so the engine's own rules come in as
    values fixed when a World is built: `rule` is what one call of `evolve` does
    to the set of live cells, and `stableTest` is the answer `is_stable` gives
    for a set of live cells. The ghost fields record the calls the CLI makes. */
module Engine {

  /** A cell as (row, column), 1-based over the live region. */
  type Cell = (int, int)

  predicate InGrid(c: Cell, height: int, width: int) {
    1 <= c.0 <= height && 1 <= c.1 <= width
  }

  /** The live cells after `k` generations. */
  function Iterate(step: set<Cell> -> set<Cell>, cells: set<Cell>, k: nat): set<Cell>
    decreases k
  {
    if k == 0 then cells else Iterate(step, step(cells), k - 1)
  }

  lemma {:induction false} IterateNext(step: set<Cell> -> set<Cell>, cells: set<Cell>, k: nat)
    ensures Iterate(step, cells, k + 1) == step(Iterate(step, cells, k))
    decreases k
  {
    if k > 0 {
      IterateNext(step, step(cells), k - 1);
    }
  }

  class World {
    const height: int
    const width: int
    const rule: set<Cell> -> set<Cell>
    const stableTest: set<Cell> -> bool

    /** The live cells of the current generation. */
    var alive: set<Cell>
    /** Every cell passed to `set(x, y)`, in call order. */
    ghost var writes: seq<Cell>
    /** The number of calls of `evolve`. */
    ghost var evolutions: nat

    constructor (height: int, width: int, rule: set<Cell> -> set<Cell>, stableTest: set<Cell> -> bool)
      ensures this.height == height && this.width == width
      ensures this.rule == rule && this.stableTest == stableTest
      ensures alive == {} && writes == [] && evolutions == 0
    {
      this.height := height;
      this.width := width;
      this.rule := rule;
      this.stableTest := stableTest;
      alive := {};
      writes := [];
      evolutions := 0;
    }

    /** `set(x, y)`: makes the cell alive; a cell outside the live region is
        left alone. */
    method Set(x: int, y: int)
      modifies this
      ensures writes == old(writes) + [(x, y)]
      ensures alive == if InGrid((x, y), height, width) then old(alive) + {(x, y)} else old(alive)
      ensures evolutions == old(evolutions)
    {
      if InGrid((x, y), height, width) {
        alive := alive + {(x, y)};
      }
      writes := writes + [(x, y)];
    }

    /** `get(x, y)`: 1 for a live cell, 0 otherwise. */
    function Get(x: int, y: int): (v: int)
      reads this
      ensures v == 0 || v == 1
      ensures v == 1 <==> (x, y) in alive
    {
      if (x, y) in alive then 1 else 0
    }

    /** `evolve()`: one generation. */
    method Evolve()
      modifies this
      ensures alive == rule(old(alive))
      ensures evolutions == old(evolutions) + 1 && writes == old(writes)
    {
      alive := rule(alive);
      evolutions := evolutions + 1;
    }

    /** `is_stable()`: the engine's verdict on the current generation. */
    method IsStable() returns (stable: bool)
      ensures stable == stableTest(alive)
    {
      stable := stableTest(alive);
    }
  }
}
