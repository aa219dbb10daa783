/** The CLI session of src/cli.cc: the print, delay and stability settings,
    the run loop, wrapped single-cell access and pattern stamping onto the
    World it owns. */
module Session {
  import opened Engine

  // ---------------------------------------------------------------------------
  // Toroidal wrapping

  /** C++ `a % n` for n > 0: the remainder of division truncated toward zero,
      so it takes the sign of `a`. */
  function TruncRem(a: int, n: int): (r: int)
    requires n > 0
    ensures -n < r < n
    ensures r != 0 ==> (r < 0 <==> a < 0)
  {
    if a >= 0 then a % n else -((-a) % n)
  }

  /** `a` and its truncated remainder differ by a multiple of `n`. */
  lemma TruncRemMultiple(a: int, n: int)
    requires n > 0
    ensures (a - TruncRem(a, n)) % n == 0
  {
    if a >= 0 {
      var q := a / n;
      assert a - a % n == q * n;
      ModOfMultiple(q, n);
    } else {
      var q := (-a) / n;
      assert -a == q * n + (-a) % n;
      assert a + (-a) % n == (-q) * n;
      ModOfMultiple(-q, n);
    }
  }

  /** The wrap the CLI applies to a row (n = height) or a column (n = width):
      `(v - 1) % n + 1`, then `+ n` when that is below 1. */
  function Wrap(v: int, n: int): (r: int)
    requires n > 0
    ensures 1 <= r <= n
  {
    var t := TruncRem(v - 1, n) + 1;
    if t < 1 then t + n else t
  }

  /** The wrap written with C++'s truncating `%` agrees with Dafny's
      Euclidean `%`. */
  lemma WrapIsEuclidean(v: int, n: int)
    requires n > 0
    ensures Wrap(v, n) == (v - 1) % n + 1
  {
    TruncRemMultiple(v - 1, n);
    WrapEuclidean(v - 1, n, TruncRem(v - 1, n));
  }

  lemma ModUnique(a: int, n: int, q: int, r: int)
    requires n > 0 && 0 <= r < n && a == q * n + r
    ensures a % n == r && a / n == q
  {
    var q', r' := a / n, a % n;
    assert a == q' * n + r';
    var k := q - q';
    assert k * n == r' - r;
    if k > 0 {
      MulAtLeast(k, n);
    } else if k < 0 {
      MulAtLeast(-k, n);
    }
  }

  lemma MulAtLeast(k: int, n: int)
    requires k >= 1 && n > 0
    ensures k * n >= n
  {
    assert k * n == (k - 1) * n + n;
    assert (k - 1) * n >= 0;
  }

  lemma ModOfMultiple(q: int, n: int)
    requires n > 0
    ensures (q * n) % n == 0
  {
    ModUnique(q * n, n, q, 0);
  }

  /** The truncated remainder `t` of `a`, moved up by `n` when negative, is the
      Euclidean remainder. */
  lemma WrapEuclidean(a: int, n: int, t: int)
    requires n > 0 && -n < t < n && (t != 0 ==> (t < 0 <==> a < 0)) && (a - t) % n == 0
    ensures (if t < 0 then t + n else t) == a % n
  {
    var q := (a - t) / n;
    ModUnique(a - t, n, q, 0);
    if t < 0 {
      assert a == (q - 1) * n + (t + n);
      ModUnique(a, n, q - 1, t + n);
    } else {
      ModUnique(a, n, q, t);
    }
  }

  lemma ModShift(a: int, d: int, n: int)
    requires n > 0
    ensures (a % n + d) % n == (a + d) % n
  {
    var q, r := a / n, a % n;
    var s := (r + d) % n;
    var p := (r + d) / n;
    assert r + d == p * n + s;
    assert a + d == (q + p) * n + s;
    ModUnique(a + d, n, q + p, s);
  }

  lemma ModDistinct(a: int, b: int, n: int)
    requires n > 0 && a < b < a + n
    ensures a % n != b % n
  {
    var q, r := a / n, a % n;
    var k := b - a;
    if r + k < n {
      ModUnique(b, n, q, r + k);
    } else {
      assert b == (q + 1) * n + (r + k - n);
      ModUnique(b, n, q + 1, r + k - n);
    }
  }

  /** Wrapping leaves an in-range coordinate as it is. */
  lemma WrapIdentity(v: int, n: int)
    requires 1 <= v <= n
    ensures Wrap(v, n) == v
  {
    WrapIsEuclidean(v, n);
    ModUnique(v - 1, n, 0, v - 1);
  }

  /** Wrapping twice is wrapping once. */
  lemma WrapIdempotent(v: int, n: int)
    requires n > 0
    ensures Wrap(Wrap(v, n), n) == Wrap(v, n)
  {
    WrapIdentity(Wrap(v, n), n);
  }

  /** Adding an offset to a wrapped anchor and wrapping again lands where
      wrapping the unwrapped sum lands. */
  lemma WrapShift(v: int, d: int, n: int)
    requires n > 0
    ensures Wrap(Wrap(v, n) + d, n) == Wrap(v + d, n)
  {
    WrapIsEuclidean(v, n);
    WrapIsEuclidean(Wrap(v, n) + d, n);
    WrapIsEuclidean(v + d, n);
    ModShift(v - 1, d, n);
  }

  /** Two coordinates less than `n` apart wrap to different cells. */
  lemma WrapInjective(a: int, b: int, n: int)
    requires n > 0 && a < b < a + n
    ensures Wrap(a, n) != Wrap(b, n)
  {
    WrapIsEuclidean(a, n);
    WrapIsEuclidean(b, n);
    ModDistinct(a - 1, b - 1, n);
  }

  // ---------------------------------------------------------------------------
  // Patterns

  datatype Pattern = Glider | Toad | Beacon | Methuselah

  /** The (row, column) offsets each pattern sets relative to its anchor. */
  function Offsets(p: Pattern): (os: seq<(int, int)>)
    ensures |os| == if p == Glider || p == Methuselah then 5 else 6
  {
    match p
    case Glider => [(0, 1), (1, 2), (2, 0), (2, 1), (2, 2)]
    case Toad => [(0, 1), (0, 2), (0, 3), (1, 0), (1, 1), (1, 2)]
    case Beacon => [(0, 0), (0, 1), (1, 0), (2, 3), (3, 2), (3, 3)]
    case Methuselah => [(0, 1), (0, 2), (1, 0), (1, 1), (2, 1)]
  }

  /** The pattern `random` stamps for a drawn kind (the `switch` in random). */
  function PatternOf(kind: int): Pattern
    requires 0 <= kind <= 3
  {
    if kind == 0 then Glider else if kind == 1 then Toad else if kind == 2 then Beacon else Methuselah
  }

  /** The rows and columns a pattern spans. */
  function Span(p: Pattern): (int, int)
  {
    match p
    case Glider => (3, 3)
    case Toad => (2, 4)
    case Beacon => (4, 4)
    case Methuselah => (3, 3)
  }

  /** The cells a stamp writes, in order: each offset added to the wrapped
      anchor and wrapped again. */
  function Placed(offsets: seq<(int, int)>, x: int, y: int, height: int, width: int): (cells: seq<Cell>)
    requires height > 0 && width > 0
    ensures |cells| == |offsets|
    ensures forall k :: 0 <= k < |cells| ==> InGrid(cells[k], height, width)
  {
    var br := Wrap(x, height);
    var bc := Wrap(y, width);
    seq(|offsets|, k requires 0 <= k < |offsets| =>
      (Wrap(br + offsets[k].0, height), Wrap(bc + offsets[k].1, width)))
  }

  function CellSet(cells: seq<Cell>): set<Cell>
  {
    set c | c in cells
  }

  /** Writing `done` and then `next` after `writes0` is writing `done + next`. */
  lemma AppendStep(writes0: seq<Cell>, alive0: set<Cell>, done: seq<Cell>, next: seq<Cell>,
                   writes1: seq<Cell>, alive1: set<Cell>, writes2: seq<Cell>, alive2: set<Cell>)
    requires writes1 == writes0 + done && alive1 == alive0 + CellSet(done)
    requires writes2 == writes1 + next && alive2 == alive1 + CellSet(next)
    ensures writes2 == writes0 + (done + next)
    ensures alive2 == alive0 + (CellSet(done) + CellSet(next))
  {
  }

  lemma StampStep(cells: seq<Cell>, k: nat)
    requires k < |cells|
    ensures cells[..k + 1] == cells[..k] + [cells[k]]
    ensures CellSet(cells[..k + 1]) == CellSet(cells[..k]) + {cells[k]}
  {
    assert cells[..k + 1] == cells[..k] + [cells[k]];
  }

  /** One choice of the random source in `random(n)`: the pattern kind and the
      anchor it draws. */
  datatype Draw = Draw(kind: int, x: int, y: int)

  predicate ValidDraw(d: Draw, height: int, width: int)
  {
    0 <= d.kind <= 3 && 1 <= d.x <= height && 1 <= d.y <= width
  }

  /** The cells one round of `random` writes: the stamp of the drawn kind at
      the drawn anchor, and nothing for a kind the `switch` has no case for. */
  function DrawCells(d: Draw, height: int, width: int): seq<Cell>
    requires height > 0 && width > 0
  {
    if 0 <= d.kind <= 3 then Placed(Offsets(PatternOf(d.kind)), d.x, d.y, height, width) else []
  }

  /** The cells `random` writes for a run of draws, stamp after stamp. */
  function DrawnCells(draws: seq<Draw>, height: int, width: int): seq<Cell>
    requires height > 0 && width > 0
    decreases |draws|
  {
    if draws == [] then []
    else DrawnCells(draws[..|draws| - 1], height, width) + DrawCells(draws[|draws| - 1], height, width)
  }

  lemma DrawnCellsNext(draws: seq<Draw>, i: nat, height: int, width: int)
    requires height > 0 && width > 0 && i < |draws|
    ensures DrawnCells(draws[..i + 1], height, width)
         == DrawnCells(draws[..i], height, width) + DrawCells(draws[i], height, width)
    ensures CellSet(DrawnCells(draws[..i + 1], height, width))
         == CellSet(DrawnCells(draws[..i], height, width)) + CellSet(DrawCells(draws[i], height, width))
  {
    assert draws[..i + 1][..i] == draws[..i];
  }

  /** When every draw is what the distributions can produce (a kind in 0..3,
      an anchor on the grid), every round stamps a whole pattern: five or six
      cells per draw. */
  lemma {:induction false} DrawnCellsCount(draws: seq<Draw>, height: int, width: int)
    requires height > 0 && width > 0
    requires forall k :: 0 <= k < |draws| ==> ValidDraw(draws[k], height, width)
    ensures 5 * |draws| <= |DrawnCells(draws, height, width)| <= 6 * |draws|
    decreases |draws|
  {
    if draws != [] {
      var n := |draws| - 1;
      var init := draws[..n];
      assert forall k :: 0 <= k < |init| ==> init[k] == draws[k];
      DrawnCellsCount(init, height, width);
      DrawCellsLength(draws[n], height, width);
      assert |DrawnCells(draws, height, width)|
          == |DrawnCells(init, height, width)| + |DrawCells(draws[n], height, width)|;
      assert 5 * |draws| == 5 * n + 5 && 6 * |draws| == 6 * n + 6;
    }
  }

  lemma DrawCellsLength(d: Draw, height: int, width: int)
    requires height > 0 && width > 0 && ValidDraw(d, height, width)
    ensures 5 <= |DrawCells(d, height, width)| <= 6
  {
  }

  /** The placed cells are the wrapped sums of the raw anchor and the offsets:
      wrapping the anchor first changes nothing. */
  lemma PlacedIsWrappedSum(offsets: seq<(int, int)>, x: int, y: int, height: int, width: int, k: int)
    requires height > 0 && width > 0 && 0 <= k < |offsets|
    ensures Placed(offsets, x, y, height, width)[k]
         == (Wrap(x + offsets[k].0, height), Wrap(y + offsets[k].1, width))
  {
    WrapShift(x, offsets[k].0, height);
    WrapShift(y, offsets[k].1, width);
  }

  /** On a grid at least as large as the pattern, the stamped cells are
      pairwise distinct, so a stamp turns on exactly |Offsets(p)| cells. */
  lemma StampCellsDistinct(p: Pattern, x: int, y: int, height: int, width: int)
    requires height >= Span(p).0 && width >= Span(p).1
    ensures var cells := Placed(Offsets(p), x, y, height, width);
      forall i, j :: 0 <= i < j < |cells| ==> cells[i] != cells[j]
    ensures |CellSet(Placed(Offsets(p), x, y, height, width))| == |Offsets(p)|
  {
    var offs := Offsets(p);
    var cells := Placed(offs, x, y, height, width);
    OffsetsInSpan(p);
    OffsetsDistinct(p);
    forall i, j | 0 <= i < j < |cells|
      ensures cells[i] != cells[j]
    {
      PlacedDistinct(offs, x, y, height, width, i, j);
    }
    DistinctCount(cells);
  }

  lemma OffsetsInSpan(p: Pattern)
    ensures forall k :: 0 <= k < |Offsets(p)| ==>
      0 <= Offsets(p)[k].0 < Span(p).0 && 0 <= Offsets(p)[k].1 < Span(p).1
  {
  }

  lemma OffsetsDistinct(p: Pattern)
    ensures forall i, j :: 0 <= i < j < |Offsets(p)| ==> Offsets(p)[i] != Offsets(p)[j]
  {
  }

  /** Two different offsets inside the grid land on different cells. */
  lemma PlacedDistinct(offs: seq<(int, int)>, x: int, y: int, height: int, width: int, i: int, j: int)
    requires height > 0 && width > 0 && 0 <= i < |offs| && 0 <= j < |offs| && offs[i] != offs[j]
    requires 0 <= offs[i].0 < height && 0 <= offs[j].0 < height
    requires 0 <= offs[i].1 < width && 0 <= offs[j].1 < width
    ensures Placed(offs, x, y, height, width)[i] != Placed(offs, x, y, height, width)[j]
  {
    var br, bc := Wrap(x, height), Wrap(y, width);
    var (a, b) := (offs[i], offs[j]);
    if a.0 < b.0 {
      WrapInjective(br + a.0, br + b.0, height);
    } else if b.0 < a.0 {
      WrapInjective(br + b.0, br + a.0, height);
    } else if a.1 < b.1 {
      WrapInjective(bc + a.1, bc + b.1, width);
    } else {
      WrapInjective(bc + b.1, bc + a.1, width);
    }
  }

  lemma {:induction false} DistinctCount(cells: seq<Cell>)
    requires forall i, j :: 0 <= i < j < |cells| ==> cells[i] != cells[j]
    ensures |CellSet(cells)| == |cells|
    decreases |cells|
  {
    if cells != [] {
      var init := cells[..|cells| - 1];
      var last := cells[|cells| - 1];
      assert CellSet(cells) == CellSet(init) + {last};
      assert last !in CellSet(init);
      DistinctCount(init);
    }
  }

  // ---------------------------------------------------------------------------
  // The run loop

  /** The number of `evolve` calls `run(gen)` makes from the live cells
      `cells`: one per generation, except that with the stability check on it
      stops at the first generation the engine reports stable. */
  function RunLength(step: set<Cell> -> set<Cell>, stable: set<Cell> -> bool,
                     cells: set<Cell>, gen: int, check: bool): (n: nat)
    ensures n <= if gen > 0 then gen else 0
    decreases gen
  {
    if gen <= 0 then 0
    else if check && stable(cells) then 0
    else 1 + RunLength(step, stable, step(cells), gen - 1, check)
  }

  /** Without the stability check, `run(gen)` evolves exactly `gen` times
      (none for a negative count). */
  lemma {:induction false} RunLengthUnchecked(step: set<Cell> -> set<Cell>, stable: set<Cell> -> bool,
                                              cells: set<Cell>, gen: int)
    ensures RunLength(step, stable, cells, gen, false) == if gen > 0 then gen else 0
    decreases gen
  {
    if gen > 0 {
      RunLengthUnchecked(step, stable, step(cells), gen - 1);
    }
  }

  /** `run(gen)` evolves at most `gen` times; every generation it evolves past
      was reported unstable, and when it stops early the stability check is
      on and the generation it stopped at was reported stable. */
  lemma {:induction false} RunLengthStopsAtFirstStable(step: set<Cell> -> set<Cell>, stable: set<Cell> -> bool,
                                                       cells: set<Cell>, gen: int, check: bool)
    ensures var k := RunLength(step, stable, cells, gen, check);
      && k <= (if gen > 0 then gen else 0)
      && (check ==> forall j :: 0 <= j < k ==> !stable(Iterate(step, cells, j)))
      && (k < gen ==> check && stable(Iterate(step, cells, k)))
    decreases gen
  {
    if gen > 0 && !(check && stable(cells)) {
      RunLengthStopsAtFirstStable(step, stable, step(cells), gen - 1, check);
      var k := RunLength(step, stable, cells, gen, check);
      if check {
        forall j | 0 <= j < k
          ensures !stable(Iterate(step, cells, j))
        {
          if j > 0 {
            assert Iterate(step, cells, j) == Iterate(step, step(cells), j - 1);
          }
        }
      }
    }
  }

  // ---------------------------------------------------------------------------
  // The CLI object

  class Cli {
    var printWorld: bool
    var checkStability: bool
    var printDelay: int
    var world: World

    /** `CLI()`: printing off, stability check off, 100 ms delay, and the
        World it is given (the C++ object default-constructs one). */
    constructor (initial: World)
      ensures printDelay == 100 && !printWorld && !checkStability
      ensures world == initial
    {
      printDelay := 100;
      printWorld := false;
      checkStability := false;
      world := initial;
    }

    /** `create(height, width)`: a fresh, all-dead World of that size, run by
        the same engine; the settings stay. */
    method Create(height: int, width: int)
      modifies this
      ensures fresh(world) && world.height == height && world.width == width
      ensures world.rule == old(world.rule) && world.stableTest == old(world.stableTest)
      ensures world.alive == {} && world.writes == [] && world.evolutions == 0
      ensures printWorld == old(printWorld) && checkStability == old(checkStability)
      ensures printDelay == old(printDelay)
    {
      world := new World(height, width, world.rule, world.stableTest);
    }

    /** `print(setting)`: printing is on exactly when `setting` is 1. */
    method Print(setting: int)
      modifies this
      ensures printWorld == (setting == 1)
      ensures checkStability == old(checkStability) && printDelay == old(printDelay)
      ensures world == old(world)
    {
      printWorld := setting == 1;
    }

    /** `delay(ms)`: stores the delay as given. */
    method Delay(ms: int)
      modifies this
      ensures printDelay == ms
      ensures printWorld == old(printWorld) && checkStability == old(checkStability)
      ensures world == old(world)
    {
      printDelay := ms;
    }

    /** `stability(x)`: the check is on exactly when `x` is 1. */
    method Stability(x: int)
      modifies this
      ensures checkStability == (x == 1)
      ensures printWorld == old(printWorld) && printDelay == old(printDelay)
      ensures world == old(world)
    {
      checkStability := x == 1;
    }

    /** `run(gen)`: at most `gen` generations, stopping before the first one
        the engine reports stable when the check is on. */
    method Run(gen: int)
      modifies world
      ensures world.evolutions
           == old(world.evolutions) + RunLength(world.rule, world.stableTest, old(world.alive), gen, checkStability)
      ensures world.alive
           == Iterate(world.rule, old(world.alive),
                      RunLength(world.rule, world.stableTest, old(world.alive), gen, checkStability))
      ensures world.writes == old(world.writes)
    {
      var i := 0;
      while i < gen
        invariant 0 <= i && (gen >= 0 ==> i <= gen)
        invariant world.evolutions == old(world.evolutions) + i
        invariant world.alive == Iterate(world.rule, old(world.alive), i)
        invariant world.writes == old(world.writes)
        invariant RunLength(world.rule, world.stableTest, old(world.alive), gen, checkStability)
               == i + RunLength(world.rule, world.stableTest, world.alive, gen - i, checkStability)
      {
        if checkStability {
          var stable := world.IsStable();
          if stable {
            break;
          }
        }
        IterateNext(world.rule, old(world.alive), i);
        world.Evolve();
        i := i + 1;
      }
    }

    /** `set(x, y, alive)`: a positive `alive` makes the wrapped cell alive
        with one `world.set` call; otherwise nothing happens. */
    method Set(x: int, y: int, alive: int)
      requires world.height > 0 && world.width > 0
      modifies world
      ensures alive <= 0 ==> unchanged(world)
      ensures alive > 0 ==> world.writes == old(world.writes) + [(Wrap(x, world.height), Wrap(y, world.width))]
      ensures alive > 0 ==> world.alive == old(world.alive) + {(Wrap(x, world.height), Wrap(y, world.width))}
      ensures world.evolutions == old(world.evolutions)
    {
      var height, width := world.height, world.width;
      var wrappedX, wrappedY := Wrap(x, height), Wrap(y, width);
      if alive > 0 {
        world.Set(wrappedX, wrappedY);
      }
    }

    /** `get(x, y)`: the state of the wrapped cell. */
    method Get(x: int, y: int) returns (state: int)
      requires world.height > 0 && world.width > 0
      ensures state == 1 <==> (Wrap(x, world.height), Wrap(y, world.width)) in world.alive
      ensures state == 0 || state == 1
    {
      var height, width := world.height, world.width;
      state := world.Get(Wrap(x, height), Wrap(y, width));
    }

    /** The shared loop of glider, toad, beacon and methuselah: one
        `world.set` per offset, on the wrapped anchor plus the offset. */
    method StampPattern(p: Pattern, x: int, y: int)
      requires world.height > 0 && world.width > 0
      modifies world
      ensures world.writes == old(world.writes) + Placed(Offsets(p), x, y, world.height, world.width)
      ensures world.alive == old(world.alive) + CellSet(Placed(Offsets(p), x, y, world.height, world.width))
      ensures world.evolutions == old(world.evolutions)
    {
      var height, width := world.height, world.width;
      var baseX, baseY := Wrap(x, height), Wrap(y, width);
      var coords := Offsets(p);
      ghost var cells := Placed(coords, x, y, height, width);
      var k := 0;
      while k < |coords|
        invariant 0 <= k <= |coords|
        invariant world.writes == old(world.writes) + cells[..k]
        invariant world.alive == old(world.alive) + CellSet(cells[..k])
        invariant world.evolutions == old(world.evolutions)
      {
        var (dx, dy) := coords[k];
        StampStep(cells, k);
        world.Set(Wrap(baseX + dx, height), Wrap(baseY + dy, width));
        k := k + 1;
      }
      assert cells[..k] == cells;
    }

    /** `glider(x, y)`. */
    method Glider(x: int, y: int)
      requires world.height > 0 && world.width > 0
      modifies world
      ensures world.writes == old(world.writes) + Placed(Offsets(Pattern.Glider), x, y, world.height, world.width)
      ensures old(world.alive) <= world.alive
      ensures world.alive == old(world.alive) + CellSet(Placed(Offsets(Pattern.Glider), x, y, world.height, world.width))
      ensures world.evolutions == old(world.evolutions)
    {
      StampPattern(Pattern.Glider, x, y);
    }

    /** `toad(x, y)`. */
    method Toad(x: int, y: int)
      requires world.height > 0 && world.width > 0
      modifies world
      ensures world.writes == old(world.writes) + Placed(Offsets(Pattern.Toad), x, y, world.height, world.width)
      ensures old(world.alive) <= world.alive
      ensures world.alive == old(world.alive) + CellSet(Placed(Offsets(Pattern.Toad), x, y, world.height, world.width))
      ensures world.evolutions == old(world.evolutions)
    {
      StampPattern(Pattern.Toad, x, y);
    }

    /** `beacon(x, y)`. */
    method Beacon(x: int, y: int)
      requires world.height > 0 && world.width > 0
      modifies world
      ensures world.writes == old(world.writes) + Placed(Offsets(Pattern.Beacon), x, y, world.height, world.width)
      ensures old(world.alive) <= world.alive
      ensures world.alive == old(world.alive) + CellSet(Placed(Offsets(Pattern.Beacon), x, y, world.height, world.width))
      ensures world.evolutions == old(world.evolutions)
    {
      StampPattern(Pattern.Beacon, x, y);
    }

    /** `methuselah(x, y)`: the R-pentomino. */
    method Methuselah(x: int, y: int)
      requires world.height > 0 && world.width > 0
      modifies world
      ensures world.writes == old(world.writes) + Placed(Offsets(Pattern.Methuselah), x, y, world.height, world.width)
      ensures old(world.alive) <= world.alive
      ensures world.alive == old(world.alive) + CellSet(Placed(Offsets(Pattern.Methuselah), x, y, world.height, world.width))
      ensures world.evolutions == old(world.evolutions)
    {
      StampPattern(Pattern.Methuselah, x, y);
    }

    /** One round of `random`: the `switch` on the drawn kind. */
    method StampDrawn(d: Draw)
      requires world.height > 0 && world.width > 0
      modifies world
      ensures world.writes == old(world.writes) + DrawCells(d, world.height, world.width)
      ensures world.alive == old(world.alive) + CellSet(DrawCells(d, world.height, world.width))
      ensures world.evolutions == old(world.evolutions)
    {
      if d.kind == 0 {
        Glider(d.x, d.y);
      } else if d.kind == 1 {
        Toad(d.x, d.y);
      } else if d.kind == 2 {
        Beacon(d.x, d.y);
      } else if d.kind == 3 {
        Methuselah(d.x, d.y);
      }
    }

    /** `random(n)`: `n` stamps, the i-th of the kind and at the anchor of
        `draws[i]`; `draws` stands for the values the three uniform
        distributions produce. */
    method Random(n: int, draws: seq<Draw>)
      requires world.height > 0 && world.width > 0
      requires |draws| == if n > 0 then n else 0
      modifies world
      ensures world.writes == old(world.writes) + DrawnCells(draws, world.height, world.width)
      ensures world.alive == old(world.alive) + CellSet(DrawnCells(draws, world.height, world.width))
      ensures world.evolutions == old(world.evolutions)
    {
      var height, width := world.height, world.width;
      var i := 0;
      while i < n
        invariant 0 <= i <= |draws| && (i < n ==> i < |draws|)
        invariant world.writes == old(world.writes) + DrawnCells(draws[..i], height, width)
        invariant world.alive == old(world.alive) + CellSet(DrawnCells(draws[..i], height, width))
        invariant world.evolutions == old(world.evolutions)
      {
        var d := draws[i];
        ghost var writes, alive := world.writes, world.alive;
        StampDrawn(d);
        DrawnCellsNext(draws, i, height, width);
        AppendStep(old(world.writes), old(world.alive), DrawnCells(draws[..i], height, width),
          DrawCells(d, height, width), writes, alive, world.writes, world.alive);
        i := i + 1;
      }
      assert i == |draws|;
      assert draws[..i] == draws;
    }
  }
}
