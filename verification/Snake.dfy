/** The snake game: rules, steering buffer and food placement. */
module Snake {
  import opened Bytes

  const POINTS_PER_FOOD: nat := 10
  const START_LENGTH: nat := 3
  const MAX_PENDING: nat := 2
  const MIN_GRID_W: nat := 8
  const MIN_GRID_H: nat := 4

  datatype Cell = Cell(x: int, y: int)

  datatype Direction = North | East | South | West {
    function Opposite(): Direction {
      match this
      case North => South
      case East => West
      case South => North
      case West => East
    }

    function Delta(): (int, int) {
      match this
      case North => (0, -1)
      case East => (1, 0)
      case South => (0, 1)
      case West => (-1, 0)
    }

    /** Neither the same nor the reverse heading. */
    predicate Perpendicular(other: Direction) { this != other && this != other.Opposite() }
  }

  datatype StepOutcome = Moved | Ate | Crashed

  function Move(c: Cell, dir: Direction): Cell { Cell(c.x + dir.Delta().0, c.y + dir.Delta().1) }

  // --- Random numbers --------------------------------------------------------------

  function Seeded(seed: bv32): bv32 { if seed == 0 then 0x9E37_79B9 else seed }

  function XorShift(state: bv32): bv32 {
    var x := state ^ (state << 13);
    var x' := x ^ (x >> 17);
    x' ^ (x' << 5)
  }

  lemma SeededNotZero(seed: bv32)
    ensures Seeded(seed) != 0
  {
  }

  /** The generator never falls into the all-zero state. */
  lemma XorShiftNeverZero(state: bv32)
    requires state != 0
    ensures XorShift(state) != 0
  {
    var x := state ^ (state << 13);
    assert x != 0;
    var x' := x ^ (x >> 17);
    assert x' != 0;
  }

  /** `below`: the generator's value reduced to `0..bound`. */
  function Below(rng: bv32, bound: nat): (r: nat)
    requires bound > 0
    ensures r < bound
  {
    Modulo(rng as nat, bound)
  }

  function Modulo(n: nat, bound: nat): (r: nat)
    requires bound > 0
    ensures r < bound
  {
    n % bound
  }

  // --- The rules ---------------------------------------------------------------------

  datatype State = State(
    w: nat, h: nat,
    snake: seq<Cell>, dir: Direction, pending: seq<Direction>,
    food: Option<Cell>, score: nat, alive: bool, rng: bv32)

  predicate InGrid(c: Cell, w: nat, h: nat) { 0 <= c.x < w && 0 <= c.y < h }

  /** Free cells of row `y` from column `x` on. */
  function FreeRow(w: nat, snake: seq<Cell>, y: nat, x: nat): seq<Cell>
    decreases w - x
  {
    if x >= w then []
    else (if Cell(x, y) in snake then [] else [Cell(x, y)]) + FreeRow(w, snake, y, x + 1)
  }

  /** Free cells from row `y` on, row by row. */
  function FreeRows(w: nat, h: nat, snake: seq<Cell>, y: nat): seq<Cell>
    decreases h - y
  {
    if y >= h then [] else FreeRow(w, snake, y, 0) + FreeRows(w, h, snake, y + 1)
  }

  function FreeCells(w: nat, h: nat, snake: seq<Cell>): seq<Cell> { FreeRows(w, h, snake, 0) }

  /** Food goes to the cell the generator picks among the free ones. */
  function Spawned(s: State): State {
    var free := FreeCells(s.w, s.h, s.snake);
    if free == [] then s.(food := None)
    else
      var rng := XorShift(s.rng);
      s.(rng := rng, food := Some(free[Below(rng, |free|)]))
  }

  function Start(w: nat, h: nat, seed: bv32): Option<State> {
    if w < MIN_GRID_W || h < MIN_GRID_H then None
    else
      var c := Cell(w / 2, h / 2);
      var snake := [c, Cell(c.x - 1, c.y), Cell(c.x - 2, c.y)];
      Some(Spawned(State(w, h, snake, East, [], None, 0, true, Seeded(seed))))
  }

  /** The heading a new turn is judged against. */
  function Effective(s: State): Direction {
    if s.pending == [] then s.dir else s.pending[|s.pending| - 1]
  }

  predicate Accepts(s: State, dir: Direction) { s.alive && dir.Perpendicular(Effective(s)) }

  function Steered(s: State, dir: Direction): State {
    if !Accepts(s, dir) then s
    else
      var queue := s.pending + [dir];
      s.(pending := if |queue| > MAX_PENDING then queue[1..] else queue)
  }

  /** The next legal turn of the queue, with the entries up to it consumed. */
  function NextTurn(dir: Direction, pending: seq<Direction>): (Direction, seq<Direction>) {
    if pending == [] then (dir, [])
    else if pending[0].Perpendicular(dir) then (pending[0], pending[1..])
    else NextTurn(dir, pending[1..])
  }

  /** A step crashes off the grid or on a body cell that does not move away. */
  predicate Blocked(s: State, head: Cell)
    requires s.snake != []
  {
    !InGrid(head, s.w, s.h) || head in s.snake[..|s.snake| - 1]
  }

  function Stepped(s: State): (State, StepOutcome)
    requires s.snake != []
  {
    if !s.alive then (s, Crashed)
    else
      var (dir, pending) := NextTurn(s.dir, s.pending);
      var head := Move(s.snake[0], dir);
      var t := s.(dir := dir, pending := pending);
      if Blocked(s, head) then (t.(alive := false), Crashed)
      else if s.food == Some(head) then
        (Spawned(t.(snake := [head] + s.snake, score := s.score + POINTS_PER_FOOD)), Ate)
      else (t.(snake := [head] + s.snake[..|s.snake| - 1]), Moved)
  }

  // --- What every reachable state keeps -------------------------------------------------

  ghost predicate Distinct(cells: seq<Cell>) {
    forall i, j :: 0 <= i < j < |cells| ==> cells[i] != cells[j]
  }

  predicate Neighbours(a: Cell, b: Cell) {
    (a.x == b.x && (a.y == b.y + 1 || b.y == a.y + 1)) || (a.y == b.y && (a.x == b.x + 1 || b.x == a.x + 1))
  }

  ghost predicate Body(s: State) {
    && MIN_GRID_W <= s.w < 256 && MIN_GRID_H <= s.h < 256
    && |s.snake| >= START_LENGTH
    && (forall i :: 0 <= i < |s.snake| ==> InGrid(s.snake[i], s.w, s.h))
    && Distinct(s.snake)
    && (forall i :: 0 < i < |s.snake| ==> Neighbours(s.snake[i - 1], s.snake[i]))
    && s.rng != 0
  }

  ghost predicate FoodPlaced(s: State) {
    match s.food
    case Some(f) => InGrid(f, s.w, s.h) && f !in s.snake
    case None => |s.snake| == s.w * s.h
  }

  /** Two queued turns are perpendicular; a lone one is perpendicular to the heading. */
  predicate QueueInv(dir: Direction, pending: seq<Direction>) {
    && |pending| <= MAX_PENDING
    && (|pending| == 1 ==> pending[0].Perpendicular(dir))
    && (|pending| == 2 ==> pending[1].Perpendicular(pending[0]))
  }

  ghost predicate Inv(s: State) {
    && Body(s)
    && FoodPlaced(s)
    && QueueInv(s.dir, s.pending)
    && (s.alive ==> s.snake[0] == Move(s.snake[1], s.dir))
    && s.score == 10 * (|s.snake| - 3)
  }

  // --- Counting cells --------------------------------------------------------------------

  ghost function Grid(w: nat, h: nat): set<Cell> {
    set x, y | 0 <= x < w && 0 <= y < h :: Cell(x, y)
  }

  ghost function RowSet(w: nat, y: nat): set<Cell> { set x | 0 <= x < w :: Cell(x, y) }

  lemma {:induction false} RowSize(w: nat, y: nat)
    ensures |RowSet(w, y)| == w
  {
    if w > 0 {
      RowSize(w - 1, y);
      assert RowSet(w, y) == RowSet(w - 1, y) + {Cell(w - 1, y)};
    }
  }

  lemma {:induction false} GridSize(w: nat, h: nat)
    ensures |Grid(w, h)| == w * h
  {
    if h > 0 {
      GridSize(w, h - 1);
      RowSize(w, h - 1);
      OneMoreRow(w, h - 1);
      assert w * h == w * (h - 1) + w;
    } else {
      assert Grid(w, 0) == {};
    }
  }

  lemma OneMoreRow(w: nat, h: nat)
    ensures |Grid(w, h + 1)| == |Grid(w, h)| + |RowSet(w, h)|
  {
    assert Grid(w, h + 1) == Grid(w, h) + RowSet(w, h);
    assert Grid(w, h) !! RowSet(w, h);
  }

  ghost function CellSet(cells: seq<Cell>): set<Cell> { set c | c in cells }

  lemma {:induction false} DistinctSize(cells: seq<Cell>)
    requires Distinct(cells)
    ensures |CellSet(cells)| == |cells|
  {
    if cells != [] {
      var n := |cells| - 1;
      DistinctSize(cells[..n]);
      assert CellSet(cells) == CellSet(cells[..n]) + {cells[n]};
    }
  }

  lemma {:induction false} FreeRowExact(w: nat, snake: seq<Cell>, y: nat, x: nat)
    ensures forall c :: c in FreeRow(w, snake, y, x) <==> x <= c.x < w && c.y == y && c !in snake
    ensures Distinct(FreeRow(w, snake, y, x))
    decreases w - x
  {
    if x < w {
      FreeRowExact(w, snake, y, x + 1);
    }
  }

  lemma {:induction false} FreeRowsExact(w: nat, h: nat, snake: seq<Cell>, y: nat)
    ensures forall c :: c in FreeRows(w, h, snake, y) <==> 0 <= c.x < w && y <= c.y < h && c !in snake
    ensures Distinct(FreeRows(w, h, snake, y))
    decreases h - y
  {
    if y < h {
      FreeRowExact(w, snake, y, 0);
      FreeRowsExact(w, h, snake, y + 1);
      DistinctConcat(FreeRow(w, snake, y, 0), FreeRows(w, h, snake, y + 1));
    }
  }

  lemma DistinctConcat(a: seq<Cell>, b: seq<Cell>)
    requires Distinct(a) && Distinct(b) && forall c :: c in a ==> c !in b
    ensures Distinct(a + b)
  {
    forall i, j | 0 <= i < j < |a + b| ensures (a + b)[i] != (a + b)[j] {
      if i < |a| <= j {
        assert a[i] in a && b[j - |a|] in b;
      }
    }
  }

  /** `w * h - len` is the number of free cells: the count `spawn_food` draws
      from is exact, never negative, and 0 only on a full grid. */
  lemma FreeCount(w: nat, h: nat, snake: seq<Cell>)
    requires Distinct(snake) && forall i :: 0 <= i < |snake| ==> InGrid(snake[i], w, h)
    ensures |FreeCells(w, h, snake)| == w * h - |snake|
  {
    var free := FreeCells(w, h, snake);
    FreeRowsExact(w, h, snake, 0);
    DistinctSize(free);
    DistinctSize(snake);
    GridSize(w, h);
    assert CellSet(free) == Grid(w, h) - CellSet(snake);
    assert CellSet(snake) <= Grid(w, h);
  }

  /** Every draw picks a free cell, different draws pick different cells, and
      every free cell is picked by some draw. */
  lemma FoodPlacementIsBijective(w: nat, h: nat, snake: seq<Cell>)
    requires Distinct(snake) && forall i :: 0 <= i < |snake| ==> InGrid(snake[i], w, h)
    ensures var free := FreeCells(w, h, snake);
            && |free| == w * h - |snake|
            && (forall t :: 0 <= t < |free| ==> InGrid(free[t], w, h) && free[t] !in snake)
            && (forall t, u :: 0 <= t < u < |free| ==> free[t] != free[u])
            && (forall c :: InGrid(c, w, h) && c !in snake ==> exists t :: 0 <= t < |free| && free[t] == c)
  {
    FreeCount(w, h, snake);
    FreeRowsExact(w, h, snake, 0);
    var free := FreeCells(w, h, snake);
    forall t | 0 <= t < |free| ensures InGrid(free[t], w, h) && free[t] !in snake {
      assert free[t] in free;
    }
  }

  // --- Steering ----------------------------------------------------------------------------

  lemma SteeredKeepsInv(s: State, dir: Direction)
    requires Inv(s)
    ensures Inv(Steered(s, dir))
  {
  }

  /** With turns queued, a step turns by exactly 90 degrees, skips at most one
      stale entry and leaves a sound queue. */
  lemma {:induction false} NextTurnTurns(dir: Direction, pending: seq<Direction>)
    requires QueueInv(dir, pending)
    ensures var (d, rest) := NextTurn(dir, pending);
            && QueueInv(d, rest)
            && (pending == [] ==> d == dir)
            && (pending != [] ==> d.Perpendicular(dir) && |rest| + 2 >= |pending| > |rest|)
            && rest == pending[|pending| - |rest|..]
  {
    if |pending| == 2 {
      assert pending[1..] == [pending[1]];
    }
  }

  lemma NewestTurnIsLast(s: State, dir: Direction)
    requires Inv(s) && Accepts(s, dir)
    ensures var (d1, rest1) := NextTurn(s.dir, Steered(s, dir).pending);
            var (d2, rest2) := NextTurn(d1, rest1);
            (rest1 == [] && d1 == dir) || (rest1 == [dir] && rest2 == [] && d2 == dir)
  {
    var queue := Steered(s, dir).pending;
    SteeredKeepsInv(s, dir);
    NextTurnTurns(s.dir, queue);
    assert queue[|queue| - 1] == dir;
  }

  // --- Stepping ----------------------------------------------------------------------------

  lemma SpawnedKeeps(s: State)
    requires Body(s)
    ensures var t := Spawned(s);
            && Body(t) && FoodPlaced(t)
            && t == s.(food := t.food, rng := t.rng)
  {
    hide XorShift, Below, FreeRows;
    FreeCount(s.w, s.h, s.snake);
    var free := FreeCells(s.w, s.h, s.snake);
    FreeRowsExact(s.w, s.h, s.snake, 0);
    XorShiftNeverZero(s.rng);
    if free != [] {
      var f := free[Below(XorShift(s.rng), |free|)];
      assert f in free;
    }
  }

  lemma StartInv(w: nat, h: nat, seed: bv32)
    requires w < 256 && h < 256
    ensures Start(w, h, seed).Some? <==> w >= 8 && h >= 4
    ensures Start(w, h, seed).Some? ==> Inv(Start(w, h, seed).value)
  {
    hide Spawned, Seeded;
    if w >= MIN_GRID_W && h >= MIN_GRID_H {
      SeededNotZero(seed);
      var c := Cell(w / 2, h / 2);
      var snake := [c, Cell(c.x - 1, c.y), Cell(c.x - 2, c.y)];
      SpawnedKeeps(State(w, h, snake, East, [], None, 0, true, Seeded(seed)));
    }
  }

  /** The head never moves into the neck. */
  lemma {:induction false} NeckIsSafe(s: State)
    requires Inv(s) && s.alive
    ensures Move(s.snake[0], NextTurn(s.dir, s.pending).0) != s.snake[1]
  {
    NextTurnTurns(s.dir, s.pending);
  }

  /** A legal move keeps the body a chain of distinct cells on the grid. */
  lemma MovedBody(s: State, head: Cell, keep: nat)
    requires Body(s) && InGrid(head, s.w, s.h) && Neighbours(head, s.snake[0])
    requires START_LENGTH - 1 <= keep <= |s.snake| && head !in s.snake[..keep]
    ensures Body(s.(snake := [head] + s.snake[..keep]))
  {
    var snake := [head] + s.snake[..keep];
    forall i, j | 0 <= i < j < |snake| ensures snake[i] != snake[j] {
      if i == 0 {
        assert snake[j] == s.snake[..keep][j - 1];
      }
    }
  }

  lemma SteppedKeepsInv(s: State)
    requires Inv(s)
    ensures Inv(Stepped(s).0)
  {
    hide NextTurn, Spawned, FreeCells, Grid;
    if s.alive {
      var (dir, pending) := NextTurn(s.dir, s.pending);
      NextTurnTurns(s.dir, s.pending);
      var head := Move(s.snake[0], dir);
      if Blocked(s, head) {
      } else if s.food == Some(head) {
        AteKeepsInv(s, dir, pending);
      } else {
        MovedKeepsInv(s, dir, pending);
      }
    }
  }

  lemma AteKeepsInv(s: State, dir: Direction, pending: seq<Direction>)
    requires Inv(s) && QueueInv(dir, pending)
    requires var head := Move(s.snake[0], dir); !Blocked(s, head) && s.food == Some(head)
    ensures var head := Move(s.snake[0], dir);
            Inv(Spawned(s.(dir := dir, pending := pending, snake := [head] + s.snake,
                           score := s.score + POINTS_PER_FOOD)))
  {
    hide Spawned, FreeCells, Grid;
    var head, n := Move(s.snake[0], dir), |s.snake|;
    var t := s.(dir := dir, pending := pending);
    assert [head] + s.snake == [head] + s.snake[..n];
    MovedBody(t, head, n);
    SpawnedKeeps(t.(snake := [head] + s.snake, score := s.score + POINTS_PER_FOOD));
  }

  lemma MovedKeepsInv(s: State, dir: Direction, pending: seq<Direction>)
    requires Inv(s) && QueueInv(dir, pending)
    requires var head := Move(s.snake[0], dir); !Blocked(s, head) && s.food != Some(head)
    ensures var head := Move(s.snake[0], dir);
            Inv(s.(dir := dir, pending := pending, snake := [head] + s.snake[..|s.snake| - 1]))
  {
    var head, n := Move(s.snake[0], dir), |s.snake|;
    var t := s.(dir := dir, pending := pending);
    MovedBody(t, head, n - 1);
    assert s.food.Some? ==> s.food.value !in [head] + s.snake[..n - 1];
  }

  /** Reaching the food is never a crash: it scores, grows and respawns. */
  lemma EatingNeverCrashes(s: State)
    requires Inv(s) && s.alive
    requires s.food == Some(Move(s.snake[0], NextTurn(s.dir, s.pending).0))
    ensures var (t, outcome) := Stepped(s);
            && outcome == Ate && t.alive
            && t.snake == [s.food.value] + s.snake && t.score == s.score + POINTS_PER_FOOD
            && t.food != s.food
  {
    var (t, outcome) := Stepped(s);
    SteppedKeepsInv(s);
    assert t.snake[0] in t.snake;
  }

  // --- What a step and a turn do ---------------------------------------------------------

  /** North is up, and the axes are those of the screen. */
  lemma Compass(c: Cell)
    ensures Move(c, North) == Cell(c.x, c.y - 1) && Move(c, South) == Cell(c.x, c.y + 1)
    ensures Move(c, East) == Cell(c.x + 1, c.y) && Move(c, West) == Cell(c.x - 1, c.y)
    ensures North.Opposite() == South && South.Opposite() == North && East.Opposite() == West && West.Opposite() == East
  {
  }

  /** The cell may be entered: in the grid, and none of the body's but its tail. */
  predicate Open(s: State, c: Cell) {
    && 0 <= c.x < s.w && 0 <= c.y < s.h
    && forall i :: 0 <= i < |s.snake| - 1 ==> s.snake[i] != c
  }

  /** A living snake that enters an open cell moves there, its tail following, or
      eats and keeps its tail; any other step ends the game where it is. */
  lemma {:induction false} StepOutcomes(s: State)
    requires Inv(s) && s.alive
    ensures var (dir, pending) := NextTurn(s.dir, s.pending);
            var (t, outcome) := Stepped(s);
            var n, next := |s.snake|, Move(s.snake[0], dir);
            && t.dir == dir && t.pending == pending && t.w == s.w && t.h == s.h
            && (!Open(s, next) ==> outcome == Crashed && t == s.(dir := dir, pending := pending, alive := false))
            && (Open(s, next) && s.food != Some(next) ==>
                  && outcome == Moved && t.alive && t.snake == [next] + s.snake[..n - 1]
                  && t.food == s.food && t.score == s.score && t.rng == s.rng)
            && (Open(s, next) && s.food == Some(next) ==>
                  && outcome == Ate && t.alive && t.snake == [next] + s.snake && t.score == s.score + 10)
  {
    hide FreeCells, XorShift, NextTurn, Grid;
    BlockedIffClosed(s, Move(s.snake[0], NextTurn(s.dir, s.pending).0));
  }

  lemma BlockedIffClosed(s: State, c: Cell)
    requires s.snake != []
    ensures Blocked(s, c) <==> !Open(s, c)
  {
    var front := s.snake[..|s.snake| - 1];
    if c in front {
      var i :| 0 <= i < |front| && front[i] == c;
      assert s.snake[i] == c;
    }
    if i :| 0 <= i < |s.snake| - 1 && s.snake[i] == c {
      assert front[i] == c;
    }
  }

  /** A turn is taken up exactly by a living snake, at right angles to the last
      turn queued, or to the heading if none is; a third one drops the oldest. */
  lemma {:induction false} TurnsQueue(s: State, dir: Direction)
    requires Inv(s)
    ensures var n := |s.pending|;
            var last := if n == 0 then s.dir else s.pending[n - 1];
            var t := Steered(s, dir);
            if !s.alive || dir == last || dir == last.Opposite() then t == s
            else t == s.(pending := (if n == 2 then s.pending[1..] else s.pending) + [dir])
  {
    if |s.pending| == 2 {
      assert (s.pending + [dir])[1..] == s.pending[1..] + [dir];
    }
  }

  /** The turn a step takes is the first queued one at right angles to the heading. */
  lemma {:induction false} FirstLegalTurn(dir: Direction, pending: seq<Direction>, k: nat)
    requires k < |pending| && pending[k] != dir && pending[k] != dir.Opposite()
    requires forall j :: 0 <= j < k ==> pending[j] in {dir, dir.Opposite()}
    ensures NextTurn(dir, pending) == (pending[k], pending[k + 1..])
    decreases k
  {
    if k > 0 {
      assert pending[0] in {dir, dir.Opposite()};
      FirstLegalTurn(dir, pending[1..], k - 1);
      assert pending[1..][k - 1] == pending[k] && pending[1..][k..] == pending[k + 1..];
    }
  }

  /** A new snake lies west to east with its head in the middle of the grid. */
  lemma {:induction false} StartPosition(w: nat, h: nat, seed: bv32)
    requires 8 <= w < 256 && 4 <= h < 256
    ensures Start(w, h, seed).Some?
    ensures var s := Start(w, h, seed).value;
            && s.snake == [Cell(w / 2, h / 2), Cell(w / 2 - 1, h / 2), Cell(w / 2 - 2, h / 2)]
            && s.dir == East && s.pending == [] && s.score == 0 && s.alive && s.w == w && s.h == h
  {
    hide FreeCells, XorShift;
  }

  /** The generator is the 13, 17, 5 shift register. */
  lemma XorShiftExamples()
    ensures XorShift(1) == 270369 && XorShift(0x8000_0000) == 0x8008_4000 && Seeded(0) != 0
  {
  }

  // --- Where the food goes ---------------------------------------------------------------

  /** `a` comes before `b` when the grid is read row by row. */
  predicate Before(a: Cell, b: Cell) { a.y < b.y || (a.y == b.y && a.x < b.x) }

  ghost predicate InOrder(cells: seq<Cell>) {
    forall i, j :: 0 <= i < j < |cells| ==> Before(cells[i], cells[j])
  }

  lemma OrderConcat(a: seq<Cell>, b: seq<Cell>)
    requires InOrder(a) && InOrder(b) && forall c, d :: c in a && d in b ==> Before(c, d)
    ensures InOrder(a + b)
  {
    hide Before;
    var r := a + b;
    forall i, j | 0 <= i < j < |r| ensures Before(r[i], r[j]) {
      if i < |a| && j >= |a| {
        assert r[i] in a && r[j] in b;
      } else if i < |a| {
        assert r[i] == a[i] && r[j] == a[j];
      } else {
        assert r[i] == b[i - |a|] && r[j] == b[j - |a|];
      }
    }
  }

  lemma {:induction false} FreeRowOrder(w: nat, snake: seq<Cell>, y: nat, x: nat)
    ensures var r := FreeRow(w, snake, y, x);
            InOrder(r) && forall c :: c in r ==> c.y == y && c.x >= x
    decreases w - x
  {
    if x < w {
      FreeRowOrder(w, snake, y, x + 1);
      OrderConcat(if Cell(x, y) in snake then [] else [Cell(x, y)], FreeRow(w, snake, y, x + 1));
    }
  }

  lemma {:induction false} FreeRowsOrder(w: nat, h: nat, snake: seq<Cell>, y: nat)
    ensures var r := FreeRows(w, h, snake, y);
            InOrder(r) && forall c :: c in r ==> c.y >= y
    decreases h - y
  {
    if y < h {
      FreeRowOrder(w, snake, y, 0);
      FreeRowsOrder(w, h, snake, y + 1);
      OrderConcat(FreeRow(w, snake, y, 0), FreeRows(w, h, snake, y + 1));
    }
  }

  lemma DrawIsRemainder(rng: bv32, n: nat)
    requires n > 0
    ensures Below(rng, n) == (rng as nat) % n
  {
  }

  /** The food goes to the free cell whose number, row by row, the generator draws;
      there is none exactly when the snake fills the grid. */
  lemma {:induction false} FoodIsDrawn(s: State)
    requires Body(s)
    ensures var free, t := FreeCells(s.w, s.h, s.snake), Spawned(s);
            && |free| == s.w * s.h - |s.snake| && InOrder(free)
            && (forall c :: c in free <==> 0 <= c.x < s.w && 0 <= c.y < s.h && c !in s.snake)
            && (free == [] ==> t == s.(food := None))
            && (free != [] ==>
                  t == s.(rng := XorShift(s.rng), food := Some(free[Below(XorShift(s.rng), |free|)])))
  {
    hide FreeRows, XorShift, Below, InOrder;
    var free := FreeCells(s.w, s.h, s.snake);
    FreeRowsOrder(s.w, s.h, s.snake, 0);
    FreeIsFree(s.w, s.h, s.snake);
  }

  lemma FreeIsFree(w: nat, h: nat, snake: seq<Cell>)
    requires Distinct(snake) && forall i :: 0 <= i < |snake| ==> InGrid(snake[i], w, h)
    ensures var free := FreeCells(w, h, snake);
            && |free| == w * h - |snake|
            && forall c :: c in free <==> InGrid(c, w, h) && c !in snake
  {
    hide FreeCells;
    FoodPlacementIsBijective(w, h, snake);
    var free := FreeCells(w, h, snake);
    forall c | InGrid(c, w, h) && c !in snake ensures c in free {
      var t :| 0 <= t < |free| && free[t] == c;
    }
  }

  // --- Whole games --------------------------------------------------------------------------

  datatype Input = Steer(dir: Direction) | Step

  function Played(s: State, inputs: seq<Input>): State
    requires s.snake != []
    decreases |inputs|
  {
    if inputs == [] then s
    else
      match inputs[0]
      case Steer(dir) => Played(Steered(s, dir), inputs[1..])
      case Step => Played(AfterStep(s), inputs[1..])
  }

  function AfterStep(s: State): (t: State)
    requires s.snake != []
    ensures t.snake != []
  {
    Stepped(s).0
  }

  lemma StepTurns(s: State)
    requires s.snake != [] && s.alive
    ensures (AfterStep(s).dir, AfterStep(s).pending) == NextTurn(s.dir, s.pending)
  {
    hide FreeCells, XorShift, NextTurn, Blocked;
  }

  /** An accepted input is the heading after one step, or, if the snake survives
      that, after two. */
  lemma {:induction false} NewestInputWins(s: State, dir: Direction)
    requires Inv(s) && Accepts(s, dir)
    ensures Steered(s, dir).snake != []
    ensures var t := AfterStep(Steered(s, dir));
            || (t.dir == dir && t.pending == [])
            || (t.alive ==> AfterStep(t).dir == dir && AfterStep(t).pending == [])
  {
    hide NextTurn, Stepped;
    NewestTurnIsLast(s, dir);
    var turned := Steered(s, dir);
    var t := AfterStep(turned);
    StepTurns(turned);
    if t.alive {
      StepTurns(t);
    }
  }

  /** Every state of every game satisfies the invariant. */
  lemma {:induction false} GameInv(s: State, inputs: seq<Input>)
    requires Inv(s)
    ensures Inv(Played(s, inputs))
    decreases |inputs|
  {
    hide Inv, Steered, Stepped;
    if inputs != [] {
      InvHasSnake(s);
      match inputs[0]
      case Steer(dir) =>
        SteeredKeepsInv(s, dir);
        InvHasSnake(Steered(s, dir));
        GameInv(Steered(s, dir), inputs[1..]);
      case Step =>
        SteppedKeepsInv(s);
        GameInv(AfterStep(s), inputs[1..]);
    }
  }

  lemma InvHasSnake(s: State)
    requires Inv(s)
    ensures s.snake != []
  {
  }

  /** A crashed game never changes again. */
  lemma {:induction false} CrashedGameIsFrozen(s: State, inputs: seq<Input>)
    requires !s.alive && s.snake != []
    ensures Played(s, inputs) == s
    decreases |inputs|
  {
    if inputs != [] {
      CrashedGameIsFrozen(s, inputs[1..]);
    }
  }

  /** The score only ever rises. */
  lemma {:induction false} ScoreRises(s: State, inputs: seq<Input>)
    requires s.snake != []
    ensures Played(s, inputs).score >= s.score
    ensures |Played(s, inputs).snake| - |s.snake| == (Played(s, inputs).score - s.score) / POINTS_PER_FOOD
    decreases |inputs|
  {
    if inputs != [] {
      match inputs[0]
      case Steer(dir) => ScoreRises(Steered(s, dir), inputs[1..]);
      case Step => ScoreRises(AfterStep(s), inputs[1..]);
    }
  }

  // --- The game object ------------------------------------------------------------------------

  class Game {
    const w: nat
    const h: nat
    var snake: seq<Cell>
    var dir: Direction
    var pending: seq<Direction>
    var food: Option<Cell>
    var score: nat
    var alive: bool
    var rng: bv32

    function Model(): State
      reads this
    {
      State(w, h, snake, dir, pending, food, score, alive, rng)
    }

    /** `Game::new` once the grid is known to be big enough. */
    constructor (w: nat, h: nat, seed: bv32)
      requires Start(w, h, seed).Some? && w < 256 && h < 256
      ensures Some(Model()) == Start(w, h, seed) && Inv(Model())
    {
      hide Spawned, XorShift, FreeCells, Seeded, FoodPlaced, QueueInv;
      this.w, this.h := w, h;
      var cx, cy := w / 2, h / 2;
      snake := [Cell(cx, cy), Cell(cx - 1, cy), Cell(cx - 2, cy)];
      dir, pending, food, score, alive := East, [], None, 0, true;
      rng := Seeded(seed);
      new;
      SeededNotZero(seed);
      SpawnFood();
      StartInv(w, h, seed);
    }

    method Steer(d: Direction)
      requires Inv(Model())
      modifies this
      ensures Model() == Steered(old(Model()), d) && Inv(Model())
    {
      SteeredKeepsInv(Model(), d);
      if !alive {
        return;
      }
      var effective := if pending == [] then dir else pending[|pending| - 1];
      if d == effective || d == effective.Opposite() {
        return;
      }
      pending := pending + [d];
      if |pending| > MAX_PENDING {
        pending := pending[1..];
      }
    }

    method Step() returns (outcome: StepOutcome)
      requires Inv(Model())
      modifies this
      ensures (Model(), outcome) == Stepped(old(Model())) && Inv(Model())
    {
      hide Spawned, XorShift, FreeCells, Grid, NextTurn, QueueInv;
      SteppedKeepsInv(Model());
      if !alive {
        return Crashed;
      }
      ApplyTurn();
      var next := Move(snake[0], dir);
      if next.x < 0 || next.y < 0 || next.x >= w || next.y >= h {
        alive := false;
        return Crashed;
      }
      var eats := food == Some(next);
      var tail := snake[|snake| - 1];
      var hitsBody := exists i :: 0 <= i < |snake| && snake[i] == next && (eats || snake[i] != tail);
      HitsBodyExact(Model(), next);
      if hitsBody {
        alive := false;
        return Crashed;
      }
      snake := [next] + snake;
      if eats {
        score := score + POINTS_PER_FOOD;
        assert snake[1..] == old(snake)[..|old(snake)|];
        MovedBody(old(Model()), next, |old(snake)|);
        SpawnFood();
        return Ate;
      }
      assert snake[..|snake| - 1] == [next] + old(snake)[..|old(snake)| - 1];
      snake := snake[..|snake| - 1];
      return Moved;
    }

    /** Pop queued turns until a legal one is found. */
    method ApplyTurn()
      modifies this`dir, this`pending
      ensures (dir, pending) == NextTurn(old(dir), old(pending))
    {
      while pending != []
        invariant dir == old(dir) && NextTurn(dir, pending) == NextTurn(old(dir), old(pending))
        decreases |pending|
      {
        var d := pending[0];
        pending := pending[1..];
        if d == dir || d == dir.Opposite() {
          continue;
        }
        dir := d;
        break;
      }
    }

    /** Walk the grid row by row and drop the food on the drawn free cell. */
    method SpawnFood()
      requires Body(Model())
      modifies this`food, this`rng
      ensures Model() == Spawned(old(Model()))
    {
      FreeCount(w, h, snake);
      ghost var all := FreeCells(w, h, snake);
      var free := w * h - |snake|;
      if free == 0 {
        food := None;
        return;
      }
      rng := XorShift(rng);
      var target := Below(rng, free);
      ghost var goal := all[target];
      var y := 0;
      while y < h
        invariant 0 <= y <= h
        invariant target < |FreeRows(w, h, snake, y)| && FreeRows(w, h, snake, y)[target] == goal
      {
        var x := 0;
        while x < w
          invariant 0 <= x <= w
          invariant var rest := FreeRow(w, snake, y, x) + FreeRows(w, h, snake, y + 1);
                    target < |rest| && rest[target] == goal
        {
          if Cell(x, y) !in snake {
            if target == 0 {
              food := Some(Cell(x, y));
              return;
            }
            target := target - 1;
          }
          x := x + 1;
        }
        y := y + 1;
      }
      assert false;
    }
  }

  /** The tail exemption of the collision test changes nothing but the tail. */
  lemma {:induction false} HitsBodyExact(s: State, next: Cell)
    requires Body(s) && FoodPlaced(s) && InGrid(next, s.w, s.h)
    ensures var n := |s.snake|;
            (exists i :: 0 <= i < n && s.snake[i] == next && (s.food == Some(next) || s.snake[i] != s.snake[n - 1]))
            <==> Blocked(s, next)
  {
    var n := |s.snake|;
    if Blocked(s, next) {
      var i :| 0 <= i < n - 1 && s.snake[..n - 1][i] == next;
      assert s.snake[i] == next && s.snake[i] != s.snake[n - 1];
    }
    if i :| 0 <= i < n && s.snake[i] == next && (s.food == Some(next) || s.snake[i] != s.snake[n - 1]) {
      assert s.snake[i] in s.snake;
      assert i < n - 1;
      assert s.snake[..n - 1][i] == next;
    }
  }
}
