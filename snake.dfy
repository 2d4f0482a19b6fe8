/** Snake engine: a body of grid cells with the head first, a unit direction,
    a food cell, score and high score; the tick, food placement by random
    retry, direction and pause input, and restart. */
module Snake {

  const GridSize := 20

  /** A grid cell. */
  datatype Cell = Cell(x: int, y: int)

  /** A direction of travel, as the offset one step adds to the head. */
  datatype Dir = Dir(dx: int, dy: int)

  datatype Option<T> = None | Some(value: T)

  const InitialSnake: seq<Cell> := [Cell(10, 10)]
  const InitialDirection: Dir := Dir(1, 0)
  const InitialFood: Cell := Cell(5, 5)

  predicate InGrid(c: Cell) {
    0 <= c.x < GridSize && 0 <= c.y < GridSize
  }

  predicate AllInGrid(cells: seq<Cell>) {
    forall i :: 0 <= i < |cells| ==> InGrid(cells[i])
  }

  predicate Distinct(cells: seq<Cell>) {
    forall i, j :: 0 <= i < j < |cells| ==> cells[i] != cells[j]
  }

  /** One of the four unit directions. */
  predicate IsUnit(d: Dir) {
    d == Dir(1, 0) || d == Dir(-1, 0) || d == Dir(0, 1) || d == Dir(0, -1)
  }

  // ---------------------------------------------------------------------------
  // Food placement

  /** generateFood: the random draws (each a cell of the grid) are tried in
      order, and the first one not on the avoided body is the food. None means
      every supplied draw was rejected, so the retry would go on. */
  function GenerateFood(avoid: seq<Cell>, draws: seq<Cell>): (r: Option<Cell>)
    ensures r.Some? ==> r.value !in avoid
    ensures r.Some? ==> exists i :: 0 <= i < |draws| && draws[i] == r.value &&
                          forall j :: 0 <= j < i ==> draws[j] in avoid
    ensures r.Some? && AllInGrid(draws) ==> InGrid(r.value)
    ensures r.None? <==> forall i :: 0 <= i < |draws| ==> draws[i] in avoid
  {
    if draws == [] then None
    else if draws[0] in avoid then GenerateFood(avoid, draws[1..])
    else Some(draws[0])
  }

  /** Some supplied draw is off the avoided cells, so the retry ends. */
  predicate HasFreeDraw(avoid: seq<Cell>, draws: seq<Cell>) {
    exists i :: 0 <= i < |draws| && draws[i] !in avoid
  }

  /** The cells of the grid, row by row. */
  function RowCells(y: int, n: nat): set<Cell> {
    set x | 0 <= x < n :: Cell(x, y)
  }

  function GridRows(m: nat): set<Cell> {
    set x, y | 0 <= x < GridSize && 0 <= y < m :: Cell(x, y)
  }

  function GridCells(): set<Cell> {
    GridRows(GridSize)
  }

  lemma {:induction false} RowCellsSize(y: int, n: nat)
    ensures |RowCells(y, n)| == n
  {
    if n > 0 {
      RowCellsSize(y, n - 1);
      assert RowCells(y, n) == RowCells(y, n - 1) + {Cell(n - 1, y)};
    }
  }

  lemma {:induction false} GridRowsSize(m: nat)
    ensures |GridRows(m)| == GridSize * m
  {
    if m > 0 {
      GridRowsSize(m - 1);
      RowCellsSize(m - 1, GridSize);
      assert GridRows(m) == GridRows(m - 1) + RowCells(m - 1, GridSize);
      assert GridRows(m - 1) !! RowCells(m - 1, GridSize);
    }
  }

  /** The grid has 400 cells. */
  lemma GridSize400()
    ensures |GridCells()| == 400
    ensures forall c :: c in GridCells() <==> InGrid(c)
  {
    GridRowsSize(GridSize);
  }

  /** The set of cells a sequence visits. */
  function CellSet(s: seq<Cell>): (cs: set<Cell>)
    ensures forall c :: c in cs <==> c in s
  {
    if s == [] then {} else {s[0]} + CellSet(s[1..])
  }

  lemma {:induction false} CellSetSize(s: seq<Cell>)
    ensures |CellSet(s)| <= |s|
    ensures Distinct(s) ==> |CellSet(s)| == |s|
  {
    if s != [] {
      CellSetSize(s[1..]);
      if Distinct(s) {
        assert Distinct(s[1..]);
        assert s[0] !in s[1..];
      }
    }
  }

  lemma SubsetSize(a: set<Cell>, b: set<Cell>)
    requires a <= b
    ensures |a| <= |b|
  {
    assert b == a + (b - a);
  }

  /** With fewer than 400 body cells some grid cell is free, so a random
      retry can end. */
  lemma FreeCellExists(body: seq<Cell>)
    requires |body| < 400
    ensures exists c :: InGrid(c) && c !in body
  {
    GridSize400();
    CellSetSize(body);
    if GridCells() <= CellSet(body) {
      SubsetSize(GridCells(), CellSet(body));
      assert false;
    }
    var c :| c in GridCells() && c !in CellSet(body);
    assert InGrid(c) && c !in body;
  }

  /** A retry that finds food on an in-grid, self-avoiding body proves the
      body has fewer than 400 cells: on a full grid it never ends. */
  lemma FoodFoundOnlyBelowFullGrid(body: seq<Cell>, draws: seq<Cell>)
    requires AllInGrid(body) && Distinct(body) && AllInGrid(draws)
    requires GenerateFood(body, draws).Some?
    ensures |body| < 400
  {
    var c := GenerateFood(body, draws).value;
    GridSize400();
    CellSetSize(body);
    var rest := GridCells() - {c};
    assert GridCells() == rest + {c};
    assert CellSet(body) <= rest;
    SubsetSize(CellSet(body), rest);
  }

  // ---------------------------------------------------------------------------
  // Game state and its transitions

  /** The component's state slots (the mute flag is left out). */
  datatype Game = Game(body: seq<Cell>, dir: Dir, food: Cell,
                       score: nat, highScore: nat, over: bool, paused: bool)

  /** Every reachable state: a non-empty body of distinct in-grid cells,
      a unit direction, in-grid food off the body, score <= high score. */
  ghost predicate WellFormed(g: Game) {
    && |g.body| >= 1 && AllInGrid(g.body) && Distinct(g.body)
    && IsUnit(g.dir) && InGrid(g.food) && g.food !in g.body
    && g.score <= g.highScore
  }

  /** The initial state, with the high score read from storage. */
  function Initial(storedHighScore: nat): (g: Game)
    ensures WellFormed(g)
  {
    Game(InitialSnake, InitialDirection, InitialFood, 0, storedHighScore, false, false)
  }

  /** The cell the head moves to. */
  function NextHead(g: Game): Cell
    requires |g.body| > 0
  {
    Cell(g.body[0].x + g.dir.dx, g.body[0].y + g.dir.dy)
  }

  /** The cells new food must avoid after eating: the grown body. */
  function GrownBody(g: Game): seq<Cell>
    requires |g.body| > 0
  {
    [NextHead(g)] + g.body
  }

  /** What a moving tick leaves after eating: score + 1, high score raised
      only when passed, food regenerated by the given placement rule. */
  function Eat(g: Game, food: Cell): Game
    requires |g.body| > 0
  {
    var newScore := g.score + 1;
    g.(body := GrownBody(g), score := newScore,
       highScore := if newScore > g.highScore then newScore else g.highScore,
       food := food)
  }

  /** Whether the tick moves: running, and the new head is in the grid and
      not on any cell of the pre-move body (tail included). */
  predicate Moves(g: Game)
    requires |g.body| > 0
  {
    !g.over && !g.paused && InGrid(NextHead(g)) && NextHead(g) !in g.body
  }

  /** Whether the tick eats: it moves and the new head is on the food. Only
      such a tick draws new food. */
  predicate Eats(g: Game)
    requires |g.body| > 0
  {
    Moves(g) && NextHead(g) == g.food
  }

  /** moveSnake with food regenerated against the grown body (the intended
      rule). No-op while over or paused; a wall or self collision only sets
      game over; otherwise the new head is prepended and the tail dropped
      unless the head reached the food. */
  function Step(g: Game, draws: seq<Cell>): Game
    requires |g.body| > 0 && (Eats(g) ==> HasFreeDraw(GrownBody(g), draws))
  {
    if g.over || g.paused then g
    else if !Moves(g) then g.(over := true)
    else if NextHead(g) == g.food then Eat(g, GenerateFood(GrownBody(g), draws).value)
    else g.(body := GrownBody(g)[..|g.body|])
  }

  /** moveSnake as written: generateFood closes over the pre-move snake, so
      the new food only avoids the body before the move. */
  function StepAsWritten(g: Game, draws: seq<Cell>): Game
    requires |g.body| > 0 && (Eats(g) ==> HasFreeDraw(g.body, draws))
  {
    if g.over || g.paused then g
    else if !Moves(g) then g.(over := true)
    else if NextHead(g) == g.food then Eat(g, GenerateFood(g.body, draws).value)
    else g.(body := GrownBody(g)[..|g.body|])
  }

  /** As written, the regenerated food can be the cell the head just
      entered: from body [(10,10)] moving right onto food (11,10), the draw
      (11,10) is accepted. */
  lemma AsWrittenFoodOnHead()
    ensures var g := Game([Cell(10, 10)], Dir(1, 0), Cell(11, 10), 0, 0, false, false);
      && HasFreeDraw(g.body, [Cell(11, 10)])
      && var r := StepAsWritten(g, [Cell(11, 10)]);
      WellFormed(g) && r.food == r.body[0] && !WellFormed(r)
  {
    var g := Game([Cell(10, 10)], Dir(1, 0), Cell(11, 10), 0, 0, false, false);
    var draws := [Cell(11, 10)];
    assert draws[0] !in g.body;
    assert NextHead(g) == Cell(11, 10);
  }

  lemma DropLastKeeps(s: seq<Cell>)
    requires |s| >= 1
    ensures forall i :: 0 <= i < |s| - 1 ==> s[..|s| - 1][i] == s[i]
    ensures forall c :: c in s[..|s| - 1] ==> c in s
  {
  }

  /** The tick keeps the state well formed: the body stays in the grid,
      self-avoiding and non-empty, the direction a unit, the food in the grid
      and off the body, and the score at most the high score. */
  lemma StepKeepsWellFormed(g: Game, draws: seq<Cell>)
    requires WellFormed(g) && AllInGrid(draws) && (Eats(g) ==> HasFreeDraw(GrownBody(g), draws))
    ensures WellFormed(Step(g, draws))
  {
    if Moves(g) {
      var grown := GrownBody(g);
      assert Distinct(grown) by {
        forall i, j | 0 <= i < j < |grown| ensures grown[i] != grown[j] {
          if i == 0 {
            assert grown[j] == g.body[j - 1];
          } else {
            assert grown[i] == g.body[i - 1] && grown[j] == g.body[j - 1];
          }
        }
      }
      if NextHead(g) == g.food {
        assert grown == [g.food] + g.body;
      } else {
        DropLastKeeps(grown);
        assert grown[..|g.body|] == grown[..|grown| - 1];
      }
    }
  }

  /** The growth law: a moving tick puts the new head first and keeps the old
      body behind it; the length grows by exactly one when and only when the
      head reaches the food, and is unchanged otherwise. Direction and pause
      stay; the food stays unless it is eaten, and is then regenerated off
      the grown body. */
  lemma GrowthLaw(g: Game, draws: seq<Cell>)
    requires |g.body| > 0 && (Eats(g) ==> HasFreeDraw(GrownBody(g), draws)) && Moves(g)
    ensures var r := Step(g, draws);
      && !r.over && r.body[0] == NextHead(g)
      && r.body[1..] == g.body[..|r.body| - 1]
      && (|r.body| == |g.body| + 1 <==> NextHead(g) == g.food)
      && (NextHead(g) != g.food ==> |r.body| == |g.body|)
      && r.dir == g.dir && r.paused == g.paused
      && r.food == (if NextHead(g) == g.food then GenerateFood(GrownBody(g), draws).value else g.food)
  {
    var r := Step(g, draws);
    var grown := GrownBody(g);
    if NextHead(g) != g.food {
      assert r.body[1..] == g.body[..|g.body| - 1];
    } else {
      assert r.body[1..] == g.body;
    }
  }

  /** A tick is a no-op while over or paused, and a wall or self collision
      changes nothing but the game-over flag. */
  lemma StepStops(g: Game, draws: seq<Cell>)
    requires |g.body| > 0 && (Eats(g) ==> HasFreeDraw(GrownBody(g), draws))
    ensures g.over || g.paused ==> Step(g, draws) == g
    ensures !g.over && !g.paused && !Moves(g) ==> Step(g, draws) == g.(over := true)
  {
  }

  /** Scoring: the score rises by one exactly when food is eaten, and the
      high score becomes the new score only when it passes the old one. */
  lemma StepScoring(g: Game, draws: seq<Cell>)
    requires |g.body| > 0 && (Eats(g) ==> HasFreeDraw(GrownBody(g), draws))
    ensures var r := Step(g, draws);
      var ate := Moves(g) && NextHead(g) == g.food;
      && r.score == (if ate then g.score + 1 else g.score)
      && r.highScore == (if ate && g.score + 1 > g.highScore then g.score + 1 else g.highScore)
  {
  }

  /** One tick from body [(10,10)] moving right onto food (11,10): score 1,
      body [(11,10), (10,10)], new food off both cells. */
  lemma EatScenario(draws: seq<Cell>)
    requires HasFreeDraw([Cell(11, 10), Cell(10, 10)], draws)
    ensures var g := Game([Cell(10, 10)], Dir(1, 0), Cell(11, 10), 0, 0, false, false);
      var r := Step(g, draws);
      && r.score == 1 && r.highScore == 1
      && r.body == [Cell(11, 10), Cell(10, 10)]
      && r.food != Cell(11, 10) && r.food != Cell(10, 10)
  {
    var g := Game([Cell(10, 10)], Dir(1, 0), Cell(11, 10), 0, 0, false, false);
    assert NextHead(g) == Cell(11, 10);
    assert GrownBody(g) == [Cell(11, 10), Cell(10, 10)];
  }

  /** restartGame with food regenerated against the initial snake (the
      intended rule): the high score is kept. */
  function Restarted(g: Game, draws: seq<Cell>): Game
    requires HasFreeDraw(InitialSnake, draws)
  {
    g.(body := InitialSnake, dir := InitialDirection,
       food := GenerateFood(InitialSnake, draws).value,
       score := 0, over := false, paused := false)
  }

  /** restartGame as written: generateFood closes over the body the game
      ended with, not the initial snake. */
  function RestartAsWritten(g: Game, draws: seq<Cell>): Game
    requires HasFreeDraw(g.body, draws)
  {
    g.(body := InitialSnake, dir := InitialDirection,
       food := GenerateFood(g.body, draws).value,
       score := 0, over := false, paused := false)
  }

  /** As written, a restart can put the food on the initial head (10,10). */
  lemma AsWrittenRestartFoodOnHead()
    ensures var g := Game([Cell(0, 0)], Dir(-1, 0), Cell(5, 5), 0, 3, true, false);
      && HasFreeDraw(g.body, [Cell(10, 10)])
      && var r := RestartAsWritten(g, [Cell(10, 10)]);
      WellFormed(g) && r.food == r.body[0] && !WellFormed(r)
  {
    var draws := [Cell(10, 10)];
    assert draws[0] !in [Cell(0, 0)];
  }

  /** The restarted state: body [(10,10)], direction (1,0), score 0, running,
      high score kept, food in the grid and off the snake. */
  lemma RestartKeepsWellFormed(g: Game, draws: seq<Cell>)
    requires WellFormed(g) && AllInGrid(draws) && HasFreeDraw(InitialSnake, draws)
    ensures var r := Restarted(g, draws);
      && WellFormed(r) && r.body == [Cell(10, 10)] && r.dir == Dir(1, 0)
      && r.score == 0 && !r.over && !r.paused && r.highScore == g.highScore
  {
  }

  /** Snake key input. */
  datatype Key = ArrowUp | ArrowDown | ArrowLeft | ArrowRight | Space | Enter | Other

  /** The direction an arrow key asks for. */
  function KeyDirection(key: Key): Dir
    requires key.ArrowUp? || key.ArrowDown? || key.ArrowLeft? || key.ArrowRight?
  {
    match key
    case ArrowUp => Dir(0, -1)
    case ArrowDown => Dir(0, 1)
    case ArrowLeft => Dir(-1, 0)
    case ArrowRight => Dir(1, 0)
  }

  /** handleKeyPress: while over only space or Enter acts, and restarts;
      otherwise up/down are taken only while moving horizontally, left/right
      only while moving vertically (pause does not block them), and space
      toggles pause. */
  function KeyPress(g: Game, key: Key, draws: seq<Cell>): Game
    requires g.over && (key == Space || key == Enter) ==> HasFreeDraw(InitialSnake, draws)
  {
    if g.over then
      if key == Space || key == Enter then Restarted(g, draws) else g
    else match key
      case ArrowUp => if g.dir.dy == 0 then g.(dir := Dir(0, -1)) else g
      case ArrowDown => if g.dir.dy == 0 then g.(dir := Dir(0, 1)) else g
      case ArrowLeft => if g.dir.dx == 0 then g.(dir := Dir(-1, 0)) else g
      case ArrowRight => if g.dir.dx == 0 then g.(dir := Dir(1, 0)) else g
      case Space => g.(paused := !g.paused)
      case _ => g
  }

  /** Direction input while running: the direction stays a unit vector; it
      changes only by a quarter turn to the key's direction (never to the
      exact reverse), a key along the current axis is ignored, and nothing but
      the direction changes; pause does not block it. */
  lemma TurnRule(g: Game, key: Key, draws: seq<Cell>)
    requires IsUnit(g.dir) && !g.over
    requires key.ArrowUp? || key.ArrowDown? || key.ArrowLeft? || key.ArrowRight?
    ensures var r := KeyPress(g, key, draws);
      && IsUnit(r.dir) && r == g.(dir := r.dir)
      && r.dir != Dir(-g.dir.dx, -g.dir.dy)
      && (r.dir != g.dir <==> KeyDirection(key).dx * g.dir.dx + KeyDirection(key).dy * g.dir.dy == 0)
      && (r.dir != g.dir ==> r.dir == KeyDirection(key))
      && r.dir == KeyPress(g.(paused := !g.paused), key, draws).dir
  {
  }

  lemma KeyPressKeepsWellFormed(g: Game, key: Key, draws: seq<Cell>)
    requires WellFormed(g) && AllInGrid(draws)
    requires g.over && (key == Space || key == Enter) ==> HasFreeDraw(InitialSnake, draws)
    ensures WellFormed(KeyPress(g, key, draws))
  {
  }

  /** While over, every key but space and Enter is ignored; while running,
      space only toggles pause. */
  lemma KeyPressControl(g: Game, key: Key, draws: seq<Cell>)
    requires g.over && (key == Space || key == Enter) ==> HasFreeDraw(InitialSnake, draws)
    ensures g.over && key != Space && key != Enter ==> KeyPress(g, key, draws) == g
    ensures g.over && (key == Space || key == Enter) ==> KeyPress(g, key, draws) == Restarted(g, draws)
    ensures !g.over && key == Space ==> KeyPress(g, key, draws) == g.(paused := !g.paused)
  {
  }

  // ---------------------------------------------------------------------------
  // The engine

  /** The SnakeGame component's state slots as one owned record. */
  class SnakeEngine {
    var body: seq<Cell>
    var direction: Dir
    var food: Cell
    var score: nat
    var highScore: nat
    var gameOver: bool
    var paused: bool

    function State(): Game
      reads this
    {
      Game(body, direction, food, score, highScore, gameOver, paused)
    }

    ghost predicate Valid()
      reads this
    {
      WellFormed(State())
    }

    /** Mount, with the high score read from storage. */
    constructor (storedHighScore: nat)
      ensures Valid() && State() == Initial(storedHighScore)
    {
      body := InitialSnake;
      direction := InitialDirection;
      food := InitialFood;
      score := 0;
      highScore := storedHighScore;
      gameOver := false;
      paused := false;
    }

    /** moveSnake, with food regenerated against the grown body. saved is
        the value written to storage: present exactly when the high score
        rose. */
    method Tick(draws: seq<Cell>) returns (saved: Option<nat>)
      requires Valid() && AllInGrid(draws)
      requires Eats(State()) ==> HasFreeDraw(GrownBody(State()), draws)
      modifies this
      ensures Valid() && State() == Step(old(State()), draws)
      ensures saved == if highScore > old(highScore) then Some(highScore) else None
    {
      ghost var g := State();
      StepKeepsWellFormed(g, draws);
      saved := None;
      if gameOver || paused {
        return;
      }
      var newSnake := body;
      var head := Cell(newSnake[0].x + direction.dx, newSnake[0].y + direction.dy);
      if head.x < 0 || head.x >= GridSize || head.y < 0 || head.y >= GridSize {
        gameOver := true;
        return;
      }
      if head in newSnake {
        gameOver := true;
        return;
      }
      newSnake := [head] + newSnake;
      if head == food {
        var newScore := score + 1;
        if newScore > highScore {
          highScore := newScore;
          saved := Some(newScore);
        }
        score := newScore;
        food := GenerateFood(newSnake, draws).value;
      } else {
        newSnake := newSnake[..|newSnake| - 1];
      }
      body := newSnake;
    }

    /** restartGame, with food regenerated against the initial snake. */
    method Restart(draws: seq<Cell>)
      requires Valid() && AllInGrid(draws) && HasFreeDraw(InitialSnake, draws)
      modifies this
      ensures Valid() && State() == Restarted(old(State()), draws)
    {
      RestartKeepsWellFormed(State(), draws);
      body := InitialSnake;
      direction := InitialDirection;
      food := GenerateFood(InitialSnake, draws).value;
      score := 0;
      gameOver := false;
      paused := false;
    }

    /** handleKeyPress. */
    method HandleKey(key: Key, draws: seq<Cell>)
      requires Valid() && AllInGrid(draws)
      requires gameOver && (key == Space || key == Enter) ==> HasFreeDraw(InitialSnake, draws)
      modifies this
      ensures Valid() && State() == KeyPress(old(State()), key, draws)
    {
      if gameOver {
        if key == Space || key == Enter {
          Restart(draws);
        }
        return;
      }
      match key {
        case ArrowUp =>
          if direction.dy == 0 {
            direction := Dir(0, -1);
          }
        case ArrowDown =>
          if direction.dy == 0 {
            direction := Dir(0, 1);
          }
        case ArrowLeft =>
          if direction.dx == 0 {
            direction := Dir(-1, 0);
          }
        case ArrowRight =>
          if direction.dx == 0 {
            direction := Dir(1, 0);
          }
        case Space =>
          paused := !paused;
        case _ =>
      }
    }
  }
}
