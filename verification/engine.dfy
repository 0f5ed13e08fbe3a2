/** The Snake game engine as one immutable state record and pure
    transitions: the direction command, the periodic tick, and the
    start / pause / resume / restart commands with their keyboard and
    button dispatch. Rendering, timers and storage are outside. */
module Engine {
  import opened Board

  datatype Option<T> = None | Some(value: T)

  /** The four steering directions. */
  datatype Dir = Up | Down | Left | Right

  /** A released key: one of the arrow keys, or any other key (which the
      direction handler receives too and ignores). */
  datatype Key = Arrow(dir: Dir) | OtherKey

  /** The whole game state. `food` is `None` until the first start places
      it. `body` holds the occupied cells, head first; it is empty until
      the first tick. */
  datatype Game = Game(
    head: Point,
    velocity: Point,
    body: seq<Point>,
    food: Option<Point>,
    score: int,
    highScore: int,
    paused: bool,
    over: bool,
    started: bool)

  /** What a tick hands to the presentation layer. `Skipped`: paused, nothing
      happens. `Terminated`: the game-over handler ran (timer stopped,
      game-over screen shown). `WallHit`: the head left the board and nothing
      is drawn. `Rendered`: the cells drawn, the food first (as it was before
      the tick) and then every segment. */
  datatype Effect = Skipped | Terminated | WallHit | Rendered(food: Option<Point>, segments: seq<Point>)

  datatype TickResult = TickResult(game: Game, effect: Effect)

  /** Cell where the head starts and restarts. */
  const Origin := Point(5, 5)

  /** The velocity before the first direction command. */
  const Still := Point(0, 0)

  function Max(a: int, b: int): (m: int)
    ensures m >= a && m >= b && (m == a || m == b)
  {
    if a >= b then a else b
  }

  /** A velocity with exactly one nonzero axis, of magnitude one. */
  predicate IsUnit(v: Point) {
    (v.x == 0 && (v.y == 1 || v.y == -1)) || (v.y == 0 && (v.x == 1 || v.x == -1))
  }

  /** The velocities the game can hold. */
  predicate ValidVelocity(v: Point) {
    v == Still || IsUnit(v)
  }

  /** Screen displacement of one step in direction `d` (y grows downwards). */
  function Vector(d: Dir): (v: Point)
    ensures IsUnit(v)
  {
    match d
    case Up => Point(0, -1)
    case Down => Point(0, 1)
    case Left => Point(-1, 0)
    case Right => Point(1, 0)
  }

  function Reverse(v: Point): (r: Point)
    ensures r.Plus(v) == Point(0, 0)
  {
    Point(-v.x, -v.y)
  }

  /** Neither paused nor over: the state in which ticks move the snake. */
  predicate Running(g: Game) {
    !g.paused && !g.over
  }

  /** The state at page load, with the high score read from storage. */
  function Initial(storedHighScore: nat): (g: Game)
    ensures g.head == Origin && g.velocity == Still && g.body == [] && g.food == None
    ensures g.score == 0 && g.highScore == storedHighScore
    ensures !g.paused && !g.over && !g.started
  {
    Game(Origin, Still, [], None, 0, storedHighScore, false, false, false)
  }

  /** The direction command. Ignored while paused or over; otherwise an
      arrow sets the velocity unless it points straight against the current
      vertical (Up/Down) or horizontal (Left/Right) velocity. */
  function ChangeDirection(g: Game, key: Key): (r: Game)
    ensures g.paused || g.over ==> r == g
    ensures key.OtherKey? ==> r == g
    ensures r == g.(velocity := r.velocity)
    ensures r.velocity == g.velocity || (key.Arrow? && r.velocity == Vector(key.dir))
    ensures r.velocity != g.velocity ==> IsUnit(r.velocity)
    ensures key == Arrow(Up) && g.velocity.y == 1 ==> r == g
    ensures key == Arrow(Down) && g.velocity.y == -1 ==> r == g
    ensures key == Arrow(Left) && g.velocity.x == 1 ==> r == g
    ensures key == Arrow(Right) && g.velocity.x == -1 ==> r == g
    ensures !g.paused && !g.over && key == Arrow(Up) && g.velocity.y != 1 ==> r.velocity == Point(0, -1)
    ensures !g.paused && !g.over && key == Arrow(Down) && g.velocity.y != -1 ==> r.velocity == Point(0, 1)
    ensures !g.paused && !g.over && key == Arrow(Left) && g.velocity.x != 1 ==> r.velocity == Point(-1, 0)
    ensures !g.paused && !g.over && key == Arrow(Right) && g.velocity.x != -1 ==> r.velocity == Point(1, 0)
  {
    if g.paused || g.over then g
    else
      match key
      case OtherKey => g
      case Arrow(d) =>
        var rejected := match d
          case Up => g.velocity.y == 1
          case Down => g.velocity.y == -1
          case Left => g.velocity.x == 1
          case Right => g.velocity.x == -1;
        if rejected then g else g.(velocity := Vector(d))
  }

  /** The body after a move: every segment takes the cell its predecessor
      held before the tick and the first segment becomes the new head. On an
      empty body the head is written at index 0, which creates one segment. */
  function Shift(body: seq<Point>, head: Point): (r: seq<Point>)
    ensures |r| == Max(1, |body|)
    ensures r[0] == head
    ensures forall i :: 1 <= i < |r| ==> r[i] == body[i - 1]
  {
    if |body| == 0 then [head] else [head] + body[..|body| - 1]
  }

  /** The in-place loop that performs the shift: from the tail towards the
      head each segment copies its predecessor, then index 0 receives the
      head. Walking from the tail means every copy reads a value the loop
      has not yet overwritten, so the loop agrees with `Shift`. */
  method ShiftInPlace(body: seq<Point>, head: Point) returns (b: seq<Point>)
    ensures b == Shift(body, head)
  {
    b := body;
    var i := |b| - 1;
    while i > 0
      invariant 0 <= i < |b| || (i == -1 && |b| == 0)
      invariant |b| == |body|
      invariant forall j :: 0 <= j <= i ==> b[j] == body[j]
      invariant forall j :: i < j < |b| ==> b[j] == body[j - 1]
      decreases i
    {
      b := b[i := b[i - 1]];
      i := i - 1;
    }
    if |b| == 0 {
      b := [head];
    } else {
      b := b[0 := head];
    }
  }

  /** The self-collision test: the head (index 0) shares its cell with a
      later segment. */
  predicate HeadOnBody(body: seq<Point>) {
    exists i :: 1 <= i < |body| && body[i] == body[0]
  }

  /** The collision loop of the tick, which visits every segment and raises
      the flag whenever a segment other than the first sits on the head. */
  method ScanForCollision(body: seq<Point>) returns (hit: bool)
    ensures hit <==> HeadOnBody(body)
  {
    hit := false;
    var i := 0;
    while i < |body|
      invariant 0 <= i <= |body|
      invariant hit <==> exists j :: 1 <= j < i && body[j] == body[0]
    {
      if i != 0 && body[0] == body[i] {
        hit := true;
      }
      i := i + 1;
    }
  }

  /** One timer tick. `newFood` is where food is placed if it is eaten in
      this tick (the random draw of the food placement). */
  function Tick(g: Game, newFood: Point): (r: TickResult)
    requires InGrid(newFood)
    // paused: nothing at all happens
    ensures g.paused ==> r == TickResult(g, Skipped)
    // over: the game-over handler runs and no game data changes
    ensures !g.paused && g.over ==> r == TickResult(g, Terminated)
    // the head moves by the velocity; the velocity and the flags other than `over` stay
    ensures Running(g) ==> r.game.head == Point(g.head.x + g.velocity.x, g.head.y + g.velocity.y)
    ensures Running(g) ==> r.game.velocity == g.velocity && !r.game.paused && r.game.started == g.started
    // eating is decided on the head before the move
    ensures Running(g) ==> (r.game.score == g.score + 1 <==> g.food == Some(g.head))
    ensures Running(g) && g.food != Some(g.head) ==>
      r.game.score == g.score && r.game.food == g.food && r.game.highScore == g.highScore
    ensures Running(g) && g.food == Some(g.head) ==>
      r.game.food == Some(newFood) && r.game.highScore == Max(g.highScore, g.score + 1)
    ensures r.game.highScore >= g.highScore
    // the body: one segment more after a meal, at least one segment, shifted by one place
    ensures Running(g) ==>
      |r.game.body| == if g.food == Some(g.head) then |g.body| + 1 else Max(1, |g.body|)
    ensures Running(g) ==> r.game.body[0] == r.game.head
    ensures Running(g) ==> forall i :: 1 <= i < |r.game.body| ==> r.game.body[i] == g.body[i - 1]
    // game over exactly on leaving the board or landing on a later segment
    ensures Running(g) ==>
      (r.game.over <==> !InGrid(r.game.head) ||
                        exists i :: 1 <= i < |r.game.body| && r.game.body[i] == r.game.head)
    // a wall hit draws nothing; otherwise the old food and the new body are drawn
    ensures Running(g) ==> (r.effect == WallHit <==> !InGrid(r.game.head))
    ensures Running(g) && InGrid(r.game.head) ==> r.effect == Rendered(g.food, r.game.body)
  {
    if g.paused then TickResult(g, Skipped)
    else if g.over then TickResult(g, Terminated)
    else
      var eaten := g.food == Some(g.head);
      // the pushed segment holds the new food with its coordinates swapped;
      // the shift overwrites it before anyone reads it
      var grown := if eaten then g.body + [Point(newFood.y, newFood.x)] else g.body;
      var score := if eaten then g.score + 1 else g.score;
      var highScore := if eaten && score >= g.highScore then score else g.highScore;
      var food := if eaten then Some(newFood) else g.food;
      var head := g.head.Plus(g.velocity);
      var body := Shift(grown, head);
      var moved := g.(head := head, body := body, food := food, score := score, highScore := highScore);
      if HitsWall(head) then
        TickResult(moved.(over := true), WallHit)
      else
        TickResult(moved.(over := HeadOnBody(body)), Rendered(g.food, body))
  }

  /** The start command: marks the game started and places the first food.
      It resets nothing; the timer it starts is outside the model. */
  function Start(g: Game, food: Point): (r: Game)
    requires InGrid(food)
  {
    g.(started := true, food := Some(food))
  }

  function Pause(g: Game): (r: Game) {
    g.(paused := true)
  }

  function Resume(g: Game): (r: Game) {
    g.(paused := false)
  }

  /** The restart command: back to the starting snake with score zero and
      all flags cleared. Food and high score are kept. */
  function Restart(g: Game): (r: Game)
    ensures r.head == Origin && r.velocity == Still && r.body == [] && r.score == 0
    ensures !r.paused && !r.over && !r.started
    ensures r.food == g.food && r.highScore == g.highScore
  {
    g.(over := false, started := false, paused := false, score := 0,
       head := Origin, velocity := Still, body := [])
  }

  /** The space bar: toggles pause, but only in a started game that is not over. */
  function SpaceKey(g: Game): (r: Game)
    ensures r == g.(paused := r.paused)
    ensures r.paused == (g.paused != (g.started && !g.over))
  {
    if g.started && !g.over then
      if g.paused then Resume(g) else Pause(g)
    else g
  }

  /** The overlay button: start if not started, else resume if paused, else
      restart if over; otherwise nothing. `food` is the draw used by a start. */
  function GameAction(g: Game, food: Point): (r: Game)
    requires InGrid(food)
    ensures !g.started ==> r.started && r.food == Some(food) && r == g.(started := true, food := r.food)
    ensures g.started && g.paused ==> r == g.(paused := false)
    ensures g.started && !g.paused && g.over ==> r == Restart(g)
    ensures g.started && !g.paused && !g.over ==> r == g
  {
    if !g.started then Start(g, food)
    else if g.paused then Resume(g)
    else if g.over then Restart(g)
    else g
  }
}
