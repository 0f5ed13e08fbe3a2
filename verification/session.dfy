/** A game session as a sequence of input events applied to the engine
    state: the properties that hold in every reachable state, the ones that
    relate several steps, and worked scenarios. */
module Session {
  import opened Board
  import opened Engine

  /** The inputs the page delivers. `Button` and `Timer` carry the food
      draw that a start or a meal would use. */
  datatype Event = KeyUp(key: Key) | SpaceDown | Button(draw: Point) | Timer(draw: Point)

  predicate ValidEvent(e: Event) {
    (e.Button? ==> InGrid(e.draw)) && (e.Timer? ==> InGrid(e.draw))
  }

  /** One event. Timer ticks arrive only once the game has been started: the
      interval is created by the start command and removed by the game-over
      handler and by restart. A tick of a finished game is the game-over
      handler's own (`Terminated`) and changes nothing, so letting the timer
      run on after it adds no reachable state. */
  function Apply(g: Game, e: Event): (r: Game)
    requires ValidEvent(e)
  {
    match e
    case KeyUp(k) => ChangeDirection(g, k)
    case SpaceDown => SpaceKey(g)
    case Button(f) => GameAction(g, f)
    case Timer(f) => if g.started then Tick(g, f).game else g
  }

  function Run(g: Game, events: seq<Event>): (r: Game)
    requires forall i :: 0 <= i < |events| ==> ValidEvent(events[i])
    decreases |events|
  {
    if |events| == 0 then g else Run(Apply(g, events[0]), events[1..])
  }

  /** What holds in every state reachable from page load. */
  predicate Inv(g: Game) {
    && ValidVelocity(g.velocity)
    && 0 <= g.score <= g.highScore
    && (g.food.Some? ==> InGrid(g.food.value))
    && (!g.over ==> InGrid(g.head))
    && (|g.body| > 0 ==> g.body[0] == g.head)
    && (|g.body| == 0 ==> g.score == 0)
    && g.score <= |g.body| <= g.score + 1
    && !(g.paused && g.over)
    && (!g.started ==> !g.paused && !g.over)
  }

  lemma InitialSatisfiesInv(stored: nat)
    ensures Inv(Initial(stored))
  {
  }

  /** A tick of a started game keeps the invariant. */
  lemma TickPreservesInv(g: Game, f: Point)
    requires Inv(g) && g.started && InGrid(f)
    ensures Inv(Tick(g, f).game)
  {
  }

  lemma ApplyPreservesInv(g: Game, e: Event)
    requires Inv(g) && ValidEvent(e)
    ensures Inv(Apply(g, e))
  {
    if e.Timer? && g.started {
      TickPreservesInv(g, e.draw);
    }
  }

  /** Every state reached from a state satisfying `Inv` satisfies it. */
  lemma {:induction false} RunPreservesInv(g: Game, events: seq<Event>)
    requires Inv(g)
    requires forall i :: 0 <= i < |events| ==> ValidEvent(events[i])
    ensures Inv(Run(g, events))
    decreases |events|
  {
    if |events| > 0 {
      ApplyPreservesInv(g, events[0]);
      RunPreservesInv(Apply(g, events[0]), events[1..]);
    }
  }

  /** The high score never goes down, whatever the events, restarts included. */
  lemma {:induction false} HighScoreNeverDecreases(g: Game, events: seq<Event>)
    requires forall i :: 0 <= i < |events| ==> ValidEvent(events[i])
    ensures Run(g, events).highScore >= g.highScore
    decreases |events|
  {
    if |events| > 0 {
      var e := events[0];
      if e.Timer? && g.started {
        assert Apply(g, e).highScore == Tick(g, e.draw).game.highScore;
      }
      assert Apply(g, e).highScore >= g.highScore;
      HighScoreNeverDecreases(Apply(g, e), events[1..]);
    }
  }

  /** The best score seen along a run: the largest score of the starting
      state and of every state the events lead through. */
  function Best(g: Game, events: seq<Event>): (b: int)
    requires forall i :: 0 <= i < |events| ==> ValidEvent(events[i])
    ensures b >= g.score
    decreases |events|
  {
    if |events| == 0 then g.score else Max(g.score, Best(Apply(g, events[0]), events[1..]))
  }

  /** One event either keeps the high score or sets it to the new score. */
  lemma ApplyHighScore(g: Game, e: Event)
    requires ValidEvent(e)
    ensures Apply(g, e).highScore == g.highScore || Apply(g, e).highScore == Apply(g, e).score
    ensures Apply(g, e).highScore >= g.highScore
  {
    if e.Timer? && g.started {
      assert Apply(g, e) == Tick(g, e.draw).game;
    }
  }

  /** From a reachable state, the high score after any run is exactly the
      larger of the high score at its start and the best score reached: it
      never falls behind a score and never exceeds the best one. */
  lemma {:induction false} HighScoreIsBest(g: Game, events: seq<Event>)
    requires Inv(g)
    requires forall i :: 0 <= i < |events| ==> ValidEvent(events[i])
    ensures Run(g, events).highScore == Max(g.highScore, Best(g, events))
    decreases |events|
  {
    if |events| > 0 {
      var g1 := Apply(g, events[0]);
      ApplyPreservesInv(g, events[0]);
      ApplyHighScore(g, events[0]);
      HighScoreIsBest(g1, events[1..]);
    }
  }

  /** Reversal rejection, stated against the velocity itself: an accepted
      arrow sets its own direction, and an arrow is rejected exactly when it
      points opposite to the current motion. Before the first move nothing
      is rejected. */
  lemma ReversalRule(g: Game, d: Dir)
    requires Running(g) && ValidVelocity(g.velocity)
    ensures ChangeDirection(g, Arrow(d)).velocity ==
      if Vector(d) == Reverse(g.velocity) then g.velocity else Vector(d)
  {
  }

  /** Direction commands are accepted before the start command: only pause
      and game over block them. */
  lemma SteeringBeforeStart(stored: nat, d: Dir)
    ensures ChangeDirection(Initial(stored), Arrow(d)).velocity == Vector(d)
  {
  }

  /** Two accepted arrows between two ticks can turn the snake straight back:
      Up then Left while moving right. The rule compares against the
      velocity, not against the last move made, so the next tick lands on the
      segment behind the neck. */
  lemma DoubleTurnIntoNeck(g: Game, f: Point)
    requires Running(g) && InGrid(f)
    requires g.velocity == Point(1, 0)
    requires |g.body| >= 3 && g.body[0] == g.head && g.body[1] == Point(g.head.x - 1, g.head.y)
    ensures ChangeDirection(ChangeDirection(g, Arrow(Up)), Arrow(Left)).velocity == Point(-1, 0)
    ensures Tick(ChangeDirection(ChangeDirection(g, Arrow(Up)), Arrow(Left)), f).game.over
  {
    var turned := ChangeDirection(ChangeDirection(g, Arrow(Up)), Arrow(Left));
    var r := Tick(turned, f).game;
    assert r.body[2] == g.body[1] == r.head;
  }

  /** The segment appended on a meal is overwritten by the shift: the body
      after a tick does not depend on the food draw. */
  lemma MealSegmentIrrelevant(g: Game, f1: Point, f2: Point)
    requires InGrid(f1) && InGrid(f2)
    ensures Tick(g, f1).game.body == Tick(g, f2).game.body
  {
  }

  /** With zero velocity a tick leaves the head in place and never hits a wall. */
  lemma StandingStillTick(g: Game, f: Point)
    requires Inv(g) && Running(g) && InGrid(f)
    requires g.velocity == Still
    ensures Tick(g, f).game.head == g.head
    ensures Tick(g, f).effect != WallHit
  {
  }

  /** The start command keeps the snake, score and velocity as they are. */
  lemma StartResetsNothing(g: Game, f: Point)
    requires InGrid(f)
    ensures Start(g, f).started && Start(g, f).food == Some(f)
    ensures Start(g, f).(started := g.started, food := g.food) == g
  {
  }

  /** Restart returns to the page-load state, keeping only the food and the
      high score. */
  lemma RestartIsReload(g: Game)
    requires g.highScore >= 0
    ensures Restart(g) == Initial(g.highScore).(food := g.food)
  {
  }

  /** Resuming a game that was running before the pause restores it exactly. */
  lemma PauseRoundTrip(g: Game)
    requires !g.paused
    ensures Pause(g).paused
    ensures Resume(Pause(g)) == g
  {
  }

  /** Two presses of the space bar undo each other, in every state. */
  lemma SpaceKeyTwice(g: Game)
    ensures SpaceKey(SpaceKey(g)) == g
  {
  }

  /** In a reachable state the button's branches never compete: a paused game
      is started and not over, so it resumes; a finished game restarts. */
  lemma ButtonDispatch(g: Game, f: Point)
    requires Inv(g) && InGrid(f)
    ensures g.paused ==> GameAction(g, f) == Resume(g)
    ensures g.over ==> GameAction(g, f) == Restart(g)
    ensures !g.started ==> GameAction(g, f) == Start(g, f)
  {
  }

  /** One tick per draw: tick `i` places food at `draws[i]` if it has a meal. */
  function TicksWith(g: Game, draws: seq<Point>): (r: Game)
    requires forall i :: 0 <= i < |draws| ==> InGrid(draws[i])
    decreases |draws|
  {
    if |draws| == 0 then g else TicksWith(Tick(g, draws[0]).game, draws[1..])
  }

  /** The body lies in a straight line to the left of the head, head first. */
  predicate StraightBehind(g: Game) {
    forall i :: 0 <= i < |g.body| ==> g.body[i] == Point(g.head.x - i, g.head.y)
  }

  /** One tick of a straight snake heading right, whatever the food: the head
      advances one column, the body stays straight, and only the wall can end
      the game (a straight snake never meets itself). */
  lemma RightwardTick(g: Game, f: Point)
    requires Running(g) && InGrid(f)
    requires g.velocity == Point(1, 0) && StraightBehind(g)
    ensures Tick(g, f).game.head == Point(g.head.x + 1, g.head.y)
    ensures Tick(g, f).game.velocity == Point(1, 0) && !Tick(g, f).game.paused
    ensures StraightBehind(Tick(g, f).game)
    ensures Tick(g, f).game.over <==> !InGrid(Point(g.head.x + 1, g.head.y))
  {
    var r := Tick(g, f).game;
    assert !HeadOnBody(r.body) by {
      forall i | 1 <= i < |r.body|
        ensures r.body[i] != r.body[0]
      {
        assert r.body[i] == g.body[i - 1] == Point(g.head.x - (i - 1), g.head.y);
      }
    }
  }

  /** A straight snake heading right moves one column per tick and ends the
      game on exactly the tick that takes it past column 30, whatever it eats
      on the way and wherever each meal puts the next food. With no food on
      its row, the score does not change. */
  lemma {:induction false} RightwardRun(g: Game, draws: seq<Point>)
    requires Running(g) && InGrid(g.head)
    requires forall i :: 0 <= i < |draws| ==> InGrid(draws[i])
    requires g.velocity == Point(1, 0) && StraightBehind(g)
    requires g.head.x + |draws| <= Size + 1
    ensures TicksWith(g, draws).head == Point(g.head.x + |draws|, g.head.y)
    ensures TicksWith(g, draws).over <==> g.head.x + |draws| == Size + 1
    ensures g.food.None? || g.food.value.y != g.head.y ==> TicksWith(g, draws).score == g.score
    decreases |draws|
  {
    if |draws| > 0 {
      var g1 := Tick(g, draws[0]).game;
      RightwardTick(g, draws[0]);
      assert TicksWith(g, draws) == TicksWith(g1, draws[1..]);
      if |draws| == 1 {
        assert TicksWith(g1, draws[1..]) == g1;
      } else {
        assert !g1.over;
        RightwardRun(g1, draws[1..]);
      }
    }
  }

  /** Started at (5, 5) with the first food anywhere and sent right, the snake
      is still alive at (30, 5) after 25 ticks, whatever the food draws. */
  lemma AliveAfterTwentyFiveTicks(stored: nat, first: Point, g: Game, draws: seq<Point>)
    requires InGrid(first) && |draws| == 25
    requires forall i :: 0 <= i < |draws| ==> InGrid(draws[i])
    requires g == ChangeDirection(Start(Initial(stored), first), Arrow(Right))
    ensures TicksWith(g, draws).head == Point(30, 5) && !TicksWith(g, draws).over
  {
    RightwardRun(g, draws);
  }

  /** Started at (5, 5) with the first food anywhere and sent right, the 26th
      tick ends the game at (31, 5), whatever the food draws. */
  lemma WallOnTwentySixthTick(stored: nat, first: Point, g: Game, draws: seq<Point>)
    requires InGrid(first) && |draws| == 26
    requires forall i :: 0 <= i < |draws| ==> InGrid(draws[i])
    requires g == ChangeDirection(Start(Initial(stored), first), Arrow(Right))
    ensures TicksWith(g, draws).head == Point(31, 5) && TicksWith(g, draws).over
  {
    RightwardRun(g, draws);
  }

  /** Food one cell ahead is eaten on the second tick, not the first: the
      meal test looks at the head before it moves. */
  lemma FoodAheadEatenOnSecondTick(stored: nat, g: Game, f: Point)
    requires InGrid(f)
    requires g == ChangeDirection(Start(Initial(stored), Point(6, 5)), Arrow(Right))
    ensures Tick(g, f).game.score == 0
    ensures Tick(Tick(g, f).game, f).game.score == 1
    ensures |Tick(Tick(g, f).game, f).game.body| == 2
    ensures Tick(Tick(g, f).game, f).game.food == Some(f)
  {
    assert g.head == Origin && g.velocity == Point(1, 0) && g.food == Some(Point(6, 5));
    assert Running(g) && g.body == [] && g.score == 0;
    var g1 := Tick(g, f).game;
    assert g1.head == Point(6, 5) && g1.score == 0 && |g1.body| == 1 && !g1.over;
    assert g1.food == Some(Point(6, 5)) && g1.paused == false;
  }

  /** Food on the starting cell is eaten by the very first tick, and the body
      then has one segment for one meal. */
  lemma MealOnFirstTick(stored: nat, f: Point)
    requires InGrid(f)
    ensures var g := Tick(Start(Initial(stored), Origin), f).game;
      g.score == 1 && |g.body| == 1 && !g.over
  {
  }

  /** Standing still is not safe: food placed twice on the head grows the
      body onto the head's own cell and ends the game without a move. */
  lemma StandstillCollision(stored: nat)
    ensures var g1 := Tick(Start(Initial(stored), Origin), Origin).game;
      Tick(g1, Origin).game.over && Tick(g1, Origin).game.head == Origin
  {
    var g1 := Tick(Start(Initial(stored), Origin), Origin).game;
    var g2 := Tick(g1, Origin).game;
    assert g2.body[1] == Origin;
  }
}
