/** What single key presses and timer ticks do (Snake/Form.cs). */
module SnakeProperties {
  import opened Geometry
  import opened SnakeSpec

  /** With no direction a tick changes nothing at all. */
  lemma TickWhileStoppedChangesNothing(s: State, rng: seq<Point>)
    requires s.snake != [] && s.direction == Zero
    ensures TimerTick(s, rng) == s
  {
  }

  /**
   * A legal move that misses the food: the new head is the old head plus the
   * direction, followed by the old snake without its last segment. Nothing
   * else changes: the direction in particular carries over to the next tick.
   */
  lemma TickMoves(s: State, rng: seq<Point>)
    requires s.snake != [] && s.direction != Zero
    requires !Collides(s) && NewHead(s) != s.food
    ensures TimerTick(s, rng).snake == [PointSum(s.snake[0], s.direction)] + s.snake[..|s.snake| - 1]
    ensures |TimerTick(s, rng).snake| == |s.snake|
    ensures TimerTick(s, rng).food == s.food && TimerTick(s, rng).score == s.score
    ensures TimerTick(s, rng).page == s.page && TimerTick(s, rng).inGame
    ensures TimerTick(s, rng) == s.(inGame := true, snake := [NewHead(s)] + s.snake[..|s.snake| - 1])
  {
  }

  /**
   * A legal move onto the food: the snake grows by exactly one segment in
   * front, the food moves to a draw off the grown snake, and the score is
   * the new length minus one. Nothing else changes: the direction in
   * particular carries over to the next tick.
   */
  lemma TickEats(s: State, rng: seq<Point>)
    requires s.snake != [] && s.direction != Zero && Eats(s)
    requires HasFreeDraw([NewHead(s)] + s.snake, rng)
    ensures TimerTick(s, rng).snake == [PointSum(s.snake[0], s.direction)] + s.snake
    ensures |TimerTick(s, rng).snake| == |s.snake| + 1
    ensures TimerTick(s, rng).food in rng
    ensures !IsOnSnake(TimerTick(s, rng).snake, TimerTick(s, rng).food)
    ensures TimerTick(s, rng).score == |TimerTick(s, rng).snake| - 1
    ensures TimerTick(s, rng).page == s.page && TimerTick(s, rng).inGame
    ensures var g := [NewHead(s)] + s.snake;
      TimerTick(s, rng) == s.(inGame := true, snake := g, food := rng[FirstFree(g, rng)],
                              score := |g| - 1, shownSpeed := s.speed)
  {
  }

  /** The snake grows on a tick exactly when the tick moves it onto the food. */
  lemma GrowsIffEats(s: State, rng: seq<Point>)
    requires s.snake != [] && TickDrawsOk(s, rng)
    ensures |TimerTick(s, rng).snake| == |s.snake| + 1 <==> s.direction != Zero && Eats(s)
    ensures |TimerTick(s, rng).snake| == |s.snake| <==> !(s.direction != Zero && Eats(s))
  {
  }

  /**
   * A tick whose next head is off the board or on the snake (its tail
   * included) ends the game: the End page, the timer off, no direction, the
   * round over, and the snake and food as they were.
   */
  lemma TickCollides(s: State, rng: seq<Point>)
    requires s.snake != [] && s.direction != Zero && Collides(s)
    ensures TimerTick(s, rng).page == End && !TimerTick(s, rng).timerEnabled
    ensures TimerTick(s, rng).direction == Zero && !TimerTick(s, rng).inGame
    ensures TimerTick(s, rng).snake == s.snake && TimerTick(s, rng).food == s.food
    ensures TimerTick(s, rng).speed == s.speed && TimerTick(s, rng).score == s.score
    ensures TimerTick(s, rng) == s.(page := End, direction := Zero, inGame := false, timerEnabled := false)
  {
  }

  /** The key that turns the snake straight back. */
  function Opposite(k: Key): Key
  {
    match k
    case W => S
    case S => W
    case A => D
    case D => A
    case _ => k
  }

  /**
   * Reversing: press a movement key `k` on the Game page and let a tick move
   * the snake (by a step or by eating) so that it is at least two segments
   * long; pressing the opposite key then points the head at the second
   * segment, and the next tick always ends the game.
   */
  lemma ReversalEndsGame(s: State, k: Key, rng: seq<Point>)
    requires s.page == Game && s.snake != [] && k in {W, A, S, D}
    requires !Collides(KeyDown(s, k, rng)) && TickDrawsOk(KeyDown(s, k, rng), rng)
    requires |TimerTick(KeyDown(s, k, rng), rng).snake| >= 2
    ensures Collides(KeyDown(TimerTick(KeyDown(s, k, rng), rng), Opposite(k), []))
    ensures TimerTick(KeyDown(TimerTick(KeyDown(s, k, rng), rng), Opposite(k), []), []).page == End
  {
    var t0 := KeyDown(s, k, rng);
    var t1 := TimerTick(t0, rng);
    var t2 := KeyDown(t1, Opposite(k), []);
    assert t1.snake[0] == PointSum(s.snake[0], t0.direction) && t1.snake[1] == s.snake[0];
    assert t2.snake == t1.snake;
    assert NewHead(t2) == s.snake[0];
  }

  /**
   * On a valid Game board with at least two segments, some movement key
   * points the head straight back at the second segment: the snake is
   * connected, so that segment is one unit step away.
   */
  lemma BackKeyExists(s: State)
    requires Valid(s) && s.page == Game && |s.snake| >= 2
    ensures exists k :: k in {W, A, S, D} && KeyDown(s, k, []).direction == Diff(s.snake[1], s.snake[0])
  {
    var d := Diff(s.snake[1], s.snake[0]);
    assert Adjacent(s.snake[0], s.snake[1]);
    assert Diff(s.snake[0], s.snake[1]) == Point(-d.x, -d.y);
    if d == Point(0, -1) {
      assert KeyDown(s, W, []).direction == d;
    } else if d == Point(-1, 0) {
      assert KeyDown(s, A, []).direction == d;
    } else if d == Point(0, 1) {
      assert KeyDown(s, S, []).direction == d;
    } else {
      assert KeyDown(s, D, []).direction == d;
    }
  }

  /**
   * Turning back from any Game state, running or paused: a movement key
   * whose vector leads from the head to the second segment makes the next
   * tick hit that segment and end the game.
   */
  lemma TurningBackEndsGame(s: State, k: Key)
    requires s.page == Game && |s.snake| >= 2 && k in {W, A, S, D}
    requires KeyDown(s, k, []).direction == Diff(s.snake[1], s.snake[0])
    ensures NewHead(KeyDown(s, k, [])) == s.snake[1] && Collides(KeyDown(s, k, []))
    ensures TimerTick(KeyDown(s, k, []), []).page == End
  {
  }

  /** The page a key press leads to; keys a page does not handle leave the state as it was. */
  lemma PageTransitions(s: State, k: Key, rng: seq<Point>)
    requires KeyDrawsOk(s, k, rng)
    ensures s.page == Main ==>
      KeyDown(s, k, rng).page == (if k == I then Info else if k == Space then Game else Main)
    ensures s.page == Info ==>
      KeyDown(s, k, rng).page == (if k == Escape then Main else if k == Space then Game else Info)
    ensures s.page == End ==>
      KeyDown(s, k, rng).page == (if k == Escape then Main else if k == Space then Game else End)
    ensures s.page == Game ==> KeyDown(s, k, rng).page == Game
    ensures s.page == Main && k !in {I, Space} ==> KeyDown(s, k, rng) == s
    ensures s.page == Info && k !in {Escape, Up, Down, Space} ==> KeyDown(s, k, rng) == s
    ensures s.page == End && k !in {Escape, Space} ==> KeyDown(s, k, rng) == s
  {
  }

  /**
   * On the Game page every key first clears the direction; W, A, S and D
   * then set one unit component, every other key leaves the snake paused,
   * and Space restarts only when no round is running.
   */
  lemma GameKeys(s: State, k: Key, rng: seq<Point>)
    requires s.page == Game && KeyDrawsOk(s, k, rng)
    ensures k == W ==> KeyDown(s, k, rng) == s.(direction := Point(0, -1))
    ensures k == A ==> KeyDown(s, k, rng) == s.(direction := Point(-1, 0))
    ensures k == S ==> KeyDown(s, k, rng) == s.(direction := Point(0, 1))
    ensures k == D ==> KeyDown(s, k, rng) == s.(direction := Point(1, 0))
    ensures k !in {W, A, S, D, Space} ==> KeyDown(s, k, rng) == s.(direction := Zero)
    ensures k == Space && s.inGame ==> KeyDown(s, k, rng) == s.(direction := Zero)
    ensures k == Space && !s.inGame ==> KeyDown(s, k, rng) == SetAppPage(s, Game, rng)
    ensures IsUnit(KeyDown(s, k, rng).direction) <==> k in {W, A, S, D}
  {
  }

  /**
   * Only Up and Down on the Info page change the speed; they step it with
   * saturation, set the interval to match and refresh the label.
   */
  lemma SpeedKeys(s: State, k: Key, rng: seq<Point>)
    requires KeyDrawsOk(s, k, rng)
    ensures KeyDown(s, k, rng).speed != s.speed ==> s.page == Info && k in {Up, Down}
    ensures s.page == Info && k == Up ==>
      KeyDown(s, k, rng) == s.(speed := SpeedUp(s.speed), interval := Interval(SpeedUp(s.speed)),
                               score := |s.snake| - 1, shownSpeed := SpeedUp(s.speed))
    ensures s.page == Info && k == Down ==>
      KeyDown(s, k, rng) == s.(speed := SpeedDown(s.speed), interval := Interval(SpeedDown(s.speed)),
                               score := |s.snake| - 1, shownSpeed := SpeedDown(s.speed))
  {
  }

  /** The speed steps saturate at both ends and the intervals are 150, 75 and 37 ms. */
  lemma SpeedSteps()
    ensures SpeedUp(Easy) == Normal && SpeedUp(Normal) == Hard && SpeedUp(Hard) == Hard
    ensures SpeedDown(Hard) == Normal && SpeedDown(Normal) == Easy && SpeedDown(Easy) == Easy
    ensures Interval(Easy) == 150 && Interval(Normal) == 75 && Interval(Hard) == 37
  {
  }

  /**
   * Entering the Game page: no direction, a one-cell snake on the first
   * draw, food on a later draw off the snake, the timer on and score 0.
   */
  lemma EnterGame(s: State, rng: seq<Point>)
    requires GameDrawsOk(rng)
    ensures SetAppPage(s, Game, rng).page == Game
    ensures SetAppPage(s, Game, rng).direction == Zero
    ensures SetAppPage(s, Game, rng).snake == [rng[0]]
    ensures SetAppPage(s, Game, rng).food in rng[1..]
    ensures !IsOnSnake(SetAppPage(s, Game, rng).snake, SetAppPage(s, Game, rng).food)
    ensures SetAppPage(s, Game, rng).timerEnabled && SetAppPage(s, Game, rng).score == 0
    ensures SetAppPage(s, Game, rng).speed == s.speed && SetAppPage(s, Game, rng).interval == s.interval
    ensures SetAppPage(s, Game, rng).inGame == s.inGame
  {
  }

  /**
   * Entering Main, Info or End: no direction, the round over, the timer off,
   * and the board and speed as they were; entering the same page again
   * changes nothing more.
   */
  lemma EnterStaticPage(s: State, p: Page, rng: seq<Point>)
    requires p != Game
    ensures SetAppPage(s, p, rng) == s.(page := p, direction := Zero, inGame := false, timerEnabled := false)
    ensures SetAppPage(SetAppPage(s, p, rng), p, rng) == SetAppPage(s, p, rng)
  {
  }

  /** While a game is shown the food occupies a free cell, so the snake is shorter than the board. */
  lemma SnakeShorterThanBoard(s: State)
    requires Valid(s) && s.page == Game
    ensures |s.snake| < Width * Height
  {
    SnakeFillsAtMostBoard(s.snake, s.food);
  }

  /**
   * Eating the food on the last free cell grows the snake over the whole
   * board, and then no sequence of on-board draws lets PutFood finish. Only
   * an off-board draw, which the model excludes, would end its loop.
   */
  lemma EatingLastFreeCellHangs(s: State, rng: seq<Point>)
    requires Valid(s) && s.page == Game && s.direction != Zero && Eats(s)
    requires |s.snake| == Width * Height - 1 && AllInGame(rng)
    ensures !TickDrawsOk(s, rng)
  {
    var grown := [NewHead(s)] + s.snake;
    PrependDistinct(NewHead(s), s.snake);
    assert AllInGame(grown) by {
      forall i | 0 <= i < |grown| ensures IsInGame(grown[i]) {
        if i > 0 { assert grown[i] == s.snake[i - 1]; }
      }
    }
    forall i | 0 <= i < |rng| ensures IsOnSnake(grown, rng[i]) {
      SnakeFillsAtMostBoard(grown, rng[i]);
    }
  }
}
