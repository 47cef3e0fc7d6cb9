/**
 * The Form's invariant (SnakeSpec.Valid) holds after Form_Load and is kept
 * by every key press and every timer tick, so it holds in every state the
 * game can reach.
 */
module SnakeInvariants {
  import opened Geometry
  import opened SnakeSpec

  /** Form_Load gives a valid state whatever the constructor left behind. */
  lemma FormLoadValid(s: State)
    requires s.snake != []
    ensures Valid(FormLoad(s))
    ensures FormLoad(s).page == Main && FormLoad(s).speed == Normal
    ensures FormLoad(s).interval == 75 && !FormLoad(s).timerEnabled
    ensures FormLoad(s).snake == s.snake && FormLoad(s).score == |s.snake| - 1
  {
  }

  /** Entering the Game page sets up a fresh board that satisfies the invariant. */
  lemma EnterGameValid(s: State, rng: seq<Point>)
    requires s.interval == Interval(s.speed) && s.shownSpeed == s.speed
    requires AllInGame(rng) && GameDrawsOk(rng)
    ensures Valid(SetAppPage(s, Game, rng))
  {
  }

  /** A tick keeps the invariant, whether it waits, moves, eats or collides. */
  lemma TickPreservesValid(s: State, rng: seq<Point>)
    requires Valid(s) && AllInGame(rng) && TickDrawsOk(s, rng)
    ensures Valid(TimerTick(s, rng))
  {
    if s.direction != Zero && !Collides(s) {
      var h := NewHead(s);
      assert Adjacent(h, s.snake[0]) by {
        assert Diff(h, s.snake[0]) == s.direction;
      }
      PrependDistinct(h, s.snake);
      PrependConnected(h, s.snake);
      if h != s.food {
        DropLastKeepsShape([h] + s.snake);
      }
    }
  }

  /** A key press keeps the invariant. */
  lemma KeyDownPreservesValid(s: State, k: Key, rng: seq<Point>)
    requires Valid(s) && AllInGame(rng) && KeyDrawsOk(s, k, rng)
    ensures Valid(KeyDown(s, k, rng))
  {
  }

  /** One event the Form handles: a key press or a timer tick, each with its random draws. */
  datatype Event = KeyPress(key: Key, rng: seq<Point>) | Tick(rng: seq<Point>)

  predicate EventOk(s: State, e: Event)
    requires s.snake != []
  {
    AllInGame(e.rng) &&
    match e
    case KeyPress(k, rng) => KeyDrawsOk(s, k, rng)
    case Tick(rng) => TickDrawsOk(s, rng)
  }

  /** The handler an event runs. */
  function Step(s: State, e: Event): (r: State)
    requires Valid(s) && EventOk(s, e)
    ensures Valid(r)
  {
    match e
    case KeyPress(k, rng) => KeyDownPreservesValid(s, k, rng); KeyDown(s, k, rng)
    case Tick(rng) => TickPreservesValid(s, rng); TimerTick(s, rng)
  }

  /** Every event of the sequence has draws its handler can use. */
  predicate Feasible(s: State, events: seq<Event>)
    requires Valid(s)
    decreases |events|
  {
    events == [] || (EventOk(s, events[0]) && Feasible(Step(s, events[0]), events[1..]))
  }

  /** The state after handling the events in order. */
  function Run(s: State, events: seq<Event>): (r: State)
    requires Valid(s) && Feasible(s, events)
    ensures Valid(r)
    decreases |events|
  {
    if events == [] then s else Run(Step(s, events[0]), events[1..])
  }

  /**
   * In every reachable state the label's score is the snake's length minus
   * one, the interval matches the speed, and while the Game page is shown
   * the snake is on the board without overlap and the food is off it.
   */
  lemma ReachableStates(s0: State, events: seq<Event>)
    requires s0.snake != []
    requires Feasible(FormLoad(s0), events)
    ensures Run(FormLoad(s0), events).score == |Run(FormLoad(s0), events).snake| - 1
    ensures Run(FormLoad(s0), events).interval in {150, 75, 37}
    ensures Run(FormLoad(s0), events).page == Game ==>
              SnakeInvariant(Run(FormLoad(s0), events).snake, Run(FormLoad(s0), events).food)
  {
    FormLoadValid(s0);
  }
}
