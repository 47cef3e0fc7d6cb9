/**
 * The game as a pure state machine over the Form's fields (Snake/Form.cs).
 *
 * Each function here is what one handler of the Form does to the whole
 * state; the class in form.dfy performs the same updates in place and is
 * proved equal to these functions. The random generator is a parameter
 * `rng`: the cells that successive RandomPoint calls return, in order.
 */
module SnakeSpec {
  import opened Geometry

  /** Page: which screen the window shows. */
  datatype Page = Main | Info | End | Game

  /** Speed: the tick rate multiplier, Easy = 1, Normal = 2, Hard = 4. */
  datatype Speed = Easy | Normal | Hard

  /** The keys the Form reacts to; every other key code is `Other`. */
  datatype Key = I | Space | Escape | Up | Down | W | A | S | D | Other

  function Multiplier(sp: Speed): int
  {
    match sp
    case Easy => 1
    case Normal => 2
    case Hard => 4
  }

  /** EasySpeedInterval: the tick interval in milliseconds at speed Easy. */
  const EasySpeedInterval := 150

  /** GameSpeed_Changed: the interval is 150 divided by the multiplier, rounded down. */
  function Interval(sp: Speed): (ms: int)
    ensures 0 < ms <= EasySpeedInterval
    ensures ms * Multiplier(sp) <= EasySpeedInterval < (ms + 1) * Multiplier(sp)
  {
    EasySpeedInterval / Multiplier(sp)
  }

  /** The Up key on the Info page: the multiplier doubles, saturating at Hard. */
  function SpeedUp(sp: Speed): (r: Speed)
    ensures Multiplier(r) == if 2 * Multiplier(sp) <= 4 then 2 * Multiplier(sp) else 4
  {
    if sp == Easy then Normal else Hard
  }

  /** The Down key on the Info page: the multiplier halves, saturating at Easy. */
  function SpeedDown(sp: Speed): (r: Speed)
    ensures Multiplier(r) == if Multiplier(sp) / 2 >= 1 then Multiplier(sp) / 2 else 1
  {
    if sp == Hard then Normal else Easy
  }

  /**
   * The Form's state. `interval` and `timerEnabled` are the WinForms Timer's
   * Interval and Enabled; `score` and `shownSpeed` are what InfoLabel shows.
   */
  datatype State = State(
    page: Page,
    speed: Speed,
    interval: int,
    timerEnabled: bool,
    snake: seq<Point>,
    food: Point,
    direction: Point,
    inGame: bool,
    score: int,
    shownSpeed: Speed)

  /** The GameSpeed setter followed by GameSpeed_Changed. */
  function SetGameSpeed(s: State, sp: Speed): State
  {
    s.(speed := sp, interval := Interval(sp))
  }

  /** WriteInfo, reduced to the numbers the label shows. */
  function WriteInfo(s: State): State
  {
    s.(score := |s.snake| - 1, shownSpeed := s.speed)
  }

  /** PutFood: the food goes to the first draw that is not on the snake. */
  function PutFood(s: State, rng: seq<Point>): State
    requires HasFreeDraw(s.snake, rng)
  {
    s.(food := rng[FirstFree(s.snake, rng)])
  }

  function SnakeGrowUp(s: State, rng: seq<Point>): State
    requires HasFreeDraw(s.snake, rng)
  {
    PutFood(WriteInfo(s), rng)
  }

  /** SnakeMove: the last segment is removed. */
  function SnakeMove(s: State): State
    requires s.snake != []
  {
    s.(snake := s.snake[..|s.snake| - 1])
  }

  /**
   * Draws that let a new game start: the first is the snake's cell, and
   * some later draw differs from it so that PutFood ends.
   */
  predicate GameDrawsOk(rng: seq<Point>)
  {
    |rng| > 0 && HasFreeDraw([rng[0]], rng[1..])
  }

  /** The AppPage setter followed by AppPage_Changed. */
  function SetAppPage(s: State, p: Page, rng: seq<Point>): State
    requires p == Game ==> GameDrawsOk(rng)
  {
    var s1 := s.(page := p);
    if p == Game then
      SnakeGrowUp(s1.(direction := Zero, snake := [rng[0]]), rng[1..]).(timerEnabled := true)
    else
      s1.(direction := Zero, inGame := false, timerEnabled := false)
  }

  /** Form_Load, applied to the fields as the constructor left them. */
  function FormLoad(s: State): State
  {
    WriteInfo(SetAppPage(SetGameSpeed(s, Normal), Main, []))
  }

  /** The key (re)starts a game: Space anywhere except during a running round. */
  predicate EntersGame(s: State, k: Key)
  {
    k == Space && (s.page != Game || !s.inGame)
  }

  predicate KeyDrawsOk(s: State, k: Key, rng: seq<Point>)
  {
    EntersGame(s, k) ==> GameDrawsOk(rng)
  }

  /** Form_KeyDown. */
  function KeyDown(s: State, k: Key, rng: seq<Point>): State
    requires KeyDrawsOk(s, k, rng)
  {
    match s.page
    case Main =>
      if k == I then SetAppPage(s, Info, rng)
      else if k == Space then SetAppPage(s, Game, rng)
      else s
    case Info =>
      if k == Escape then SetAppPage(s, Main, rng)
      else if k == Up then WriteInfo(SetGameSpeed(s, SpeedUp(s.speed)))
      else if k == Down then WriteInfo(SetGameSpeed(s, SpeedDown(s.speed)))
      else if k == Space then SetAppPage(s, Game, rng)
      else s
    case End =>
      if k == Escape then SetAppPage(s, Main, rng)
      else if k == Space then SetAppPage(s, Game, rng)
      else s
    case Game =>
      var t := s.(direction := Zero);
      match k
      case W => t.(direction := Point(t.direction.x, t.direction.y - 1))
      case A => t.(direction := Point(t.direction.x - 1, t.direction.y))
      case S => t.(direction := Point(t.direction.x, t.direction.y + 1))
      case D => t.(direction := Point(t.direction.x + 1, t.direction.y))
      case Space => if !s.inGame then SetAppPage(t, Game, rng) else t
      case _ => t
  }

  /** The cell the head moves to on the next tick. */
  function NewHead(s: State): Point
    requires s.snake != []
  {
    PointSum(s.snake[0], s.direction)
  }

  /** The next head leaves the board or hits a segment, the tail included. */
  predicate Collides(s: State)
    requires s.snake != []
  {
    !IsInGame(NewHead(s)) || IsOnSnake(s.snake, NewHead(s))
  }

  /** The next head is a legal move onto the food. */
  predicate Eats(s: State)
    requires s.snake != []
  {
    !Collides(s) && NewHead(s) == s.food
  }

  /** Draws that let PutFood end if this tick eats the food. */
  predicate TickDrawsOk(s: State, rng: seq<Point>)
    requires s.snake != []
  {
    s.direction != Zero && Eats(s) ==> HasFreeDraw([NewHead(s)] + s.snake, rng)
  }

  /** Timer_Tick. */
  function TimerTick(s: State, rng: seq<Point>): State
    requires s.snake != [] && TickDrawsOk(s, rng)
  {
    if s.direction == Zero then s
    else
      var s1 := s.(inGame := true);
      var newhead := NewHead(s);
      if IsInGame(newhead) && !IsOnSnake(s.snake, newhead) then
        var s2 := s1.(snake := [newhead] + s.snake);
        if s2.snake[0] == s2.food then SnakeGrowUp(s2, rng) else SnakeMove(s2)
      else
        SetAppPage(s1, End, rng)
  }

  /** The board while a game is shown: a snake on the grid and food beside it. */
  predicate SnakeInvariant(snake: seq<Point>, food: Point)
  {
    snake != [] && AllInGame(snake) && Distinct(snake) && Connected(snake) &&
    IsInGame(food) && !IsOnSnake(snake, food)
  }

  /** What holds of the Form after Form_Load and after every handler. */
  predicate Valid(s: State)
  {
    s.snake != [] &&
    s.interval == Interval(s.speed) &&
    s.score == |s.snake| - 1 && s.shownSpeed == s.speed &&
    IsDirection(s.direction) &&
    (s.timerEnabled <==> s.page == Game) &&
    (s.page != Game ==> s.direction == Zero && !s.inGame) &&
    (s.page == Game ==> SnakeInvariant(s.snake, s.food))
  }
}
