# Snake: the game's state machine, verified

This project models the core of a small WinForms Snake game (`Snake/Form.cs`).
The window shows one of four pages (Main, Info, End, Game). It reacts to key
presses, and while a game runs a timer moves the snake one cell of a 30x30
board per tick. The snake grows when it reaches the food. It dies when its next
head would leave the board or land on one of its own segments.

Files:

- `geometry.dfy` (module `Geometry`): grid cells, `PointSum`, `IsInGame`,
  `IsOnSnake` and the shape predicates of the snake (in bounds, no repeated
  cell, each segment next to the one before it). It also holds `FirstFree`,
  the draw that PutFood's rejection loop settles on, and the count of the
  board's 900 cells.
- `spec.dfy` (module `SnakeSpec`): the Form's fields as one `State` value, and
  each handler as a function from state to state: `SetGameSpeed`,
  `SetAppPage`, `WriteInfo`, `PutFood`, `SnakeGrowUp`, `SnakeMove`,
  `FormLoad`, `KeyDown` and `TimerTick`. It also holds the invariant `Valid`.
- `invariants.dfy` (module `SnakeInvariants`): `Valid` holds after Form_Load
  and is kept by every key press and tick. So it holds after any sequence of
  events (`Run`).
- `properties.dfy` (module `SnakeProperties`): what a single tick or key
  press does: moving, eating, colliding, reversing, the page table, the
  movement keys and the speed keys.
- `form.dfy` (module `SnakeForm`): class `Form`. Its fields are the ones the
  source mutates: `appPage`, `gameSpeed`, the timer's interval and enabled
  flag, `snake`, `food`, `direction`, `inGame` and the label's numbers. Its
  methods update them in place. Each method is proved to leave the fields
  exactly as the `SnakeSpec` function of the same name says. The
  constructor establishes `Valid()`, and the event handlers `KeyDown` and
  `TimerTick` keep it. The helper methods are steps inside a handler and may
  break it for a moment.

Randomness is a parameter. Every handler that may call `RandomPoint` takes
`rng`, the cells those calls return, in order. Entering the Game page puts
the snake on `rng[0]` and runs PutFood over the rest. PutFood's `do … while`
loop takes the first draw that is not on the snake.

Two behaviours of the code worth noting:

- On the Game page every key first resets the direction to zero. A key that
  is not W, A, S or D therefore stops the snake. It does not keep the previous
  direction.
- Space on the Game page restarts only while no round is running. A round
  starts on the first tick that has a direction.

## Model

| member | source | states |
|---|---|---|
| Geometry.FirstFree | Snake/Form.cs:242 | PutFood's loop ends on a draw that is not on the snake. Every earlier draw is on the snake, so the food is the first free draw. |
| Geometry.PrependDistinct | Snake/Form.cs:198-200 | Inserting a head that is not on the snake keeps all segments pairwise different. |
| Geometry.PrependConnected | Snake/Form.cs:197-200 | Inserting a head one unit step from the old head keeps every segment next to the one before it. |
| Geometry.DropLastKeepsShape | Snake/Form.cs:278-281 | Removing the last segment keeps the snake on the board, free of repeats and connected. |
| Geometry.BoardSize | Snake/Form.cs:44 | The 30x30 board has exactly 900 cells. |
| Geometry.SnakeFillsAtMostBoard | Snake/Form.cs:238-240 | A snake on the board with no repeated cell has at most 900 segments. A snake of exactly 900 segments covers every cell of the board. |
| SnakeSpec.Interval | Snake/Form.cs:58-63 | The timer interval is 150 divided by the speed multiplier, rounded down. It is positive and at most 150. |
| SnakeSpec.SpeedUp | Snake/Form.cs:160 | Up doubles the multiplier and saturates at 4 (Hard). |
| SnakeSpec.SpeedDown | Snake/Form.cs:161 | Down halves the multiplier and saturates at 1 (Easy). |
| SnakeInvariants.FormLoadValid | Snake/Form.cs:129-140 | Form_Load yields a valid state, whatever speed the field held before: Main page, speed Normal, interval 75, timer off, score equal to the snake's length minus one. |
| SnakeInvariants.EnterGameValid | Snake/Form.cs:111-124 | Entering the Game page with in-bounds draws gives a valid board: a one-cell snake on the grid, food on the grid and off the snake, timer on. |
| SnakeInvariants.TickPreservesValid | Snake/Form.cs:191-211 | Every tick keeps the invariant: snake non-empty, in bounds, no repeated cell, connected; food in bounds and off the snake; score equal to length minus one; timer on exactly on the Game page. |
| SnakeInvariants.KeyDownPreservesValid | Snake/Form.cs:142-189 | Every key press keeps the same invariant. |
| SnakeInvariants.Step | Snake/Form.cs:142-211 | Handling one event (a key press or a tick) from a valid state gives a valid state. |
| SnakeInvariants.Run | Snake/Form.cs:142-211 | Any sequence of events from a valid state ends in a valid state. |
| SnakeInvariants.ReachableStates | Snake/Form.cs:268-271 | In every state reachable after Form_Load: the score is the snake's length minus one, the interval is 150, 75 or 37, and on the Game page the snake and food satisfy the board invariant. |
| SnakeProperties.TickWhileStoppedChangesNothing | Snake/Form.cs:193 | A tick with zero direction leaves the whole state unchanged. |
| SnakeProperties.TickMoves | Snake/Form.cs:197-202 | A legal move that misses the food gives old head + direction followed by the old snake without its last segment. The length, food and score are unchanged and the round is running. The whole new state is given: the direction, speed, interval, timer and label are unchanged, so the direction carries over to the next tick. |
| SnakeProperties.TickEats | Snake/Form.cs:197-201 | A legal move onto the food prepends the new head and keeps the tail, so the length grows by exactly one. The new food is the first draw that is not on the grown snake, and the score is the new length minus one. The whole new state is given: the direction, speed, interval and timer are unchanged. |
| SnakeProperties.GrowsIffEats | Snake/Form.cs:197-202 | The snake grows by one exactly when the tick moves onto the food. Otherwise its length is unchanged. Both directions are proved. |
| SnakeProperties.TickCollides | Snake/Form.cs:197-209 | If the next head is off the board or on any segment, tail included, the tick leads to the End page. The timer is off, the direction is zero, the round is over. The whole new state is given: the snake, food, speed, interval, score and shown speed are unchanged. |
| SnakeProperties.ReversalEndsGame | Snake/Form.cs:177-185 | After a move that leaves the snake at least two long, pressing the opposite key and ticking always ends the game. |
| SnakeProperties.BackKeyExists | Snake/Form.cs:177-183 | On a valid Game board of at least two segments, one of W, A, S and D sets the direction to the step from the head to the second segment, because the snake is connected. |
| SnakeProperties.TurningBackEndsGame | Snake/Form.cs:177-209 | From any Game state, running or paused, a movement key that points the head at the second segment makes the next tick collide with it and go to the End page. |
| SnakeProperties.PageTransitions | Snake/Form.cs:144-188 | Main: I goes to Info, Space to Game. Info and End: Escape goes to Main, Space to Game. Game keys never leave the Game page. Keys a page does not handle leave the state unchanged. |
| SnakeProperties.GameKeys | Snake/Form.cs:175-187 | On the Game page W, A, S, D set (0,-1), (-1,0), (0,1), (1,0) and change nothing else. Other keys set the direction to zero. Space restarts only when no round is running. The direction is a unit step exactly when the key is W, A, S or D. |
| SnakeProperties.SpeedKeys | Snake/Form.cs:155-165 | Only Up and Down on the Info page change the speed. They step it, set the matching interval and refresh the label. |
| SnakeProperties.SpeedSteps | Snake/Form.cs:58-63 | Easy→Normal→Hard→Hard going up, Hard→Normal→Easy→Easy going down. The intervals are 150, 75 and 37 ms. |
| SnakeProperties.EnterGame | Snake/Form.cs:111-124 | Entering Game: direction zero, snake `[rng[0]]`, food a later draw off the snake, timer on, score 0, speed, interval and the round flag kept. |
| SnakeProperties.EnterStaticPage | Snake/Form.cs:91-110 | Entering Main, Info or End sets the direction to zero, ends the round and turns the timer off. Nothing else changes, and entering the same page again changes nothing. |
| SnakeProperties.SnakeShorterThanBoard | Snake/Form.cs:242 | While the Game page is shown, the snake has fewer than 900 segments, because the food occupies a free cell. |
| SnakeProperties.EatingLastFreeCellHangs | Snake/Form.cs:242 | When a 899-segment snake eats, the grown snake covers the board, so no on-board draw is free. With on-board draws only, PutFood's loop never ends. |
| SnakeForm.Form.constructor | Snake/Form.cs:129-140 | The fields after construction and Form_Load: Main page, Normal speed, interval 75, timer off, snake `[(0,0)]`, score 0, and the invariant holds. |
| SnakeForm.Form.SetGameSpeed | Snake/Form.cs:48-63 | Setting the speed also sets the timer interval to 150 divided by the multiplier. Nothing else changes. |
| SnakeForm.Form.SetAppPage | Snake/Form.cs:76-126 | Setting the page runs the entry actions of that page, as `SnakeSpec.SetAppPage` states. |
| SnakeForm.Form.WriteInfo | Snake/Form.cs:268-271 | The label's score becomes the snake's length minus one and its speed becomes the current speed. |
| SnakeForm.Form.PutFood | Snake/Form.cs:242 | The rejection loop sets the food to the first draw that is not on the snake. Nothing else changes. |
| SnakeForm.Form.SnakeGrowUp | Snake/Form.cs:273-277 | The label is refreshed, then food is placed. |
| SnakeForm.Form.SnakeMove | Snake/Form.cs:278-281 | The last segment is removed in place. |
| SnakeForm.Form.KeyDown | Snake/Form.cs:142-189 | The fields become `SnakeSpec.KeyDown` of the old fields, and the invariant is kept. |
| SnakeForm.Form.TimerTick | Snake/Form.cs:191-211 | The fields become `SnakeSpec.TimerTick` of the old fields, and the invariant is kept. |

## Left out

- Rendering is not modelled. That covers `GameBitmapRefresh`, `PaintScreen`, `ClearScreen`, `WriteScreen`, `MiddlePoint`, `PointScale`, `SizeScale`, the bitmaps, fonts, brushes, colours and `PageTexts`. They only produce pixels.
- `Snake/Form.Designer.cs` (layout and `Dispose`) is not part of this model. The only values taken from it are the timer's initial interval of 10 and its initially disabled state.
- The WinForms timer is not modelled. It appears only as the `timerInterval` and `timerEnabled` fields. A tick is a call of `TimerTick`, which the host makes only while the timer is enabled.
- The `AppPageChanged` and `GameSpeedChanged` delegates are not modelled. The setters perform the dependent actions directly.
- The InfoLabel text is not modelled. Only the two numbers it shows are kept: the score and the speed.
- `RandomPointF` and `RandomPoint` are replaced by the `rng` parameter, whose cells are required to lie on the board. The source casts `NextDouble()` to single precision. That cast can round a value just below 1 up to 1.0, which would give coordinate 30, off the board. The model does not capture this floating-point case.
- SnakeForm.Form.PutFood: the source's loop ends only almost surely. The model takes the draws as a parameter and requires that one of them is free (`HasFreeDraw`, carried by `GameDrawsOk`, `KeyDrawsOk` and `TickDrawsOk`). When a 899-segment snake eats, no on-board cell is free (`EatingLastFreeCellHangs`), and the model's precondition excludes that tick. In the source, the loop then runs until `RandomPoint` happens to return a coordinate of 30 (the rounding case in the line above). That draw is never on the snake, so the loop still ends almost surely. The food then lies off the board and the next tick collides. The model does not capture this exit, because its draws are all on the board.
- The `gameSpeed` field holds `(Speed)0` between construction and Form_Load, and that value names no enum member. The constructor uses `Easy` in its place. Form_Load overwrites it before it is read.
- Coordinates are unbounded integers. Every reachable head is within one step of the board, so the source's 32-bit `int` arithmetic never overflows.
