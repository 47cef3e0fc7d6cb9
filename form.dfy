/**
 * The Form itself (Snake/Form.cs): its fields and the handlers that update
 * them in place. Every method is proved to leave the fields exactly as the
 * function of the same name in SnakeSpec says, so the lemmas of
 * SnakeInvariants and SnakeProperties apply to it.
 */
module SnakeForm {
  import opened Geometry
  import opened SnakeSpec
  import SnakeInvariants

  class Form {
    var appPage: Page
    var gameSpeed: Speed
    /** Timer.Interval and Timer.Enabled. */
    var timerInterval: int
    var timerEnabled: bool
    /** The snake, head first. */
    var snake: seq<Point>
    var food: Point
    var direction: Point
    var inGame: bool
    /** The score and the speed that InfoLabel shows. */
    var infoScore: int
    var infoSpeed: Speed

    /** The fields as one SnakeSpec.State. */
    function Abstract(): State
      reads this
    {
      State(appPage, gameSpeed, timerInterval, timerEnabled, snake, food, direction,
            inGame, infoScore, infoSpeed)
    }

    ghost predicate Valid()
      reads this
    {
      SnakeSpec.Valid(Abstract())
    }

    /**
     * The Form constructor with its field initialisers, followed by
     * Form_Load. The speed field starts as (Speed)0, which names no member;
     * Easy stands in for it here, and Form_Load overwrites it before any use.
     */
    constructor ()
      ensures Valid()
      ensures appPage == Main && gameSpeed == Normal && timerInterval == 75 && !timerEnabled
      ensures snake == [Zero] && food == Zero && direction == Zero && !inGame
      ensures infoScore == 0 && infoSpeed == Normal
    {
      appPage := Main;
      gameSpeed := Easy;
      timerInterval := 10;
      timerEnabled := false;
      snake := [Zero];
      food := Zero;
      direction := Zero;
      inGame := false;
      infoScore := 0;
      infoSpeed := Easy;
      new;
      ghost var s0 := Abstract();
      SetGameSpeed(Normal);
      SetAppPage(Main, []);
      WriteInfo();
      assert Abstract() == FormLoad(s0);
      SnakeInvariants.FormLoadValid(s0);
    }

    /** The GameSpeed setter; GameSpeed_Changed runs as part of it. */
    method SetGameSpeed(sp: Speed)
      modifies this
      ensures Abstract() == SnakeSpec.SetGameSpeed(old(Abstract()), sp)
    {
      gameSpeed := sp;
      timerInterval := EasySpeedInterval / Multiplier(gameSpeed);
    }

    /** The AppPage setter; AppPage_Changed runs as part of it. */
    method SetAppPage(p: Page, rng: seq<Point>)
      requires p == Game ==> GameDrawsOk(rng)
      modifies this
      ensures Abstract() == SnakeSpec.SetAppPage(old(Abstract()), p, rng)
    {
      appPage := p;
      match appPage {
        case Main | Info | End =>
          direction := Zero;
          inGame := false;
          timerEnabled := false;
        case Game =>
          direction := Zero;
          snake := [rng[0]];
          SnakeGrowUp(rng[1..]);
          timerEnabled := true;
      }
    }

    /** WriteInfo: the label shows the snake's length minus one and the speed. */
    method WriteInfo()
      modifies this
      ensures Abstract() == SnakeSpec.WriteInfo(old(Abstract()))
    {
      infoScore := |snake| - 1;
      infoSpeed := gameSpeed;
    }

    /** PutFood: draw cells until one is not on the snake. */
    method PutFood(rng: seq<Point>)
      requires HasFreeDraw(snake, rng)
      modifies this
      ensures Abstract() == SnakeSpec.PutFood(old(Abstract()), rng)
    {
      var i := 0;
      food := rng[i];
      while IsOnSnake(snake, food)
        invariant Abstract() == old(Abstract()).(food := food)
        invariant i <= FirstFree(snake, rng) && food == rng[i]
        decreases FirstFree(snake, rng) - i
      {
        i := i + 1;
        food := rng[i];
      }
    }

    method SnakeGrowUp(rng: seq<Point>)
      requires HasFreeDraw(snake, rng)
      modifies this
      ensures Abstract() == SnakeSpec.SnakeGrowUp(old(Abstract()), rng)
    {
      WriteInfo();
      PutFood(rng);
    }

    /** SnakeMove: the last segment is removed. */
    method SnakeMove()
      requires snake != []
      modifies this
      ensures Abstract() == SnakeSpec.SnakeMove(old(Abstract()))
    {
      snake := snake[..|snake| - 1];
    }

    /** Form_KeyDown. */
    method KeyDown(k: Key, rng: seq<Point>)
      requires Valid() && AllInGame(rng) && KeyDrawsOk(Abstract(), k, rng)
      modifies this
      ensures Abstract() == SnakeSpec.KeyDown(old(Abstract()), k, rng)
      ensures Valid()
    {
      ghost var s0 := Abstract();
      match appPage {
        case Main =>
          if k == I {
            SetAppPage(Info, rng);
          } else if k == Space {
            SetAppPage(Game, rng);
          }
        case Info =>
          if k == Escape {
            SetAppPage(Main, rng);
          } else if k == Up {
            SetGameSpeed(if gameSpeed == Easy then Normal else Hard);
            WriteInfo();
          } else if k == Down {
            SetGameSpeed(if gameSpeed == Hard then Normal else Easy);
            WriteInfo();
          } else if k == Space {
            SetAppPage(Game, rng);
          }
        case End =>
          if k == Escape {
            SetAppPage(Main, rng);
          } else if k == Space {
            SetAppPage(Game, rng);
          }
        case Game =>
          direction := Zero;
          match k {
            case W => direction := Point(direction.x, direction.y - 1);
            case A => direction := Point(direction.x - 1, direction.y);
            case S => direction := Point(direction.x, direction.y + 1);
            case D => direction := Point(direction.x + 1, direction.y);
            case Space =>
              if !inGame {
                SetAppPage(Game, rng);
              }
            case _ =>
          }
      }
      SnakeInvariants.KeyDownPreservesValid(s0, k, rng);
    }

    /** Timer_Tick: one step of the snake. */
    method TimerTick(rng: seq<Point>)
      requires Valid() && AllInGame(rng) && TickDrawsOk(Abstract(), rng)
      modifies this
      ensures Abstract() == SnakeSpec.TimerTick(old(Abstract()), rng)
      ensures Valid()
    {
      ghost var s0 := Abstract();
      if direction != Zero {
        if !inGame {
          inGame := true;
        }
        var newhead := PointSum(snake[0], direction);
        if IsInGame(newhead) && !IsOnSnake(snake, newhead) {
          snake := [newhead] + snake;
          if snake[0] == food {
            SnakeGrowUp(rng);
          } else {
            SnakeMove();
          }
        } else {
          SetAppPage(End, rng);
        }
      }
      SnakeInvariants.TickPreservesValid(s0, rng);
    }
  }
}
