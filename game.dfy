/** The game as the page holds it: one object whose fields the tick, the clock,
    the keyboard and the start and restart buttons update in place. */
module Game {
  import opened Grid
  import opened Engine
  import Controls
  import Clock

  class SnakeGame {
    const rows: int
    const cols: int
    var snake: seq<Cell>
    var food: Cell
    var direction: Direction
    var score: nat
    var highScore: nat
    /** The elapsed time as displayed, "MM:SS". */
    var time: string
    /** The minutes and seconds `time` shows. */
    ghost var clock: Clock.Clock
    /** The tick and clock timers are running. */
    var running: bool

    /** The values a tick reads and writes. */
    function Current(): Play
      reads this`snake, this`food, this`score, this`highScore
    {
      Play(snake, food, score, highScore)
    }

    /** The board invariant the tick keeps. */
    ghost predicate BoardValid()
      reads this`snake, this`food, this`score, this`highScore
    {
      SpawnFits(rows, cols) && Consistent(rows, cols, Current())
    }

    /** The display invariant the clock keeps: `time` is the text of `clock`. */
    ghost predicate ClockValid()
      reads this`time, this`clock
    {
      clock.secs < 60 && time == Clock.Text(clock)
    }

    ghost predicate Valid()
      reads this
    {
      BoardValid() && ClockValid()
    }

    /** The page as loaded: spawn cell, heading down, score 0, "00:00", timers not
        yet started; the best score is the one stored by earlier sessions. */
    constructor (rows: int, cols: int, storedHighScore: nat, firstFood: Cell)
      requires SpawnFits(rows, cols) && InGrid(rows, cols, firstFood)
      ensures Valid()
      ensures this.rows == rows && this.cols == cols
      ensures snake == [Spawn] && food == firstFood && direction == Down
      ensures score == 0 && highScore == storedHighScore && time == "00:00" && !running
      ensures Current() == Fresh(firstFood, storedHighScore)
    {
      this.rows, this.cols := rows, cols;
      snake := [Spawn];
      food := firstFood;
      direction := Down;
      highScore := storedHighScore;
      score := 0;
      time := "00:00";
      clock := Clock.Clock(0, 0);
      running := false;
      new;
      FreshConsistent(rows, cols, firstFood, storedHighScore);
      Clock.ZeroText();
    }

    /** The start button: both timers begin; the game state is left as it is. */
    method Start()
      modifies this`running
      ensures running
    {
      running := true;
    }

    /** One tick of the movement timer. A head off the board stops the timers and
        changes nothing else; otherwise the body, food, score and best score move
        on as `Advance` says. */
    method Tick(newFood: Cell) returns (collided: bool)
      requires BoardValid() && InGrid(rows, cols, newFood)
      modifies this`snake, this`food, this`score, this`highScore, this`running
      ensures BoardValid()
      ensures var out := Advance(rows, cols, old(Current()), old(direction), newFood);
        && collided == out.Collided?
        && (collided ==> Current() == old(Current()) && !running)
        && (!collided ==> Current() == out.next && running == old(running))
    {
      var head := Step(snake[0], direction);
      if head.x < 0 || head.x >= rows || head.y < 0 || head.y >= cols {
        running := false;
        return true;
      }
      collided := false;
      ghost var before := Current();
      ghost var out := Advance(rows, cols, before, direction, newFood);
      AdvanceKeepsConsistent(rows, cols, before, direction, newFood);
      assert out.Moved? && Consistent(rows, cols, out.next);
      ghost var grown := if head == food then [head] + snake else snake;
      if head == food {
        food := newFood;
        snake := [head] + snake;
        score := score + 1;
        if score > highScore {
          highScore := score;
        }
      }
      assert snake == grown;
      snake := [head] + snake;
      snake := snake[..|snake| - 1];
      assert Current() == out.next;
      assert Consistent(rows, cols, Current());
    }

    /** The restart button: spawn cell, heading down, fresh food, score 0 and
        "00:00"; the best score stays and the timers run again. */
    method Restart(newFood: Cell)
      requires SpawnFits(rows, cols) && InGrid(rows, cols, newFood)
      modifies this
      ensures Valid()
      ensures direction == Down && snake == [Spawn] && food == newFood
      ensures score == 0 && time == "00:00" && running
      ensures highScore == old(highScore)
      ensures Current() == Fresh(newFood, old(highScore))
    {
      direction := Down;
      snake := [Spawn];
      food := newFood;
      running := true;
      score := 0;
      time := "00:00";
      clock := Clock.Clock(0, 0);
      FreshConsistent(rows, cols, newFood, highScore);
      Clock.ZeroText();
    }

    /** A key press: an arrow key sets the direction, any other key is ignored. */
    method KeyDown(key: string)
      modifies this`direction
      ensures direction == Controls.DirectionForKey(key, old(direction))
    {
      if key == "ArrowLeft" {
        direction := Left;
      } else if key == "ArrowRight" {
        direction := Right;
      } else if key == "ArrowUp" {
        direction := Up;
      } else if key == "ArrowDown" {
        direction := Down;
      }
    }

    /** One tick of the clock timer: the displayed time is read back, advanced by
        one second and written out again. */
    method AdvanceClock()
      requires ClockValid()
      modifies this`time, this`clock
      ensures ClockValid()
      ensures Clock.Parse(old(time)) == Clock.Some(old(clock))
      ensures clock == Clock.Next(old(clock)) && Clock.Parse(time) == Clock.Some(clock)
      ensures Clock.Seconds(clock) == Clock.Seconds(old(clock)) + 1
    {
      Clock.TextRoundTrip(clock);
      var c := Clock.Parse(time).value;
      time := Clock.Text(Clock.Next(c));
      clock := Clock.Next(clock);
      Clock.TextRoundTrip(clock);
    }
  }
}
