/** The tick engine: one move of the snake as a function of the game's values,
    and a run of ticks that ends at the first collision with the border. */
module Engine {
  import opened Grid

  /** What a tick reads and writes: the body (head first), the food cell,
      the score and the best score. */
  datatype Play = Play(snake: seq<Cell>, food: Cell, score: nat, highScore: nat)

  /** A tick either runs into the border, leaving everything as it was, or moves on. */
  datatype Outcome = Collided | Moved(next: Play)

  /** The inputs of one tick: the direction in force and the cell the food
      jumps to if it is eaten. */
  datatype TickInput = TickInput(direction: Direction, newFood: Cell)

  function Max(a: int, b: int): int {
    if a < b then b else a
  }

  /** One tick in direction `d`. The new head is one step from the old one; off
      the board the tick collides. On the food the head is prepended, the food moves
      to `newFood` and the score and best score go up; then, on every tick that moves,
      the head is prepended and the last segment dropped, so an eating tick leaves
      the head twice at the front. */
  function Advance(rows: int, cols: int, p: Play, d: Direction, newFood: Cell): (r: Outcome)
    requires |p.snake| > 0
    ensures var head, n := Step(p.snake[0], d), |p.snake|;
      && (r.Collided? <==> !InGrid(rows, cols, head))
      && (r.Moved? && head != p.food ==>
            r.next == Play([head] + p.snake[..n - 1], p.food, p.score, p.highScore))
      && (r.Moved? && head == p.food ==>
            && |r.next.snake| == n + 1
            && r.next.snake[0] == head && r.next.snake[1] == head
            && r.next.snake[2..] == p.snake[..n - 1]
            && r.next.food == newFood
            && r.next.score == p.score + 1
            && r.next.highScore == Max(p.highScore, r.next.score))
  {
    var head := Step(p.snake[0], d);
    if !InGrid(rows, cols, head) then Collided
    else
      var eaten := head == p.food;
      var grown := if eaten then [head] + p.snake else p.snake;
      var score := if eaten then p.score + 1 else p.score;
      var highScore := if eaten && score > p.highScore then score else p.highScore;
      var food := if eaten then newFood else p.food;
      var moved := [head] + grown;
      Moved(Play(moved[..|moved| - 1], food, score, highScore))
  }

  /** What holds of every reachable game: the body has one segment more than the
      score, the best score is at least the score, and body and food are on the board. */
  ghost predicate Consistent(rows: int, cols: int, p: Play) {
    && |p.snake| == p.score + 1
    && p.score <= p.highScore
    && (forall i :: 0 <= i < |p.snake| ==> InGrid(rows, cols, p.snake[i]))
    && InGrid(rows, cols, p.food)
  }

  /** The state a restart produces: the spawn cell, the given food, score 0. */
  function Fresh(food: Cell, highScore: nat): (p: Play)
    ensures p.snake == [Spawn] && p.food == food && p.score == 0 && p.highScore == highScore
    ensures |p.snake| == p.score + 1
  {
    Play([Spawn], food, 0, highScore)
  }

  lemma FreshConsistent(rows: int, cols: int, food: Cell, highScore: nat)
    requires SpawnFits(rows, cols) && InGrid(rows, cols, food)
    ensures Consistent(rows, cols, Fresh(food, highScore))
  {
    SpawnInGrid(rows, cols);
  }

  /** A tick keeps a consistent game consistent when the new food is on the board. */
  lemma AdvanceKeepsConsistent(rows: int, cols: int, p: Play, d: Direction, newFood: Cell)
    requires Consistent(rows, cols, p) && InGrid(rows, cols, newFood)
    ensures Advance(rows, cols, p, d, newFood).Moved? ==>
              Consistent(rows, cols, Advance(rows, cols, p, d, newFood).next)
  {
    var r := Advance(rows, cols, p, d, newFood);
    if r.Moved? {
      var head, n, s := Step(p.snake[0], d), |p.snake|, r.next.snake;
      forall i | 0 <= i < |s| ensures InGrid(rows, cols, s[i]) {
        if head == p.food {
          if i >= 2 { assert s[i] == s[2..][i - 2] == p.snake[i - 2]; }
        } else if i >= 1 {
          assert s[i] == p.snake[i - 1];
        }
      }
    }
  }

  /** The cells an eating tick covers are the new head and the old body without
      its last segment: the old tail cell is released on the tick that grows the
      snake, and the growth shows only as a second copy of the head. */
  lemma EatingTickCells(rows: int, cols: int, p: Play, d: Direction, newFood: Cell, c: Cell)
    requires |p.snake| > 0 && Step(p.snake[0], d) == p.food
    requires Advance(rows, cols, p, d, newFood).Moved?
    ensures c in Advance(rows, cols, p, d, newFood).next.snake <==>
              c == p.food || c in p.snake[..|p.snake| - 1]
  {
    var s := Advance(rows, cols, p, d, newFood).next.snake;
    assert s == [p.food, p.food] + p.snake[..|p.snake| - 1];
  }

  /** When the best score covers the score, after a tick that moves it is the
      larger of the old best score and the new score. */
  lemma AdvanceHighScore(rows: int, cols: int, p: Play, d: Direction, newFood: Cell)
    requires |p.snake| > 0 && p.score <= p.highScore
    ensures var r := Advance(rows, cols, p, d, newFood);
      r.Moved? ==> r.next.highScore == Max(p.highScore, r.next.score) && r.next.highScore >= p.highScore
  {
  }

  /** Moving into the cell right behind the head, by reversing, is not a collision:
      only the border ends the game. */
  lemma ReversalIsNotACollision(rows: int, cols: int, p: Play, d: Direction, newFood: Cell)
    requires Consistent(rows, cols, p) && |p.snake| >= 2
    requires Step(p.snake[0], d) == p.snake[1]
    ensures Advance(rows, cols, p, d, newFood).Moved?
  {
    assert InGrid(rows, cols, p.snake[1]);
  }

  /** The game driven by a sequence of ticks, stopping at the first collision. */
  function Run(rows: int, cols: int, p: Play, inputs: seq<TickInput>): (r: Play)
    requires |p.snake| > 0
    ensures |r.snake| >= |p.snake| && r.score >= p.score
    decreases |inputs|
  {
    if inputs == [] then p
    else match Advance(rows, cols, p, inputs[0].direction, inputs[0].newFood)
      case Collided => p
      case Moved(q) => Run(rows, cols, q, inputs[1..])
  }

  /** Every food cell offered is on the board. */
  ghost predicate FoodOnBoard(rows: int, cols: int, inputs: seq<TickInput>) {
    forall i :: 0 <= i < |inputs| ==> InGrid(rows, cols, inputs[i].newFood)
  }

  /** However many ticks run, the game stays consistent. */
  lemma {:induction false} RunKeepsConsistent(rows: int, cols: int, p: Play, inputs: seq<TickInput>)
    requires Consistent(rows, cols, p) && FoodOnBoard(rows, cols, inputs)
    ensures Consistent(rows, cols, Run(rows, cols, p, inputs))
    decreases |inputs|
  {
    if inputs != [] {
      var i := inputs[0];
      AdvanceKeepsConsistent(rows, cols, p, i.direction, i.newFood);
      var r := Advance(rows, cols, p, i.direction, i.newFood);
      if r.Moved? {
        RunKeepsConsistent(rows, cols, r.next, inputs[1..]);
      }
    }
  }

  /** Over any run the body grows by exactly the points scored: one segment per food eaten. */
  lemma {:induction false} RunGrowthIsScore(rows: int, cols: int, p: Play, inputs: seq<TickInput>)
    requires |p.snake| > 0
    ensures |Run(rows, cols, p, inputs).snake| - |p.snake| == Run(rows, cols, p, inputs).score - p.score
    decreases |inputs|
  {
    if inputs != [] {
      var r := Advance(rows, cols, p, inputs[0].direction, inputs[0].newFood);
      if r.Moved? {
        RunGrowthIsScore(rows, cols, r.next, inputs[1..]);
      }
    }
  }

  /** Starting from a best score that covers the score, over any run the best
      score is the larger of the best score before it and the final score: it
      never decreases and it always covers the score. */
  lemma {:induction false} RunHighScore(rows: int, cols: int, p: Play, inputs: seq<TickInput>)
    requires |p.snake| > 0 && p.score <= p.highScore
    ensures Run(rows, cols, p, inputs).highScore == Max(p.highScore, Run(rows, cols, p, inputs).score)
    decreases |inputs|
  {
    if inputs != [] {
      var r := Advance(rows, cols, p, inputs[0].direction, inputs[0].newFood);
      if r.Moved? {
        RunHighScore(rows, cols, r.next, inputs[1..]);
      }
    }
  }

  /** On a 5 by 5 board with the food three cells below the spawn cell, three
      ticks downwards eat it: score 1, a body of two cells both at the food's cell,
      and the food moved to the cell offered on the third tick. */
  lemma FirstMeal(f1: Cell, f2: Cell, f3: Cell)
    ensures var r := Run(5, 5, Fresh(Cell(4, 3), 0),
                         [TickInput(Down, f1), TickInput(Down, f2), TickInput(Down, f3)]);
      r.score == 1 && r.snake == [Cell(4, 3), Cell(4, 3)] && r.food == f3 && r.highScore == 1
  {
    var inputs := [TickInput(Down, f1), TickInput(Down, f2), TickInput(Down, f3)];
    var p0 := Fresh(Cell(4, 3), 0);
    var p1 := Play([Cell(2, 3)], Cell(4, 3), 0, 0);
    var p2 := Play([Cell(3, 3)], Cell(4, 3), 0, 0);
    var p3 := Play([Cell(4, 3), Cell(4, 3)], f3, 1, 1);
    assert Advance(5, 5, p0, Down, f1) == Moved(p1);
    assert Advance(5, 5, p1, Down, f2) == Moved(p2);
    assert Advance(5, 5, p2, Down, f3) == Moved(p3);
    assert inputs[1..][1..][1..] == [];
    assert Run(5, 5, p2, inputs[1..][1..]) == p3;
    assert Run(5, 5, p1, inputs[1..]) == p3;
  }

  /** A head at the top row moving up runs into the border. */
  lemma TopBorder(f: Cell, newFood: Cell, score: nat, highScore: nat)
    ensures Advance(5, 5, Play([Cell(0, 2)], f, score, highScore), Up, newFood) == Collided
  {
  }
}
