/** Keyboard input: the arrow keys choose the direction of the next tick. */
module Controls {
  import opened Grid

  /** The keys the game reacts to. */
  predicate IsArrowKey(key: string) {
    key == "ArrowLeft" || key == "ArrowRight" || key == "ArrowUp" || key == "ArrowDown"
  }

  /** The direction after a key press while `current` is the direction.
      Every other key leaves it as it was; a key that reverses the snake is accepted. */
  function DirectionForKey(key: string, current: Direction): (r: Direction)
    ensures key == "ArrowLeft" ==> r == Left
    ensures key == "ArrowRight" ==> r == Right
    ensures key == "ArrowUp" ==> r == Up
    ensures key == "ArrowDown" ==> r == Down
    ensures !IsArrowKey(key) ==> r == current
  {
    if key == "ArrowLeft" then Left
    else if key == "ArrowRight" then Right
    else if key == "ArrowUp" then Up
    else if key == "ArrowDown" then Down
    else current
  }

  /** The key that selects `d`. */
  function KeyFor(d: Direction): (k: string)
    ensures IsArrowKey(k)
  {
    match d
    case Left => "ArrowLeft"
    case Right => "ArrowRight"
    case Up => "ArrowUp"
    case Down => "ArrowDown"
  }

  /** A key press leads to `d` exactly when it is the key for `d`, or when it is
      not an arrow key and `d` was already the direction. In particular the key
      for the opposite of the current direction is never refused. */
  lemma KeyPressOutcome(key: string, current: Direction, d: Direction)
    ensures DirectionForKey(key, current) == d <==> key == KeyFor(d) || (!IsArrowKey(key) && d == current)
  {
  }
}
