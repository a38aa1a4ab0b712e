# Snake game engine

This project is a Dafny model of the engine of a browser snake game (`script.js`). A snake moves over a
`rows × cols` grid one cell per tick in the current direction. It grows when its head reaches the food cell,
which then jumps to a new cell. The game ends when the head leaves the grid. Score and best score are kept, and
a `MM:SS` clock counts the elapsed seconds. The page, its timers and its storage are left out; the game state
they drive is kept.

Modules:

- `Grid` (`grid.dfy`): cells (`x` is the row, `y` the column), the four directions, `Step` (one cell in a
  direction), `InGrid`, and the spawn cell `{x:1, y:3}`.
- `Controls` (`controls.dfy`): the keydown mapping from arrow keys to directions.
- `Clock` (`clock.dfy`): the clock as minutes and seconds, `Next` (one second later), and the display text.
  `Text` writes `MM:SS` with `toString` and `padStart(2, "0")`; `Parse` reads it back as `split(":")`
  and `Number` do. The two are proved to round-trip.
- `Engine` (`engine.dfy`): `Advance`, one tick as a function of the values it reads and writes (body, food,
  score, best score). `Consistent` is the invariant every reachable game satisfies: the body has one segment
  more than the score, the best score is at least the score, and body and food are on the board. `Run` is a
  sequence of ticks up to the first collision; lemmas say what ticks and runs preserve.
- `Game` (`game.dfy`): the class `SnakeGame`. Its fields are the page's globals (`snake`, `food`,
  `direction`, `score`, `highScore`, `time`, plus a `running` flag for the timers). Its methods are the
  tick (`render`), the start and restart buttons, the keydown handler and the one-second clock callback.
  `Tick` and `AdvanceClock` do in place what the source does (`unshift`, `unshift`, `pop`; split, add, pad).
  Each of them ensures the new state equals what `Engine.Advance` or `Clock.Next` gives. The class invariant
  has two parts, one kept by the tick (`BoardValid`) and one by the clock (`ClockValid`).

The eating tick follows the code as written. Line 107 prepends the head, and lines 127-128 prepend it again and
drop the last segment. For a body `S` of length `n`, the result is `[head, head] + S[..n-1]`. Its length is
`n + 1`, the head appears twice at the front, and the old tail cell is released (`Engine.EatingTickCells`).
The comment at line 106 says the snake grows by adding the new head "without removing the tail". The comment at
line 126 says the tail is removed unless food was eaten. The model keeps the code's effect.

The model keeps three behaviours of the code that a reader might not expect:

- the start button only starts the timers; it does not reset the state (that state comes from page load);
- the tick does not check that the game is running;
- nothing checks that the spawn cell is on the board. The model requires a board of at least 2 × 4, which is
  exactly when `{1,3}` is on it (`Grid.SpawnInGrid`).

## Model

| member | source | states |
|---|---|---|
| `Grid.Step` | script.js:69-78 | the new head is next to the old one: left decreases the column, right increases it, up decreases the row, down increases it, and each of these happens for exactly that direction |
| `Grid.InGrid` | script.js:81 | a cell is on the board exactly when the collision test of the tick is false for it, and only a board with at least one row and one column has cells on it; the tick's use of it is stated by `Engine.Advance`'s collision clause |
| `Grid.SpawnInGrid` | script.js:30 | the spawn cell {1,3} is on the board exactly when rows ≥ 2 and cols ≥ 4 |
| `Controls.DirectionForKey` | script.js:216-226 | ArrowLeft/Right/Up/Down select left/right/up/down; any other key keeps the current direction |
| `Controls.KeyPressOutcome` | script.js:216-226 | a key press yields direction d exactly when it is d's arrow key, or it is not an arrow key and d was current; so reversing is never refused |
| `Clock.Next` | script.js:147-152 | elapsed seconds grow by exactly one; with seconds below 60 the result is the canonical clock of that many seconds (59 carries into the next minute as 0) |
| `Clock.Decimal` | script.js:154-156 | the decimal text of a number (`toString`) is nonempty and all digits, a single digit exactly below 10, without a leading zero from 10 on, and at most two digits below 100 |
| `Clock.PadTwo` | script.js:154-156 | padding yields at least two characters, the original text as suffix, and only '0' before it |
| `Clock.Text` | script.js:154-156 | the display text of a clock contains the ':' separator; its meaning is carried by `Clock.TextRoundTrip` and `Clock.TextShape` |
| `Clock.TextShape` | script.js:154-156 | below 100 minutes and 60 seconds the display is exactly `MM:SS`: five characters, digits around a ':' at index 2 |
| `Clock.Parse` | script.js:146 | `split(":").map(Number)` yields a clock only when the text has a ':' with digits before it, and never from text of digits alone; `Clock.ParseFields` and `Clock.TextRoundTrip` state what it reads |
| `Clock.ColonIndex` | script.js:146 | the index of the first ':' of the text, or its length when there is none |
| `Clock.DecimalValueOfDecimal` | script.js:154-156 | reading back a number's decimal text gives the number |
| `Clock.PadTwoValue` | script.js:146-156 | a zero-padded digit text reads back as the same number |
| `Clock.ParseFields` | script.js:146 | two digit fields joined by ':' read back as their two values |
| `Clock.TextRoundTrip` | script.js:146-156 | reading back the text the clock writes gives the same minutes and seconds |
| `Clock.ZeroText` | script.js:209 | the zero clock is written "00:00" |
| `Clock.Parse059` | script.js:146 | the text "00:59" reads as 0 minutes 59 seconds |
| `Clock.MinuteCarry` | script.js:146-156 | "00:59" reads as 0:59 and the next second is written "01:00" |
| `Engine.Advance` | script.js:63-135 | a tick collides iff the new head is off the board; otherwise a non-eating tick gives `[head] + S[..n-1]` with food, score and best score unchanged, and an eating tick gives length n+1, head at indexes 0 and 1, `S[..n-1]` after them, the supplied food, score +1 and best score = max(old best, score) |
| `Engine.Fresh` | script.js:180-185 | the restart state is the body [{1,3}], the given food, score 0 and the kept best score, so the body is one longer than the score; the constructor and `Restart` of `Game.SnakeGame` produce exactly this state |
| `Engine.FreshConsistent` | script.js:180-185 | the restart state satisfies the game invariant when the board holds the spawn cell and the food is on it |
| `Engine.AdvanceKeepsConsistent` | script.js:81-128 | a tick keeps the invariant: length = score + 1, score ≤ best score, body and food on the board |
| `Engine.EatingTickCells` | script.js:107-128 | an eating tick covers exactly the new head and the old body without its last segment |
| `Engine.AdvanceHighScore` | script.js:110-117 | after a tick the best score is max(old best score, score) and never decreases |
| `Engine.ReversalIsNotACollision` | script.js:80-90 | moving into the cell behind the head is no collision: only the border ends the game |
| `Engine.Run` | script.js:140-142 | repeated ticks never shorten the body or lower the score |
| `Engine.RunKeepsConsistent` | script.js:140-142 | any number of ticks keeps the game invariant |
| `Engine.RunGrowthIsScore` | script.js:107-110 | over any run the body grows by exactly the points scored |
| `Engine.RunHighScore` | script.js:110-117 | over any run the best score ends as max(best score before, final score) |
| `Engine.FirstMeal` | script.js:93-111 | on a 5 × 5 board with food at {4,3}, three ticks down from spawn give score 1 and body [{4,3},{4,3}] |
| `Engine.TopBorder` | script.js:81-90 | a head at {0,2} moving up on a 5 × 5 board collides |
| `Game.SnakeGame.constructor` | script.js:30-44 | the page starts with the spawn body, heading down, score 0, "00:00", the stored best score, timers stopped; its game values are `Engine.Fresh` of the first food and stored best score |
| `Game.SnakeGame.Start` | script.js:138-142 | the start button starts the timers and changes nothing else |
| `Game.SnakeGame.Tick` | script.js:63-135 | a collision stops the timers and changes nothing else; otherwise the state becomes what `Engine.Advance` gives; the board invariant is kept |
| `Game.SnakeGame.Restart` | script.js:166-213 | from any state on a board holding the spawn cell: direction down, body [{1,3}], the new food, score 0, "00:00", best score unchanged, timers running; its game values are `Engine.Fresh` of the new food and old best score |
| `Game.SnakeGame.KeyDown` | script.js:216-226 | the direction becomes `DirectionForKey(key, old direction)` |
| `Game.SnakeGame.AdvanceClock` | script.js:145-159 | the displayed time reads back as the clock, becomes the text of one second later, and elapsed seconds grow by one |

## Left out

- Page work is not modelled: the cell elements built at lines 50-60, the `food` and `fill` classes, the modals
  and the text updates. They only display state.
- `setInterval`/`clearInterval` are not modelled. They appear only as the `running` flag, which the start and
  restart buttons set and a collision clears. The 300 ms and 1000 ms periods are not modelled, and neither is
  the interleaving of the two callbacks (each method runs to completion).
- Game.SnakeGame.Start: does not model a second click starting a second pair of timers. The button is hidden
  while the game runs.
- `localStorage` is not modelled. The best score is a natural number given to the constructor. Reading it back
  as a string, and comparing that string with a number, is not modelled.
- `Math.random` food placement is not modelled. The new food cell is a parameter, and it must be on the board.
  `Math.floor(Math.random() * rows)` always lands there.
- The board size derived from pixel sizes (lines 10-11) is not modelled. `rows` and `cols` are given
  integers, and the board must hold the spawn cell.
- The direction is a string in the source and an enumeration here. The source only ever stores one of the four
  names, so the `null` head that any other value would give cannot occur.
- Clock.Parse: only fields of decimal digits are read, as `Number` reads them; the empty field reads as 0.
  Any other text gives `None`. In the source, `Number` reads such a field as `NaN` or as a number (`" 5"`,
  `"+5"`, `"0x10"`), and text without ':' leaves the seconds `undefined`. The displayed time is always text the
  clock wrote, so this case does not arise.
- Game.SnakeGame.Tick: does not require the game to be running, because the source only calls `render` from
  the movement timer and does not check either.
