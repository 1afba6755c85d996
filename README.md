# Three Swing arcade games, their tick simulations verified in Dafny

The repository holds three single-class Java games. Each is a Swing `JPanel`
driven by a `javax.swing.Timer`, and inside each panel there is a small,
integer-only simulation: the state changes once per timer event and on key
events. This project lifts those simulations out of the UI.

- **Space Invaders** (`space_invaders.dfy`, module `SpaceInvaders`). A player
  slides along the bottom edge and fires bullets that fly up. A 3 by 8
  formation of enemies creeps down. A collision pass removes every bullet and
  enemy that overlap.
- **Snake** (`snake.dfy`, module `Snake`). A snake on a 20 by 20 board moves one
  cell per tick and dies on a wall or on itself. When it eats, it grows, scores
  10 and speeds up.
- **Pac-Man** (`pacman.dfy`, module `PacMan`). Pac-Man moves one 20-pixel tile
  per tick on a 25 by 25 board whose edges wrap around, and eats the pellet on
  the tile it lands on.

Each panel becomes a `class Game`:

- The fields are the panel's fields.
- Each method changes the fields the Java method changes.
- Every method is specified against pure functions.
- The properties the games promise are lemmas about those functions, or
  invariants (`Valid()`) that every method keeps.

Two shared modules support the game modules:

- `seqs.dfy` (module `Seqs`) holds the `ArrayList` operations the games use.
  `removeIf` and `removeAll` become an order-keeping `Filter` and `RemoveAll`.
- `grid.dfy` (module `Grid`) holds the board cells, `java.awt.Point` with
  integer coordinates. It also has the counting facts about them: a `w` by `h`
  board has `w * h` cells, and a pigeonhole lemma.

How the source's effects are represented:

- **Game over and the process exit.** `System.exit` after the dialogs of Space
  Invaders becomes the `outcome` field (`Playing`, `Win`, `Loss`). Once it is
  terminal, a tick changes nothing. Snake's `timer.stop()` is the `running`
  field.
- **Timer.** One call of `Tick` stands for one timer event. The snake's timer
  delay is the `delay` field.
- **Random numbers.** The random cells one `spawnFood` call draws are a
  parameter `draw: nat -> Point`, where `draw(k)` is the cell drawn on pass
  `k`. The predicate `Draws` requires every draw to be on the board and every
  cell to be drawn sooner or later.

## Model

| member | source | states |
|---|---|---|
| Seqs.Filter | SpaceInvaders.java:109 | `removeIf` with the negated test keeps a value iff it occurs and passes the test. What it keeps is a subsequence of the original, so the order is kept, and never longer |
| Seqs.FilterCounts | SpaceInvaders.java:109 | every copy of a kept value survives and every copy of a rejected one goes, so equal bullets are kept or dropped together |
| Seqs.RemoveAll | SpaceInvaders.java:138-139 | `removeAll(c)` keeps a value iff it occurs and equals no member of `c`, in the original order |
| Seqs.RemoveAllCounts | SpaceInvaders.java:138-139 | `removeAll(c)` keeps every copy of a value not in `c` and drops every copy of one in `c` |
| Seqs.FilterKeepsAll | SpaceInvaders.java:109 | filtering leaves the list as it was exactly when no element is rejected |
| Grid.Block | PacManGameSingleFile.java:35-40 | the cells of a `w` by `h` board are exactly the in-bounds points, and there are `w * h` of them |
| Grid.BlockCard | PacManGameSingleFile.java:35-40 | any set holding exactly the board's cells has `w * h` elements |
| Grid.FreeCellExists | EnhancedSnakeGame.java:43-46 | a body of fewer than `w * h` cells leaves a board cell uncovered, so the rejection loop has a cell to stop on |
| Grid.BodyBound | EnhancedSnakeGame.java:43-46 | a duplicate-free body on the board has at most `w * h` cells, and it covers every cell exactly when it has `w * h` |
| SpaceInvaders.IntersectsIffSharedPixel | SpaceInvaders.java:131 | the overlap test `intersects` holds exactly when some pixel lies in both rectangles, and it is symmetric |
| SpaceInvaders.PlayerStep | SpaceInvaders.java:99-106 | the player moves by -5, 0 or +5 only. From a multiple of 5 in [0, 450] it stays a multiple of 5 in [0, 450]. With no key held it stays put, and a single held key moves it unless the player is at that edge |
| SpaceInvaders.UnalignedPlayerEscapes | SpaceInvaders.java:103-104 | the right-edge guard alone would let a player at x = 448 leave [0, 450]; only the step-of-five alignment keeps it inside |
| SpaceInvaders.Shot | SpaceInvaders.java:87 | a new bullet is 5 by 10, at the player's y, and horizontally centred on the player, within the half pixel lost to integer division |
| SpaceInvaders.RaiseAllKeepsOrder | SpaceInvaders.java:110-112 | moving every bullet up keeps the subsequence order |
| SpaceInvaders.AdvanceBulletsSpec | SpaceInvaders.java:108-113 | a bullet survives `updateBullets` (moved up by 10) iff it was on screen before the move. Survivors keep their order, and the count never grows |
| SpaceInvaders.RowOfEnemiesAt | SpaceInvaders.java:60-64 | the inner loop's row holds column `col` at index `col` |
| SpaceInvaders.FormationAt | SpaceInvaders.java:59-65 | the nested loops put enemy (row, col) at index `row * 8 + col`, and `rows` rows hold `rows * 8` enemies |
| SpaceInvaders.FormationIndex | SpaceInvaders.java:59-65 | index `k` of the wave is enemy (k / 8, k % 8) |
| SpaceInvaders.EnemiesApart | SpaceInvaders.java:61-63 | two different slots of the formation are never overlapping enemies |
| SpaceInvaders.InitialWaveLayout | SpaceInvaders.java:53-65 | the starting wave has 24 enemies, each 30 by 30. Enemy (row, col) sits at (50 + 50·col, 50 + 40·row), and no two of them overlap |
| SpaceInvaders.CollisionsResolve | SpaceInvaders.java:125-139 | a bullet is removed iff it overlaps some pre-collision enemy. An enemy is removed iff some pre-collision bullet overlaps it. Survivors keep their order, and no surviving bullet overlaps a surviving enemy |
| SpaceInvaders.OneBulletTwoKills | SpaceInvaders.java:129-136 | a single bullet overlapping two enemies removes both in the same pass, and is itself removed |
| SpaceInvaders.RemovingHitBullets | SpaceInvaders.java:138 | `removeAll` with a removal list holding exactly the bullets that hit something leaves the surviving bullets |
| SpaceInvaders.RemovingHitEnemies | SpaceInvaders.java:139 | `removeAll` with a removal list holding exactly the enemies that were hit leaves the surviving enemies |
| SpaceInvaders.ShapesKept | SpaceInvaders.java:116-117 | moving enemies down, any subset of them, keeps every enemy 30 by 30 |
| SpaceInvaders.Game.constructor | SpaceInvaders.java:53-65 | start state: player at (225, 540), no bullets, no keys held, playing. The enemies are the layout proved in `InitialWaveLayout` |
| SpaceInvaders.Game.KeyPressed | SpaceInvaders.java:71-77 | while playing: left and right set their flag, space appends exactly one new bullet, other keys change nothing. After a win or a loss no key has any effect, since the process has exited |
| SpaceInvaders.Game.KeyReleased | SpaceInvaders.java:79-84 | while playing, left and right clear their own flag only. After the game ends nothing changes |
| SpaceInvaders.Game.ShootBullet | SpaceInvaders.java:86-88 | appends the one bullet `Shot` describes and leaves the existing bullets unchanged |
| SpaceInvaders.Game.UpdatePlayer | SpaceInvaders.java:99-106 | the new x is `PlayerStep` of the old one, so the player stays inside the panel |
| SpaceInvaders.Game.UpdateBullets | SpaceInvaders.java:108-113 | after the in-place loop, the bullets are the on-screen ones of before, each moved up 10, in order |
| SpaceInvaders.Game.UpdateEnemies | SpaceInvaders.java:115-123 | the game is lost iff some enemy passes y = 600 after its step. Without a loss, every enemy moves down exactly 1 with x and size unchanged. With a loss, the enemies up to the first invader have moved and the rest have not |
| SpaceInvaders.Game.CheckCollisions | SpaceInvaders.java:125-145 | the nested scan and the two `removeAll` calls leave exactly the surviving bullets and enemies; the game is won iff no enemy is left |
| SpaceInvaders.Game.Tick | SpaceInvaders.java:91-97 | player, bullets, enemies, collisions, in that order, composed as the four contracts say. On a loss the bullets have advanced, the enemies up to the first invader have moved down and the rest have not, and no collision pass runs. After a win or a loss nothing changes |
| Snake.Steer | EnhancedSnakeGame.java:123-131 | the new direction is never the exact opposite of the direction before the key. An arrow key takes effect unless it is that opposite, and any other key changes nothing |
| Snake.TwoKeysReverse | EnhancedSnakeGame.java:127-130 | two arrow keys between moves (up, then left, while heading right) turn the snake right round; the guard only compares against the current direction |
| Snake.NextHead | EnhancedSnakeGame.java:52-58 | the new head is one of the four cells orthogonally adjacent to the old head |
| Snake.NextHeadUndo | EnhancedSnakeGame.java:52-58 | a step in the opposite direction returns to the old head |
| Snake.EatingSpeedsUp | EnhancedSnakeGame.java:72-73 | after eating, `max(50, delay - 5)` is exactly the delay that goes with the new score, never below 50 and never above the old delay |
| Snake.SlideKeepsShape | EnhancedSnakeGame.java:68-78 | a move without food (head added, tail removed) keeps the body duplicate-free and on the board, keeps its length and keeps the food off it |
| Snake.GrowKeepsShape | EnhancedSnakeGame.java:68-75 | a move onto the food keeps the body duplicate-free and on the board, and makes it one cell longer |
| Snake.Game.constructor | EnhancedSnakeGame.java:30-34 | start state: one segment at (10, 10), score 0, delay 150, heading right, running. The food is the first drawn cell off the snake |
| Snake.Game.SpawnFood | EnhancedSnakeGame.java:40-48 | with a free cell on the board, the food is the first drawn cell not on the snake, so it is on the board and off the body. With no free cell, the loop never ends (`stalled`) |
| Snake.Game.MoveSnake | EnhancedSnakeGame.java:50-79 | blocked by a wall or any body cell (tail included): `running` goes false and nothing else changes. Otherwise, without food the head is added and the tail dropped. With food the snake grows by one, the score rises by 10, the delay becomes `max(50, delay - 5)` and new food is drawn. Every outcome keeps `Valid()`: a distinct, in-bounds body, food off the body, length 1 + score/10, and delay max(50, 150 - score/2) |
| Snake.Game.Tick | EnhancedSnakeGame.java:81-87 | a tick of a stopped or stalled game changes nothing. A running game performs exactly `moveSnake`. It stays running iff the next cell is free. A blocked move changes nothing else, a move without food slides the body, and a move onto the food grows it, scores 10, speeds up and draws new food |
| Snake.Game.KeyPressed | EnhancedSnakeGame.java:123-131 | the new direction is `Steer` of the old one and the key, also after the game is over. A stalled game ignores keys, since its event thread is stuck in `spawnFood` |
| PacMan.Heading | PacManGameSingleFile.java:46-65 | up, down, left and right give exactly (0, -1), (0, 1), (-1, 0) and (1, 0), whatever the old vector was, so reversing is allowed. Any other key keeps the direction |
| PacMan.Step | PacManGameSingleFile.java:74-83 | from a tile corner in [0, 480] with a unit or zero step, the coordinate is again a tile corner. It equals (c + 20·d) mod 500, so the board is a ring. A zero step leaves it in place |
| PacMan.WrapAround | PacManGameSingleFile.java:79-82 | stepping back from 0 lands on 480, and stepping on from 480 lands on 0 |
| PacMan.TileOf | PacManGameSingleFile.java:86-87 | the pellet index of a position on the board is in bounds, and it is exactly the tile whose corner is that position |
| PacMan.Eat | PacManGameSingleFile.java:85-92 | eating removes that tile's pellet and no other. The count drops by one or stays, and an eaten tile leaves the pellets unchanged |
| PacMan.EatTwice | PacManGameSingleFile.java:89-91 | eating the same tile twice is the same as eating it once |
| PacMan.FullGrid | PacManGameSingleFile.java:35-40 | the nested loops leave a fresh 25 by 25 array with a pellet on every tile |
| PacMan.Game.constructor | PacManGameSingleFile.java:29-40 | start state: Pac-Man at (240, 240), standing still, with a pellet on all 625 tiles |
| PacMan.Game.HandleKeyPress | PacManGameSingleFile.java:46-65 | the new direction vector is `Heading` of the key and the old vector |
| PacMan.Game.MovePacMan | PacManGameSingleFile.java:74-83 | each coordinate steps by `Step`, so Pac-Man stays on a tile corner of the board |
| PacMan.Game.CheckPelletCollision | PacManGameSingleFile.java:85-92 | the index is in bounds. That cell is cleared and no other cell changes. On an already cleared cell the array is unchanged. The set of remaining pellets is `Eat` of the old one |
| PacMan.Game.Tick | PacManGameSingleFile.java:67-72 | move, then eat. The pellet count never rises and drops by at most one per tick |

## Left out

- **Rendering and setup.** Painting (`paintComponent` in all three files), image
  loading, window setup and `main` are not modelled. `Timer` creation, `start`,
  `stop` and `setDelay` are not modelled either. None of them affects the
  simulated state.
- Dialogs and `System.exit` are not modelled. Their effect is the terminal
  `outcome` field.
- **Space Invaders loss.** Because the process exits, a loss in
  `updateEnemies` leaves the enemies after the invader unmoved, and
  `checkCollisions` never runs.
- `java.util.Random` is not modelled. `spawnFood` draws from the `draw`
  parameter instead.
- **Fairness of the draws.** `Snake.Game.SpawnFood`, `Snake.Game.MoveSnake`,
  `Snake.Game.Tick` and `Snake.Game.constructor` all assume `Draws`: every cell
  is drawn eventually. This is an assumption about the seeded pseudo-random
  generator and is not proved, so termination of the rejection loop is proved
  only under it.
- **Full Snake board.** When the snake fills all 400 cells, the source's
  `spawnFood` loops forever on the event thread. The model records this as the
  `stalled` field, and a stalled game's `Tick` does nothing.
- **Integer widths.** Java's 32-bit `int` is modelled by unbounded integers.
  - On every reachable state all values stay far from overflow: positions stay
    within a few hundred pixels, and a snake's score stays at most 3990.
  - `Rectangle.intersects` is modelled as true overlap, which is what the JDK
    computes for such values.
  - Java's truncating `/` agrees with Dafny's on the non-negative operands used.
- **Snake coordinates.** The source builds new heads from `head.getX()`, a
  `double`, although `java.awt.Point` has no constructor taking one. The model
  uses the integer `x` that is evidently meant.
- **Snake directions.** `direction` is a string that only ever holds the four
  direction names, so it is a four-value datatype, and the `default` branch of
  the switch in `moveSnake` (`EnhancedSnakeGame.java:57`) cannot be reached.
- **Key codes.** Swing key events become one logical key value per handler.
  Modifier keys, `keyReleased` and `keyTyped` of the snake game, all empty,
  have no effect and are not modelled.
- **Keys after game over.**
  - In Space Invaders a win or a loss shows a modal dialog and exits the
    process, so no key event reaches the panel afterwards. The model's key
    methods therefore do nothing once `outcome` is terminal.
  - A stalled snake game has its event thread stuck in `spawnFood`, so its
    `KeyPressed` does nothing.
  - Snake keys still steer after `running` goes false, as in the source.
- **Pac-Man's delay.** `DELAY` of `PacManGameSingleFile.java` only configures
  the timer, so it is not modelled.
- **Pellet storage.** `pellets` is a Java `boolean[][]`, an array of row arrays
  that could in principle alias. It is modelled as one `array2<bool>`,
  which has no row aliasing.
- **Other source file.** `Space Invaders/EnhancedSpaceInvadersV2.java` is not
  part of this model.
