/** The tick simulation of EnhancedSnakeGame.java: a snake on a 20 by 20
    board, head first, that moves one cell per tick, dies on a wall or on
    itself, and grows, scores and speeds up when it eats. The Swing timer
    becomes the `delay` field and one call of `Tick` per timer event; the
    random generator becomes the stream of cells it would draw. */
module Snake {
  import opened Grid

  const WIDTH := 20
  const HEIGHT := 20
  const INITIAL_DELAY := 150
  /** Literals of `moveSnake`: score per food, delay floor and decrement. */
  const FOOD_SCORE := 10
  const MIN_DELAY := 50
  const DELAY_STEP := 5

  /** The four values the `direction` string ever holds. */
  datatype Direction = Up | Down | Left | Right

  /** The arrow keys `keyPressed` reacts to; every other key is `OtherKey`. */
  datatype Key = UpKey | DownKey | LeftKey | RightKey | OtherKey

  function Max(a: int, b: int): int
  {
    if a < b then b else a
  }

  function Opposite(d: Direction): Direction
  {
    match d
    case Up => Down
    case Down => Up
    case Left => Right
    case Right => Left
  }

  function KeyDirection(k: Key): Direction
    requires k != OtherKey
  {
    match k
    case UpKey => Up
    case DownKey => Down
    case LeftKey => Left
    case RightKey => Right
  }

  /** `keyPressed`: four guarded assignments in a row, each refusing the
      direction opposite to the current one. The result is never the
      opposite of the direction before the key, an arrow key otherwise
      takes effect, and any other key changes nothing. */
  function Steer(d: Direction, k: Key): (r: Direction)
    ensures r != Opposite(d)
    ensures k == OtherKey ==> r == d
    ensures k != OtherKey ==> r == (if KeyDirection(k) == Opposite(d) then d else KeyDirection(k))
  {
    var d1 := if k == UpKey && d != Down then Up else d;
    var d2 := if k == DownKey && d1 != Up then Down else d1;
    var d3 := if k == LeftKey && d2 != Right then Left else d2;
    if k == RightKey && d3 != Left then Right else d3
  }

  /** The guard only looks at the current direction: two arrow keys between
      ticks turn the snake right round. */
  lemma TwoKeysReverse()
    ensures Steer(Steer(Right, UpKey), LeftKey) == Opposite(Right)
  {
  }

  predicate InGrid(p: Point)
  {
    InBlock(p, WIDTH, HEIGHT)
  }

  /** The `switch` of `moveSnake`: the cell next to `head` in direction `d`.
      Stepping back the opposite way returns to `head`. */
  function NextHead(head: Point, d: Direction): (p: Point)
    ensures p != head && (p.x == head.x || p.y == head.y)
    ensures -1 <= p.x - head.x <= 1 && -1 <= p.y - head.y <= 1
  {
    match d
    case Up => Point(head.x, head.y - 1)
    case Down => Point(head.x, head.y + 1)
    case Left => Point(head.x - 1, head.y)
    case Right => Point(head.x + 1, head.y)
  }

  lemma {:induction false} NextHeadUndo(head: Point, d: Direction)
    ensures NextHead(NextHead(head, d), Opposite(d)) == head
  {
    match d
    case Up =>
    case Down =>
    case Left =>
    case Right =>
  }

  /** `moveSnake`'s collision test: off the board, or onto any current
      segment, the tail cell that is about to move away included. */
  predicate Blocked(body: seq<Point>, p: Point)
  {
    !InGrid(p) || p in body
  }

  /** A snake: at least one segment, all on the board, none twice. */
  predicate WellFormed(body: seq<Point>)
  {
    |body| >= 1 && Distinct(body) && forall p :: p in body ==> InGrid(p)
  }

  /** The timer delay that goes with a score. */
  function DelayFor(score: int): int
  {
    Max(MIN_DELAY, INITIAL_DELAY - score / 2)
  }

  /** Eating raises the score by exactly 10 and takes the delay to
      `max(50, delay - 5)`, which is the delay for the new score: never
      below 50 and never up. */
  lemma EatingSpeedsUp(score: int)
    requires score >= 0 && score % FOOD_SCORE == 0
    ensures Max(MIN_DELAY, DelayFor(score) - DELAY_STEP) == DelayFor(score + FOOD_SCORE)
    ensures MIN_DELAY <= DelayFor(score + FOOD_SCORE) <= DelayFor(score)
  {
    var m := score / FOOD_SCORE;
    assert score == FOOD_SCORE * m;
    assert (score + FOOD_SCORE) / 2 == 5 * m + 5;
  }

  /** A move that does not eat: new head in front, tail cell dropped. It
      keeps the snake well-formed, its length, and the food off it. */
  lemma SlideKeepsShape(body: seq<Point>, next: Point, food: Point)
    requires WellFormed(body) && !Blocked(body, next)
    requires food !in body && food != next
    ensures WellFormed([next] + body[..|body| - 1])
    ensures |[next] + body[..|body| - 1]| == |body|
    ensures food !in [next] + body[..|body| - 1]
  {
    var moved := [next] + body[..|body| - 1];
    forall i, j | 0 <= i < j < |moved|
      ensures moved[i] != moved[j]
    {
      if i > 0 {
        assert moved[i] == body[i - 1] && moved[j] == body[j - 1];
      } else {
        assert moved[j] == body[j - 1];
      }
    }
  }

  /** A move that eats: new head in front, nothing dropped. It keeps the
      snake well-formed and makes it one segment longer. */
  lemma GrowKeepsShape(body: seq<Point>, next: Point)
    requires WellFormed(body) && !Blocked(body, next)
    ensures WellFormed([next] + body)
    ensures |[next] + body| == |body| + 1
  {
    var grown := [next] + body;
    forall i, j | 0 <= i < j < |grown|
      ensures grown[i] != grown[j]
    {
      if i > 0 {
        assert grown[i] == body[i - 1] && grown[j] == body[j - 1];
      } else {
        assert grown[j] == body[j - 1];
      }
    }
  }

  /** The cells one `spawnFood` call draws, `(random.nextInt(20),
      random.nextInt(20))` for the k-th pass of its loop: every draw is on
      the board, and every cell of the board is drawn sooner or later. */
  ghost predicate Draws(draw: nat -> Point)
  {
    (forall k: nat :: InGrid(draw(k))) &&
    (forall p :: InGrid(p) ==> exists k: nat :: draw(k) == p)
  }

  class Game {
    var snake: seq<Point>
    var food: Point
    var score: int
    var delay: int
    var direction: Direction
    var running: bool
    /** `spawnFood` was called with no free cell: its loop never ends, so
        the event thread never comes back to process another tick. */
    var stalled: bool

    /** The snake is well-formed, the food is on the board and off the snake
        (unless the board filled up and `spawnFood` is stuck), and the
        length and the delay are determined by the score. */
    ghost predicate Valid()
      reads this
    {
      WellFormed(snake) && InGrid(food) && (stalled || food !in snake) &&
      score >= 0 && score % FOOD_SCORE == 0 && |snake| == 1 + score / FOOD_SCORE &&
      delay == DelayFor(score) &&
      (stalled ==> |snake| == WIDTH * HEIGHT)
    }

    /** Field initialisers and `startGame`. */
    constructor (draw: nat -> Point)
      requires Draws(draw)
      ensures Valid()
      ensures snake == [Point(10, 10)] && score == 0 && delay == 150
      ensures direction == Right && running && !stalled
      ensures exists k: nat :: draw(k) == food && forall j :: 0 <= j < k ==> draw(j) in snake
    {
      snake := [Point(WIDTH / 2, HEIGHT / 2)];
      score := 0;
      delay := INITIAL_DELAY;
      direction := Right;
      running := true;
      stalled := false;
      food := Point(0, 0);
      new;
      FreeCellExists(snake, WIDTH, HEIGHT);
      SpawnFood(draw);
    }

    /** `spawnFood`: draws cells until one is off the snake. With a free
        cell on the board the food lands on the first free cell drawn;
        with none the loop would spin for ever, recorded as `stalled`. */
    method SpawnFood(draw: nat -> Point)
      modifies this`food, this`stalled
      requires Draws(draw) && WellFormed(snake)
      ensures (exists p :: InGrid(p) && p !in snake) ==>
                stalled == old(stalled) && InGrid(food) && food !in snake &&
                exists k: nat :: draw(k) == food && forall j :: 0 <= j < k ==> draw(j) in snake
      ensures (forall p :: InGrid(p) ==> p in snake) ==> stalled && food == old(food)
    {
      if exists x, y | 0 <= x < WIDTH && 0 <= y < HEIGHT :: Point(x, y) !in snake {
        ghost var x, y :| 0 <= x < WIDTH && 0 <= y < HEIGHT && Point(x, y) !in snake;
        assert InGrid(Point(x, y));
        ghost var n: nat :| draw(n) == Point(x, y);
        var k := 0;
        while draw(k) in snake
          invariant k <= n
          invariant forall j :: 0 <= j < k ==> draw(j) in snake
          decreases n - k
        {
          k := k + 1;
        }
        food := draw(k);
      } else {
        stalled := true;
        forall p | InGrid(p)
          ensures p in snake
        {
          assert 0 <= p.x < WIDTH && 0 <= p.y < HEIGHT;
        }
      }
    }

    /** `moveSnake`. */
    method MoveSnake(draw: nat -> Point)
      modifies this`snake, this`food, this`score, this`delay, this`running, this`stalled
      requires Valid() && Draws(draw) && !stalled
      ensures Valid()
      ensures Blocked(old(snake), NextHead(old(snake)[0], direction)) ==>
                !running && snake == old(snake) && food == old(food) &&
                score == old(score) && delay == old(delay) && !stalled
      ensures !Blocked(old(snake), NextHead(old(snake)[0], direction)) ==> running == old(running)
      ensures !Blocked(old(snake), NextHead(old(snake)[0], direction)) &&
              NextHead(old(snake)[0], direction) != old(food) ==>
                snake == [NextHead(old(snake)[0], direction)] + old(snake)[..|old(snake)| - 1] &&
                food == old(food) && score == old(score) && delay == old(delay) && !stalled
      ensures !Blocked(old(snake), NextHead(old(snake)[0], direction)) &&
              NextHead(old(snake)[0], direction) == old(food) ==>
                snake == [old(food)] + old(snake) &&
                score == old(score) + FOOD_SCORE && delay == Max(MIN_DELAY, old(delay) - DELAY_STEP) &&
                (stalled <==> |snake| == WIDTH * HEIGHT) &&
                (!stalled ==> exists k: nat :: draw(k) == food && forall j :: 0 <= j < k ==> draw(j) in snake)
    {
      var head := snake[0];
      var newHead := NextHead(head, direction);
      if newHead.x < 0 || newHead.x >= WIDTH || newHead.y < 0 || newHead.y >= HEIGHT || newHead in snake {
        running := false;
        return;
      }
      ghost var body := snake;
      snake := [newHead] + snake;
      if newHead == food {
        GrowKeepsShape(body, newHead);
        EatingSpeedsUp(score);
        score := score + FOOD_SCORE;
        delay := Max(MIN_DELAY, delay - DELAY_STEP);
        assert |snake| == 1 + score / FOOD_SCORE;
        BodyBound(snake, WIDTH, HEIGHT);
        if |snake| < WIDTH * HEIGHT {
          FreeCellExists(snake, WIDTH, HEIGHT);
        }
        SpawnFood(draw);
      } else {
        SlideKeepsShape(body, newHead, food);
        snake := snake[..|snake| - 1];
        assert snake == [newHead] + body[..|body| - 1];
      }
    }

    /** `actionPerformed`: one move while the game runs; once it is over (or
        stuck in `spawnFood`) a tick changes nothing. A live tick is exactly
        `moveSnake`. */
    method Tick(draw: nat -> Point)
      modifies this`snake, this`food, this`score, this`delay, this`running, this`stalled
      requires Valid() && Draws(draw)
      ensures Valid()
      ensures !old(running) || old(stalled) ==>
                snake == old(snake) && food == old(food) && score == old(score) &&
                delay == old(delay) && running == old(running) && stalled == old(stalled)
      ensures old(running) && !old(stalled) ==>
                (running <==> !Blocked(old(snake), NextHead(old(snake)[0], direction)))
      ensures old(running) && !old(stalled) && Blocked(old(snake), NextHead(old(snake)[0], direction)) ==>
                snake == old(snake) && food == old(food) && score == old(score) &&
                delay == old(delay) && !stalled
      ensures old(running) && !old(stalled) && !Blocked(old(snake), NextHead(old(snake)[0], direction)) &&
              NextHead(old(snake)[0], direction) != old(food) ==>
                snake == [NextHead(old(snake)[0], direction)] + old(snake)[..|old(snake)| - 1] &&
                food == old(food) && score == old(score) && delay == old(delay) && !stalled
      ensures old(running) && !old(stalled) && !Blocked(old(snake), NextHead(old(snake)[0], direction)) &&
              NextHead(old(snake)[0], direction) == old(food) ==>
                snake == [old(food)] + old(snake) &&
                score == old(score) + FOOD_SCORE && delay == Max(MIN_DELAY, old(delay) - DELAY_STEP) &&
                (stalled <==> |snake| == WIDTH * HEIGHT) &&
                (!stalled ==> exists k: nat :: draw(k) == food && forall j :: 0 <= j < k ==> draw(j) in snake)
    {
      if running && !stalled {
        MoveSnake(draw);
      }
    }

    /** `keyPressed`. While `spawnFood` is stuck the event thread never gets
        to another key event, so a stalled game ignores keys. */
    method KeyPressed(key: Key)
      modifies this`direction
      ensures stalled ==> direction == old(direction)
      ensures !stalled ==> direction == Steer(old(direction), key)
    {
      if stalled {
        return;
      }
      if key == UpKey && direction != Down {
        direction := Up;
      }
      if key == DownKey && direction != Up {
        direction := Down;
      }
      if key == LeftKey && direction != Right {
        direction := Left;
      }
      if key == RightKey && direction != Left {
        direction := Right;
      }
    }
  }
}
