/** The tick simulation of SpaceInvaders.java: a player that slides along the
    bottom edge, bullets that fly up, a formation of enemies that creeps down,
    and the collision pass that removes every bullet and every enemy taking
    part in an overlap. Dialogs and `System.exit` become the `outcome` field. */
module SpaceInvaders {
  import opened Seqs

  const PANEL_WIDTH := 500
  const PANEL_HEIGHT := 600
  const PLAYER_WIDTH := 50
  const PLAYER_HEIGHT := 50
  const BULLET_WIDTH := 5
  const BULLET_HEIGHT := 10
  const ENEMY_WIDTH := 30
  const ENEMY_HEIGHT := 30
  const ENEMY_ROWS := 3
  const ENEMY_COLUMNS := 8
  /** Pixels per tick: player step, bullet climb, enemy descent. */
  const PLAYER_STEP := 5
  const BULLET_SPEED := 10
  const ENEMY_SPEED := 1

  /** `java.awt.Rectangle`; its `equals` compares these four values. */
  datatype Rect = Rect(x: int, y: int, width: int, height: int)

  /** Playing, or which dialog was shown before the process exited. */
  datatype Outcome = Playing | Win | Loss

  /** The keys the panel reacts to; every other key code is `OtherKey`. */
  datatype Key = LeftKey | RightKey | SpaceKey | OtherKey

  /** `Rectangle.intersects`: both rectangles are non-empty and their
      interiors overlap; rectangles that only touch do not intersect. */
  predicate Intersects(a: Rect, b: Rect)
  {
    a.width > 0 && a.height > 0 && b.width > 0 && b.height > 0 &&
    a.x < b.x + b.width && b.x < a.x + a.width &&
    a.y < b.y + b.height && b.y < a.y + a.height
  }

  /** Pixel `(px, py)` is one of the pixels `r` covers. */
  predicate Covers(r: Rect, px: int, py: int)
  {
    r.x <= px < r.x + r.width && r.y <= py < r.y + r.height
  }

  /** The box test means what it should: two rectangles intersect exactly
      when some pixel lies in both, so the test is symmetric. */
  lemma IntersectsIffSharedPixel(a: Rect, b: Rect)
    ensures Intersects(a, b) <==> exists px, py :: Covers(a, px, py) && Covers(b, px, py)
    ensures Intersects(a, b) == Intersects(b, a)
  {
    if Intersects(a, b) {
      var px := if a.x < b.x then b.x else a.x;
      var py := if a.y < b.y then b.y else a.y;
      assert Covers(a, px, py) && Covers(b, px, py);
    }
  }

  // ---------------------------------------------------------------- player

  /** `updatePlayer`: a held left key steps left unless at the left edge,
      then a held right key steps right unless the right edge is reached. */
  function PlayerStep(x: int, left: bool, right: bool): (r: int)
    ensures r == x - PLAYER_STEP || r == x || r == x + PLAYER_STEP
    ensures 0 <= x <= PANEL_WIDTH - PLAYER_WIDTH && x % PLAYER_STEP == 0 ==>
              0 <= r <= PANEL_WIDTH - PLAYER_WIDTH && r % PLAYER_STEP == 0
    ensures !left && !right ==> r == x
    ensures left && !right && x > 0 ==> r == x - PLAYER_STEP
    ensures right && !left && x + PLAYER_WIDTH < PANEL_WIDTH ==> r == x + PLAYER_STEP
  {
    var x1 := if left && x > 0 then x - PLAYER_STEP else x;
    if right && x1 + PLAYER_WIDTH < PANEL_WIDTH then x1 + PLAYER_STEP else x1
  }

  /** Without the step-of-five alignment the right-edge guard can let the
      player out of the panel. */
  lemma UnalignedPlayerEscapes()
    ensures PlayerStep(448, false, true) > PANEL_WIDTH - PLAYER_WIDTH
  {
  }

  // --------------------------------------------------------------- bullets

  /** The bullet fired by `shootBullet`, centred on the player's top edge. */
  function Shot(playerX: int, playerY: int): (b: Rect)
    ensures b.width == BULLET_WIDTH && b.height == BULLET_HEIGHT && b.y == playerY
    ensures 0 <= (2 * b.x + b.width) - (2 * playerX + PLAYER_WIDTH) <= 1
  {
    Rect(playerX + PLAYER_WIDTH / 2 - BULLET_WIDTH / 2, playerY, BULLET_WIDTH, BULLET_HEIGHT)
  }

  /** The negation of `updateBullets`' `removeIf` test: the bullet's bottom
      edge has not yet left the top of the panel. */
  predicate OnScreen(b: Rect)
  {
    !(b.y + BULLET_HEIGHT < 0)
  }

  function Raise(b: Rect): Rect
  {
    b.(y := b.y - BULLET_SPEED)
  }

  function RaiseAll(bs: seq<Rect>): seq<Rect>
  {
    seq(|bs|, i requires 0 <= i < |bs| => Raise(bs[i]))
  }

  /** What `updateBullets` leaves: the on-screen bullets, each moved up. */
  function AdvanceBullets(bs: seq<Rect>): seq<Rect>
  {
    RaiseAll(Filter(bs, OnScreen))
  }

  lemma {:induction false} RaiseAllKeepsOrder(t: seq<Rect>, s: seq<Rect>)
    requires IsSubsequence(t, s)
    ensures IsSubsequence(RaiseAll(t), RaiseAll(s))
    decreases |s|
  {
    if t != [] {
      assert RaiseAll(s)[1..] == RaiseAll(s[1..]);
      if t[0] == s[0] && IsSubsequence(t[1..], s[1..]) {
        RaiseAllKeepsOrder(t[1..], s[1..]);
        assert RaiseAll(t)[1..] == RaiseAll(t[1..]);
      } else {
        RaiseAllKeepsOrder(t, s[1..]);
      }
    }
  }

  /** `updateBullets` removes exactly the bullets that were off screen
      before the move, moves every other one up by `BULLET_SPEED`, keeps
      their order and never adds a bullet. */
  lemma AdvanceBulletsSpec(bs: seq<Rect>)
    ensures |AdvanceBullets(bs)| <= |bs|
    ensures forall b :: Raise(b) in AdvanceBullets(bs) <==> b in bs && OnScreen(b)
    ensures IsSubsequence(AdvanceBullets(bs), RaiseAll(bs))
  {
    var kept := Filter(bs, OnScreen);
    RaiseAllKeepsOrder(kept, bs);
    forall b
      ensures Raise(b) in AdvanceBullets(bs) <==> b in bs && OnScreen(b)
    {
      if Raise(b) in RaiseAll(kept) {
        var i :| 0 <= i < |kept| && RaiseAll(kept)[i] == Raise(b);
        assert kept[i] == b;
      }
      if b in kept {
        var i :| 0 <= i < |kept| && kept[i] == b;
        assert RaiseAll(kept)[i] == Raise(b);
      }
    }
  }

  // --------------------------------------------------------------- enemies

  function Lower(e: Rect): Rect
  {
    e.(y := e.y + ENEMY_SPEED)
  }

  function LowerAll(es: seq<Rect>): seq<Rect>
  {
    seq(|es|, i requires 0 <= i < |es| => Lower(es[i]))
  }

  /** After its step down the enemy's top edge is below the panel. */
  predicate Invades(e: Rect)
  {
    Lower(e).y > PANEL_HEIGHT
  }

  /** Enemy `(row, col)` of the starting formation. */
  function EnemyAt(row: int, col: int): Rect
  {
    Rect(50 + col * (ENEMY_WIDTH + 20), 50 + row * (ENEMY_HEIGHT + 10), ENEMY_WIDTH, ENEMY_HEIGHT)
  }

  /** Columns `0 .. cols - 1` of formation row `row`, left to right. */
  function RowOfEnemies(row: int, cols: nat): seq<Rect>
  {
    if cols == 0 then [] else RowOfEnemies(row, cols - 1) + [EnemyAt(row, cols - 1)]
  }

  /** Rows `0 .. rows - 1` of the formation, top row first. */
  function Formation(rows: nat): seq<Rect>
  {
    if rows == 0 then [] else Formation(rows - 1) + RowOfEnemies(rows - 1, ENEMY_COLUMNS)
  }

  lemma {:induction false} RowOfEnemiesAt(row: int, cols: nat, col: int)
    requires 0 <= col < cols
    ensures |RowOfEnemies(row, cols)| == cols && RowOfEnemies(row, cols)[col] == EnemyAt(row, col)
  {
    if col < cols - 1 {
      RowOfEnemiesAt(row, cols - 1, col);
    } else if cols > 1 {
      RowOfEnemiesAt(row, cols - 1, 0);
    }
  }

  lemma {:induction false} FormationAt(rows: nat, row: int, col: int)
    requires 0 <= row < rows && 0 <= col < ENEMY_COLUMNS
    ensures |Formation(rows)| == rows * ENEMY_COLUMNS
    ensures Formation(rows)[row * ENEMY_COLUMNS + col] == EnemyAt(row, col)
  {
    RowOfEnemiesAt(rows - 1, ENEMY_COLUMNS, col);
    if rows > 1 {
      FormationAt(rows - 1, if row < rows - 1 then row else 0, col);
    }
  }

  lemma FormationIndex(k: int)
    requires 0 <= k < ENEMY_ROWS * ENEMY_COLUMNS
    ensures |Formation(ENEMY_ROWS)| == ENEMY_ROWS * ENEMY_COLUMNS
    ensures Formation(ENEMY_ROWS)[k] == EnemyAt(k / ENEMY_COLUMNS, k % ENEMY_COLUMNS)
  {
    var row, col := k / ENEMY_COLUMNS, k % ENEMY_COLUMNS;
    assert k == row * ENEMY_COLUMNS + col;
    FormationAt(ENEMY_ROWS, row, col);
  }

  /** Formation slots 50 pixels apart horizontally and 40 vertically never
      overlap 30 by 30 enemies. */
  lemma EnemiesApart(r1: int, c1: int, r2: int, c2: int)
    requires r1 != r2 || c1 != c2
    ensures !Intersects(EnemyAt(r1, c1), EnemyAt(r2, c2))
  {
    assert EnemyAt(r1, c1).x == 50 + 50 * c1 && EnemyAt(r2, c2).x == 50 + 50 * c2;
    assert EnemyAt(r1, c1).y == 50 + 40 * r1 && EnemyAt(r2, c2).y == 50 + 40 * r2;
    if c1 != c2 {
      assert c1 < c2 ==> 50 * c1 + 30 <= 50 * c2;
      assert c2 < c1 ==> 50 * c2 + 30 <= 50 * c1;
    } else {
      assert r1 < r2 ==> 40 * r1 + 30 <= 40 * r2;
      assert r2 < r1 ==> 40 * r2 + 30 <= 40 * r1;
    }
  }

  /** The wave `initGame` builds: 3 rows of 8 enemies of 30 by 30 pixels,
      enemy `(row, col)` at index `row * 8 + col` and position
      `(50 + 50 * col, 50 + 40 * row)`, none overlapping another. */
  lemma InitialWaveLayout()
    ensures |Formation(ENEMY_ROWS)| == 24
    ensures forall row, col :: 0 <= row < ENEMY_ROWS && 0 <= col < ENEMY_COLUMNS ==>
              Formation(ENEMY_ROWS)[row * ENEMY_COLUMNS + col] ==
              Rect(50 + 50 * col, 50 + 40 * row, ENEMY_WIDTH, ENEMY_HEIGHT)
    ensures forall e :: e in Formation(ENEMY_ROWS) ==> e.width == ENEMY_WIDTH && e.height == ENEMY_HEIGHT
    ensures forall i, j :: 0 <= i < j < |Formation(ENEMY_ROWS)| ==>
              !Intersects(Formation(ENEMY_ROWS)[i], Formation(ENEMY_ROWS)[j])
  {
    var wave := Formation(ENEMY_ROWS);
    FormationIndex(0);
    forall row, col | 0 <= row < ENEMY_ROWS && 0 <= col < ENEMY_COLUMNS
      ensures wave[row * ENEMY_COLUMNS + col] == Rect(50 + 50 * col, 50 + 40 * row, ENEMY_WIDTH, ENEMY_HEIGHT)
    {
      FormationAt(ENEMY_ROWS, row, col);
    }
    forall e | e in wave
      ensures e.width == ENEMY_WIDTH && e.height == ENEMY_HEIGHT
    {
      var k :| 0 <= k < |wave| && wave[k] == e;
      FormationIndex(k);
    }
    forall i, j | 0 <= i < j < |wave|
      ensures !Intersects(wave[i], wave[j])
    {
      FormationIndex(i);
      FormationIndex(j);
      var ri, ci := i / ENEMY_COLUMNS, i % ENEMY_COLUMNS;
      var rj, cj := j / ENEMY_COLUMNS, j % ENEMY_COLUMNS;
      assert i == ri * ENEMY_COLUMNS + ci && j == rj * ENEMY_COLUMNS + cj;
      EnemiesApart(ri, ci, rj, cj);
    }
  }

  // ------------------------------------------------------------ collisions

  predicate HitsSome(b: Rect, es: seq<Rect>)
  {
    exists e :: e in es && Intersects(b, e)
  }

  predicate HitBySome(e: Rect, bs: seq<Rect>)
  {
    exists b :: b in bs && Intersects(b, e)
  }

  /** The bullets `checkCollisions` keeps: those that overlap no enemy. */
  function SurvivingBullets(bs: seq<Rect>, es: seq<Rect>): seq<Rect>
  {
    Filter(bs, b => !HitsSome(b, es))
  }

  /** The enemies `checkCollisions` keeps: those no bullet overlaps. */
  function SurvivingEnemies(es: seq<Rect>, bs: seq<Rect>): seq<Rect>
  {
    Filter(es, e => !HitBySome(e, bs))
  }

  /** Collision resolution against the pre-collision lists: a bullet goes
      iff it overlaps some enemy, an enemy goes iff some bullet overlaps it
      (so one bullet takes out every enemy it touches), survivors keep their
      order, and no surviving bullet overlaps a surviving enemy. */
  lemma CollisionsResolve(bs: seq<Rect>, es: seq<Rect>)
    ensures forall b :: b in SurvivingBullets(bs, es) <==> b in bs && !HitsSome(b, es)
    ensures forall e :: e in SurvivingEnemies(es, bs) <==> e in es && !HitBySome(e, bs)
    ensures IsSubsequence(SurvivingBullets(bs, es), bs) && IsSubsequence(SurvivingEnemies(es, bs), es)
    ensures forall b, e :: b in SurvivingBullets(bs, es) && e in SurvivingEnemies(es, bs) ==> !Intersects(b, e)
  {
  }

  /** One bullet overlapping two enemies removes both in the same tick, and
      is itself removed. */
  lemma OneBulletTwoKills(b: Rect, e0: Rect, e1: Rect)
    requires Intersects(b, e0) && Intersects(b, e1)
    ensures SurvivingEnemies([e0, e1], [b]) == [] && SurvivingBullets([b], [e0, e1]) == []
  {
    var es := [e0, e1];
    assert HitBySome(e0, [b]) && HitBySome(e1, [b]) by { assert b in [b]; }
    assert HitsSome(b, es) by { assert e0 in es; }
    assert [b][1..] == [] && es[1..] == [e1] && [e1][1..] == [];
    assert SurvivingEnemies([e1], [b]) == [];
  }

  lemma {:induction false} RemovingHitBullets(bs: seq<Rect>, c: seq<Rect>, es: seq<Rect>)
    requires forall b :: b in bs ==> (b in c <==> HitsSome(b, es))
    ensures RemoveAll(bs, c) == SurvivingBullets(bs, es)
  {
    if bs != [] {
      RemovingHitBullets(bs[1..], c, es);
    }
  }

  lemma {:induction false} RemovingHitEnemies(es: seq<Rect>, c: seq<Rect>, bs: seq<Rect>)
    requires forall e :: e in es ==> (e in c <==> HitBySome(e, bs))
    ensures RemoveAll(es, c) == SurvivingEnemies(es, bs)
  {
    if es != [] {
      RemovingHitEnemies(es[1..], c, bs);
    }
  }

  // ------------------------------------------------------------ the panel

  class Game {
    var playerX: int
    var playerY: int
    var bullets: seq<Rect>
    var enemies: seq<Rect>
    var moveLeft: bool
    var moveRight: bool
    var outcome: Outcome

    /** The player stays on the step-of-five grid inside the panel, every
        bullet and enemy keeps its size, and an empty wave has ended the game. */
    ghost predicate Valid()
      reads this
    {
      0 <= playerX <= PANEL_WIDTH - PLAYER_WIDTH && playerX % PLAYER_STEP == 0 &&
      playerY == PANEL_HEIGHT - PLAYER_HEIGHT - 10 &&
      (forall b :: b in bullets ==> b.width == BULLET_WIDTH && b.height == BULLET_HEIGHT) &&
      (forall e :: e in enemies ==> e.width == ENEMY_WIDTH && e.height == ENEMY_HEIGHT) &&
      (outcome == Playing ==> enemies != [])
    }

    /** The panel's constructor running `initGame`. */
    constructor ()
      ensures Valid()
      ensures playerX == 225 && playerY == 540
      ensures bullets == [] && enemies == Formation(ENEMY_ROWS)
      ensures !moveLeft && !moveRight && outcome == Playing
    {
      playerX := PANEL_WIDTH / 2 - PLAYER_WIDTH / 2;
      playerY := PANEL_HEIGHT - PLAYER_HEIGHT - 10;
      bullets := [];
      var wave: seq<Rect> := [];
      for row := 0 to ENEMY_ROWS
        invariant wave == Formation(row)
      {
        for col := 0 to ENEMY_COLUMNS
          invariant wave == Formation(row) + RowOfEnemies(row, col)
        {
          var x := 50 + col * (ENEMY_WIDTH + 20);
          var y := 50 + row * (ENEMY_HEIGHT + 10);
          wave := wave + [Rect(x, y, ENEMY_WIDTH, ENEMY_HEIGHT)];
          assert wave == Formation(row) + (RowOfEnemies(row, col) + [EnemyAt(row, col)]);
        }
      }
      enemies := wave;
      moveLeft, moveRight := false, false;
      outcome := Playing;
      new;
      InitialWaveLayout();
    }

    /** `handleKeyPress`. After a win or a loss the process has exited, so
        no key reaches the panel any more. */
    method KeyPressed(key: Key)
      modifies this`moveLeft, this`moveRight, this`bullets
      requires Valid()
      ensures Valid()
      ensures old(outcome) != Playing ==>
                moveLeft == old(moveLeft) && moveRight == old(moveRight) && bullets == old(bullets)
      ensures old(outcome) == Playing ==>
                moveLeft == (key == LeftKey || old(moveLeft)) &&
                moveRight == (key == RightKey || old(moveRight)) &&
                bullets == if key == SpaceKey then old(bullets) + [Shot(playerX, playerY)] else old(bullets)
    {
      if outcome != Playing {
        return;
      }
      match key
      case LeftKey => moveLeft := true;
      case RightKey => moveRight := true;
      case SpaceKey => ShootBullet();
      case OtherKey =>
    }

    /** `handleKeyRelease`; likewise ignored once the game has ended. */
    method KeyReleased(key: Key)
      modifies this`moveLeft, this`moveRight
      ensures old(outcome) != Playing ==> moveLeft == old(moveLeft) && moveRight == old(moveRight)
      ensures old(outcome) == Playing ==>
                moveLeft == (key != LeftKey && old(moveLeft)) &&
                moveRight == (key != RightKey && old(moveRight))
    {
      if outcome != Playing {
        return;
      }
      match key
      case LeftKey => moveLeft := false;
      case RightKey => moveRight := false;
      case _ =>
    }

    /** Appends one bullet and leaves the others as they were. */
    method ShootBullet()
      modifies this`bullets
      requires Valid()
      ensures Valid()
      ensures bullets == old(bullets) + [Shot(playerX, playerY)]
    {
      bullets := bullets + [Rect(playerX + PLAYER_WIDTH / 2 - BULLET_WIDTH / 2, playerY, BULLET_WIDTH, BULLET_HEIGHT)];
    }

    method UpdatePlayer()
      modifies this`playerX
      requires Valid()
      ensures Valid()
      ensures playerX == PlayerStep(old(playerX), moveLeft, moveRight)
    {
      if moveLeft && playerX > 0 {
        playerX := playerX - PLAYER_STEP;
      }
      if moveRight && playerX + PLAYER_WIDTH < PANEL_WIDTH {
        playerX := playerX + PLAYER_STEP;
      }
    }

    method UpdateBullets()
      modifies this`bullets
      requires Valid()
      ensures Valid()
      ensures bullets == AdvanceBullets(old(bullets))
    {
      bullets := Filter(bullets, OnScreen);
      ghost var kept := bullets;
      var i := 0;
      while i < |bullets|
        invariant 0 <= i <= |bullets| == |kept|
        invariant forall k :: 0 <= k < i ==> bullets[k] == Raise(kept[k])
        invariant forall k :: i <= k < |bullets| ==> bullets[k] == kept[k]
      {
        bullets := bullets[i := bullets[i].(y := bullets[i].y - BULLET_SPEED)];
        i := i + 1;
      }
      forall b | b in bullets
        ensures b.width == BULLET_WIDTH && b.height == BULLET_HEIGHT
      {
        var k :| 0 <= k < |bullets| && bullets[k] == b;
        assert kept[k] in old(bullets);
      }
    }

    /** Moves enemies down one by one; the first enemy to pass the bottom
        edge ends the game at once (`System.exit`), so those after it are
        not moved. */
    method UpdateEnemies()
      modifies this`enemies, this`outcome
      requires Valid() && outcome == Playing
      ensures Valid()
      ensures |enemies| == |old(enemies)|
      ensures outcome == Loss <==> exists e :: e in old(enemies) && Invades(e)
      ensures outcome != Loss ==> outcome == Playing && enemies == LowerAll(old(enemies))
      ensures outcome == Loss ==>
                exists k :: (0 <= k < |enemies| && Invades(old(enemies)[k]) &&
                  (forall j :: 0 <= j < k ==> !Invades(old(enemies)[j])) &&
                  (forall j :: 0 <= j <= k ==> enemies[j] == Lower(old(enemies)[j])) &&
                  (forall j :: k < j < |enemies| ==> enemies[j] == old(enemies)[j]))
    {
      var i := 0;
      while i < |enemies|
        invariant 0 <= i <= |enemies| == |old(enemies)|
        invariant outcome == Playing
        invariant forall k :: 0 <= k < i ==> enemies[k] == Lower(old(enemies)[k]) && !Invades(old(enemies)[k])
        invariant forall k :: i <= k < |enemies| ==> enemies[k] == old(enemies)[k]
      {
        enemies := enemies[i := enemies[i].(y := enemies[i].y + ENEMY_SPEED)];
        if enemies[i].y > PANEL_HEIGHT {
          outcome := Loss;
          assert old(enemies)[i] in old(enemies);
          ShapesKept(old(enemies), enemies);
          return;
        }
        i := i + 1;
      }
      ShapesKept(old(enemies), enemies);
    }

    /** Removes, after the full nested scan, every bullet and every enemy that
        took part in an overlap; an empty wave is a win. */
    method CheckCollisions()
      modifies this`bullets, this`enemies, this`outcome
      requires Valid() && outcome == Playing
      ensures Valid()
      ensures bullets == SurvivingBullets(old(bullets), old(enemies))
      ensures enemies == SurvivingEnemies(old(enemies), old(bullets))
      ensures outcome == if enemies == [] then Win else Playing
    {
      var bs, es := bullets, enemies;
      var bulletsToRemove: seq<Rect> := [];
      var enemiesToRemove: seq<Rect> := [];
      for i := 0 to |bs|
        invariant forall r :: r in bulletsToRemove <==> r in bs[..i] && HitsSome(r, es)
        invariant forall r :: r in enemiesToRemove <==> r in es && HitBySome(r, bs[..i])
      {
        for j := 0 to |es|
          invariant forall r :: r in bulletsToRemove <==>
                      (r in bs[..i] && HitsSome(r, es)) || (r == bs[i] && HitsSome(r, es[..j]))
          invariant forall r :: r in enemiesToRemove <==>
                      r in es && (HitBySome(r, bs[..i]) || (r in es[..j] && Intersects(bs[i], r)))
        {
          assert es[..j + 1] == es[..j] + [es[j]];
          if Intersects(bs[i], es[j]) {
            bulletsToRemove := bulletsToRemove + [bs[i]];
            enemiesToRemove := enemiesToRemove + [es[j]];
          }
        }
        assert es[..|es|] == es;
        assert bs[..i + 1] == bs[..i] + [bs[i]];
      }
      assert bs[..|bs|] == bs;
      RemovingHitBullets(bs, bulletsToRemove, es);
      RemovingHitEnemies(es, enemiesToRemove, bs);
      bullets := RemoveAll(bullets, bulletsToRemove);
      enemies := RemoveAll(enemies, enemiesToRemove);
      if enemies == [] {
        outcome := Win;
      }
    }

    /** `actionPerformed`: player, bullets, enemies, collisions, in that
        order; once the game has ended nothing moves any more. */
    method Tick()
      modifies this`playerX, this`bullets, this`enemies, this`outcome
      requires Valid()
      ensures Valid()
      ensures old(outcome) != Playing ==>
                playerX == old(playerX) && bullets == old(bullets) && enemies == old(enemies) && outcome == old(outcome)
      ensures old(outcome) == Playing ==> playerX == PlayerStep(old(playerX), moveLeft, moveRight)
      ensures old(outcome) == Playing ==> (outcome == Loss <==> exists e :: e in old(enemies) && Invades(e))
      ensures old(outcome) == Playing && outcome != Loss ==>
                bullets == SurvivingBullets(AdvanceBullets(old(bullets)), LowerAll(old(enemies))) &&
                enemies == SurvivingEnemies(LowerAll(old(enemies)), AdvanceBullets(old(bullets))) &&
                (outcome == Win <==> enemies == [])
    ensures old(outcome) == Playing && outcome == Loss ==>
              bullets == AdvanceBullets(old(bullets)) && |enemies| == |old(enemies)| &&
              exists k :: (0 <= k < |enemies| && Invades(old(enemies)[k]) &&
                (forall j :: 0 <= j < k ==> !Invades(old(enemies)[j])) &&
                (forall j :: 0 <= j <= k ==> enemies[j] == Lower(old(enemies)[j])) &&
                (forall j :: k < j < |enemies| ==> enemies[j] == old(enemies)[j]))
    {
      if outcome != Playing {
        return;
      }
      UpdatePlayer();
      UpdateBullets();
      UpdateEnemies();
      if outcome == Playing {
        CheckCollisions();
      }
    }
  }

  /** Moving enemies down (all or some of them) keeps their sizes. */
  lemma ShapesKept(before: seq<Rect>, after: seq<Rect>)
    requires |after| == |before|
    requires forall k :: 0 <= k < |after| ==> after[k] == before[k] || after[k] == Lower(before[k])
    requires forall e :: e in before ==> e.width == ENEMY_WIDTH && e.height == ENEMY_HEIGHT
    ensures forall e :: e in after ==> e.width == ENEMY_WIDTH && e.height == ENEMY_HEIGHT
  {
    forall e | e in after
      ensures e.width == ENEMY_WIDTH && e.height == ENEMY_HEIGHT
    {
      var k :| 0 <= k < |after| && after[k] == e;
      assert before[k] in before;
    }
  }
}
