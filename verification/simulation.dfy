/** One tick of the race-car simulation as a pure function (game.py:141-145,
    156-180, 197-199).

    The clock, the random generator and the floating-point descent formula are
    parameters: every tick receives, for each enemy, the distance it descends
    and the x it takes if it respawns. */
module Simulation {
  import opened GameConfig

  /** An enemy car: x in whole pixels, y in fractional pixels (the descent
      formula makes it fractional after the first tick). */
  datatype Enemy = Enemy(x: int, y: real)

  /** Everything one round keeps between ticks. */
  datatype State = State(playerX: int, enemies: seq<Enemy>, roadY: int)

  /** The arrow keys held during a tick. */
  datatype Keys = Keys(left: bool, right: bool)

  /** What the outside world supplies to one tick: the keys, the per-enemy
      descent and the per-enemy respawn x (used only by an enemy that respawns). */
  datatype TickInput = TickInput(keys: Keys, descents: seq<real>, spawnXs: seq<int>)

  predicate SpawnXOk(x: int) {
    0 <= x <= EnemyMaxX
  }

  predicate TickFits(t: TickInput, n: nat) {
    && |t.descents| == n
    && |t.spawnXs| == n
    && forall i :: 0 <= i < n ==> SpawnXOk(t.spawnXs[i])
  }

  // ---------------------------------------------------------------- player

  /** The positions the player can reach from the reset position: on screen and
      on the 5-pixel grid. */
  predicate PlayerOnRoad(x: int) {
    0 <= x <= PlayerMaxX && x % PlayerSpeed == 0
  }

  /** Left is applied first, then right; each move is guarded by its own edge
      test, so holding both keys can cancel out. */
  function MovePlayer(x: int, keys: Keys): (r: int)
    ensures PlayerOnRoad(x) ==> PlayerOnRoad(r)
    ensures r < x ==> keys.left
    ensures r > x ==> keys.right
    ensures Dist(r, x) <= PlayerSpeed
    ensures PlayerOnRoad(x) && keys.left && !keys.right ==> (r == x <==> x == 0)
    ensures PlayerOnRoad(x) && keys.right && !keys.left ==> (r == x <==> x == PlayerMaxX)
    ensures PlayerOnRoad(x) && keys.left && keys.right ==> r == (if x == 0 then PlayerSpeed else x)
  {
    var afterLeft := if keys.left && x > 0 then x - PlayerSpeed else x;
    if keys.right && afterLeft < PlayerMaxX then afterLeft + PlayerSpeed else afterLeft
  }

  /** The edge guards keep the player on screen only because x stays on the
      5-pixel grid: from an off-grid x the left guard lets the car off screen. */
  lemma OffGridPlayerEscapes()
    ensures MovePlayer(3, Keys(true, false)) < 0
  {
  }

  // ---------------------------------------------------------------- enemies

  /** Horizontal homing: move toward the player's x by at most EnemySpeed,
      never past it. */
  function Home(ex: int, px: int): (r: int)
    ensures ex <= px ==> ex <= r <= px
    ensures px <= ex ==> px <= r <= ex
    ensures Dist(ex, r) == Min(EnemySpeed, Dist(ex, px))
  {
    if ex < px then ex + Min(EnemySpeed, px - ex)
    else if ex > px then ex - Min(EnemySpeed, ex - px)
    else ex
  }

  /** The horizontal clamp: the on-screen x nearest to x. */
  function ClampX(x: int): (r: int)
    ensures 0 <= r <= EnemyMaxX
    ensures 0 <= x <= EnemyMaxX ==> r == x
    ensures forall c :: 0 <= c <= EnemyMaxX ==> Dist(r, x) <= Dist(c, x)
  {
    if x < 0 then 0 else if x > EnemyMaxX then EnemyMaxX else x
  }

  /** Descend, home, clamp, then respawn at the top if the car has left the
      bottom edge. */
  function StepEnemy(e: Enemy, px: int, descent: real, spawnX: int): (r: Enemy)
    requires SpawnXOk(spawnX)
    ensures 0 <= r.x <= EnemyMaxX
    ensures e.y + descent > Height as real ==> r == Enemy(spawnX, -EnemyHeight as real)
    ensures e.y + descent <= Height as real ==> r.y == e.y + descent
    ensures e.y + descent <= Height as real && 0 <= e.x <= EnemyMaxX ==> Dist(r.x, e.x) <= EnemySpeed
    ensures e.y + descent <= Height as real && 0 <= e.x <= EnemyMaxX && 0 <= px <= EnemyMaxX ==>
              r.x == Home(e.x, px)
  {
    var y := e.y + descent;
    var x := ClampX(Home(e.x, px));
    if y > Height as real then Enemy(spawnX, -EnemyHeight as real) else Enemy(x, y)
  }

  /** The `for enemy in enemies` loop: every enemy is updated on its own, in
      list order, against the same (already moved) player x. */
  function StepEnemies(es: seq<Enemy>, px: int, descents: seq<real>, spawnXs: seq<int>): (r: seq<Enemy>)
    requires |descents| == |es| && |spawnXs| == |es|
    requires forall i :: 0 <= i < |spawnXs| ==> SpawnXOk(spawnXs[i])
    ensures |r| == |es|
    ensures forall i :: 0 <= i < |es| ==> r[i] == StepEnemy(es[i], px, descents[i], spawnXs[i])
    decreases |es|
  {
    if |es| == 0 then []
    else [StepEnemy(es[0], px, descents[0], spawnXs[0])]
         + StepEnemies(es[1..], px, descents[1..], spawnXs[1..])
  }

  // ---------------------------------------------------------------- road

  /** The scrolling background offset advances by RoadSpeed and wraps to 0 once
      it reaches the screen height. */
  function AdvanceRoad(roadY: int): (r: int)
    ensures 0 <= roadY < Height ==> 0 <= r < Height
    ensures r == 0 || r == roadY + RoadSpeed
    ensures roadY + RoadSpeed < Height ==> r == roadY + RoadSpeed
  {
    var next := roadY + RoadSpeed;
    if next >= Height then 0 else next
  }

  // ---------------------------------------------------------------- tick

  /** The invariant of a running round. */
  predicate Valid(s: State) {
    && PlayerOnRoad(s.playerX)
    && |s.enemies| == EnemyCount
    && (forall i :: 0 <= i < |s.enemies| ==> 0 <= s.enemies[i].x <= EnemyMaxX)
    && 0 <= s.roadY < Height
  }

  /** The round reset: player centred, three enemies one car-height above the
      screen at the supplied x positions, road offset zero. */
  function Reset(spawnXs: seq<int>): (r: State)
    requires |spawnXs| == EnemyCount
    requires forall i :: 0 <= i < |spawnXs| ==> SpawnXOk(spawnXs[i])
    ensures Valid(r)
    ensures r.playerX == PlayerStartX && r.roadY == 0
    ensures forall i :: 0 <= i < EnemyCount ==> r.enemies[i].x == spawnXs[i]
    ensures forall i :: 0 <= i < EnemyCount ==> r.enemies[i].y == -EnemyHeight as real
  {
    var es := seq(|spawnXs|, i requires 0 <= i < |spawnXs| => Enemy(spawnXs[i], -EnemyHeight as real));
    assert forall i :: 0 <= i < |es| ==> es[i].x == spawnXs[i] && SpawnXOk(es[i].x);
    State(PlayerStartX, es, 0)
  }

  /** One tick: move the player, then every enemy against the moved player,
      then scroll the road. */
  function Step(s: State, t: TickInput): (r: State)
    requires TickFits(t, |s.enemies|)
    ensures r.playerX == MovePlayer(s.playerX, t.keys)
    ensures r.roadY == AdvanceRoad(s.roadY)
    ensures |r.enemies| == |s.enemies|
    ensures forall i :: 0 <= i < |r.enemies| ==> 0 <= r.enemies[i].x <= EnemyMaxX
    ensures forall i :: 0 <= i < |s.enemies| ==>
              r.enemies[i] == StepEnemy(s.enemies[i], r.playerX, t.descents[i], t.spawnXs[i])
    ensures Valid(s) ==> Valid(r)
  {
    var px := MovePlayer(s.playerX, t.keys);
    State(px, StepEnemies(s.enemies, px, t.descents, t.spawnXs), AdvanceRoad(s.roadY))
  }

  /** A whole round of ticks. */
  function Run(s: State, ticks: seq<TickInput>): (r: State)
    requires forall k :: 0 <= k < |ticks| ==> TickFits(ticks[k], |s.enemies|)
    ensures |r.enemies| == |s.enemies|
    decreases |ticks|
  {
    if |ticks| == 0 then s else Run(Step(s, ticks[0]), ticks[1..])
  }

  /** Every tick of a round keeps the round invariant. */
  lemma {:induction false} RunPreservesValid(s: State, ticks: seq<TickInput>)
    requires Valid(s)
    requires forall k :: 0 <= k < |ticks| ==> TickFits(ticks[k], |s.enemies|)
    ensures Valid(Run(s, ticks))
    decreases |ticks|
  {
    if |ticks| > 0 {
      RunPreservesValid(Step(s, ticks[0]), ticks[1..]);
    }
  }

  /** From the reset position, whatever keys are held and wherever enemies
      respawn, the player stays on screen, there are always three enemies, all
      on screen, and the road offset stays in [0, Height). */
  lemma RoundStaysValid(spawnXs: seq<int>, ticks: seq<TickInput>)
    requires |spawnXs| == EnemyCount
    requires forall i :: 0 <= i < |spawnXs| ==> SpawnXOk(spawnXs[i])
    requires forall k :: 0 <= k < |ticks| ==> TickFits(ticks[k], EnemyCount)
    ensures Valid(Run(Reset(spawnXs), ticks))
    ensures |Run(Reset(spawnXs), ticks).enemies| == EnemyCount
    ensures 0 <= Run(Reset(spawnXs), ticks).playerX <= PlayerMaxX
  {
    RunPreservesValid(Reset(spawnXs), ticks);
  }

  /** The road offset is a pure function of the tick count: RoadSpeed pixels per
      tick, modulo the screen height (600 is a multiple of 3, so the wrap is exact). */
  lemma {:induction false} RoadOffsetCounts(s: State, m: nat, ticks: seq<TickInput>)
    requires s.roadY == (RoadSpeed * m) % Height
    requires forall k :: 0 <= k < |ticks| ==> TickFits(ticks[k], |s.enemies|)
    ensures Run(s, ticks).roadY == (RoadSpeed * (m + |ticks|)) % Height
    decreases |ticks|
  {
    if |ticks| > 0 {
      RoadWraps(m);
      RoadOffsetCounts(Step(s, ticks[0]), m + 1, ticks[1..]);
    }
  }

  lemma RoadWraps(m: nat)
    ensures AdvanceRoad((RoadSpeed * m) % Height) == (RoadSpeed * (m + 1)) % Height
  {
  }

  /** From the reset offset 0, the road offset after n ticks is
      RoadSpeed * n modulo the screen height. */
  lemma RoadFromReset(s: State, ticks: seq<TickInput>)
    requires s.roadY == 0
    requires forall k :: 0 <= k < |ticks| ==> TickFits(ticks[k], |s.enemies|)
    ensures Run(s, ticks).roadY == (RoadSpeed * |ticks|) % Height
  {
    RoadOffsetCounts(s, 0, ticks);
  }

  // ---------------------------------------------------------------- homing over time

  /** n ticks of homing toward a player who stands still. */
  function HomeTicks(ex: int, px: int, n: nat): int
    decreases n
  {
    if n == 0 then ex else HomeTicks(Home(ex, px), px, n - 1)
  }

  /** Against a stationary player the horizontal gap closes by exactly
      EnemySpeed per tick until it is zero, and then stays zero. */
  lemma {:induction false} HomingClosesGap(ex: int, px: int, n: nat)
    ensures Dist(HomeTicks(ex, px, n), px) == Max(0, Dist(ex, px) - EnemySpeed * n)
    decreases n
  {
    if n > 0 {
      HomingClosesGap(Home(ex, px), px, n - 1);
      assert EnemySpeed * n == EnemySpeed * (n - 1) + EnemySpeed;
    }
  }

  // ---------------------------------------------------------------- proximity speed

  function AbsReal(v: real): (a: real)
    ensures a >= 0.0 && (a == v || a == -v)
  {
    if v < 0.0 then -v else v
  }

  /** game.py:165-166 read over exact reals: EnemySpeed plus up to 2 more the
      closer the enemy's row is to the player's. */
  function ProximitySpeed(y: real): (v: real)
    ensures -(EnemyHeight as real) <= y <= Height as real ==>
              EnemySpeed as real < v <= (EnemySpeed + 2) as real
    ensures v == (EnemySpeed + 2) as real <==> y == PlayerY as real
    ensures AbsReal(y - PlayerY as real) > Height as real ==> v < EnemySpeed as real
  {
    EnemySpeed as real + (1.0 - AbsReal(y - PlayerY as real) / Height as real) * 2.0
  }

  /** The descents the proximity formula gives every enemy of a state. */
  function ProximityDescents(es: seq<Enemy>): (ds: seq<real>)
    ensures |ds| == |es|
    ensures forall i :: 0 <= i < |es| ==> ds[i] == ProximitySpeed(es[i].y)
  {
    seq(|es|, i requires 0 <= i < |es| => ProximitySpeed(es[i].y))
  }

  /** Every enemy row lies between one car-height above the screen and the
      bottom edge. */
  predicate RowsOnScreen(es: seq<Enemy>) {
    forall i :: 0 <= i < |es| ==> -(EnemyHeight as real) <= es[i].y <= Height as real
  }

  /** With the proximity descent, enemy rows never leave [-EnemyHeight, Height]
      and every enemy that does not respawn moves down by more than EnemySpeed. */
  lemma ProximityKeepsRows(s: State, keys: Keys, spawnXs: seq<int>)
    requires RowsOnScreen(s.enemies)
    requires TickFits(TickInput(keys, ProximityDescents(s.enemies), spawnXs), |s.enemies|)
    ensures RowsOnScreen(Step(s, TickInput(keys, ProximityDescents(s.enemies), spawnXs)).enemies)
    ensures forall i :: 0 <= i < |s.enemies| ==>
              var e' := Step(s, TickInput(keys, ProximityDescents(s.enemies), spawnXs)).enemies[i];
              e'.y == -(EnemyHeight as real) || e'.y > s.enemies[i].y + EnemySpeed as real
  {
  }

  /** Enemies that share a row keep sharing it under the proximity descent:
      they descend by the same amount and respawn on the same tick. After a
      reset all three enemies share the row -EnemyHeight. */
  lemma SharedRowStaysShared(s: State, keys: Keys, spawnXs: seq<int>, i: nat, j: nat)
    requires TickFits(TickInput(keys, ProximityDescents(s.enemies), spawnXs), |s.enemies|)
    requires i < |s.enemies| && j < |s.enemies|
    requires s.enemies[i].y == s.enemies[j].y
    ensures Step(s, TickInput(keys, ProximityDescents(s.enemies), spawnXs)).enemies[i].y
         == Step(s, TickInput(keys, ProximityDescents(s.enemies), spawnXs)).enemies[j].y
  {
  }
}
