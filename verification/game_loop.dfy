/** One frame of a running round (game.py:150-199): the simulation tick, the
    collision test against the moved cars, and the score record on a crash.

    The elapsed-time score, the sound effects, the one-second pause and the
    drawing are left to the caller; the score arrives as a parameter. */
module GameLoop {
  import opened GameConfig
  import opened Simulation
  import opened Collision
  import opened ScoreStore

  function PlayerRect(px: int): Rect {
    Rect(px, PlayerY, PlayerWidth, PlayerHeight)
  }

  /** The enemy's fractional row is taken down to whole pixels. For a negative
      row this may differ from pygame's own conversion by one pixel, but such
      an enemy ends above row 100 and cannot reach the player's row 490. */
  function EnemyRect(e: Enemy): Rect {
    Rect(e.x, e.y.Floor, EnemyWidth, EnemyHeight)
  }

  function EnemyRects(es: seq<Enemy>): (rs: seq<Rect>)
    ensures |rs| == |es|
    ensures forall i :: 0 <= i < |es| ==> rs[i] == EnemyRect(es[i])
  {
    seq(|es|, i requires 0 <= i < |es| => EnemyRect(es[i]))
  }

  /** Number of enemies the player's car overlaps in a state. */
  function Collisions(s: State): (n: nat)
    ensures n <= |s.enemies|
    ensures n == 0 <==> forall i :: 0 <= i < |s.enemies| ==> !Overlaps(PlayerRect(s.playerX), EnemyRect(s.enemies[i]))
    ensures n == |set i: nat | i < |s.enemies| && Overlaps(PlayerRect(s.playerX), EnemyRect(s.enemies[i]))|
  {
    var rs := EnemyRects(s.enemies);
    assert (set i: nat | i < |rs| && Overlaps(PlayerRect(s.playerX), rs[i]))
        == (set i: nat | i < |s.enemies| && Overlaps(PlayerRect(s.playerX), EnemyRect(s.enemies[i])));
    Hits(PlayerRect(s.playerX), rs)
  }

  /** The crash record as the collision loop is written: it does not stop at
      the first colliding enemy, so create_score runs once per colliding
      enemy. */
  function RecordCrashAsWritten(f: ScoreFile, score: int, hits: nat): (r: ScoreFile)
    ensures hits == 0 ==> r == f
    ensures |Lines(r)| == |Lines(f)| + hits
    ensures Lines(r)[..|Lines(f)|] == Lines(f)
    ensures forall k :: |Lines(f)| <= k < |Lines(r)| ==> Lines(r)[k] == score
    decreases hits
  {
    if hits == 0 then f
    else
      var r := RecordCrashAsWritten(CreateScore(f, score), score, hits - 1);
      assert Lines(r)[..|Lines(f)|] == Lines(CreateScore(f, score))[..|Lines(f)|];
      r
  }

  /** Whenever two enemies overlap the player in the same frame, the
      as-written record appends the score at least twice. */
  lemma TwoHitsRecordTwice(s: State, f: ScoreFile, score: int, i: nat, j: nat)
    requires i < j < |s.enemies|
    requires Overlaps(PlayerRect(s.playerX), EnemyRect(s.enemies[i]))
    requires Overlaps(PlayerRect(s.playerX), EnemyRect(s.enemies[j]))
    ensures Collisions(s) >= 2
    ensures |Lines(RecordCrashAsWritten(f, score, Collisions(s)))| >= |Lines(f)| + 2
  {
    TwoOverlapsCountTwice(PlayerRect(s.playerX), EnemyRects(s.enemies), i, j);
  }

  /** A concrete state: all three enemies share a row just above the player,
      as they do from the reset on, and two have homed in on the player's x.
      The lemmas below take the state as a parameter pinned by this predicate,
      which keeps the verifier from unfolding the collision count on a literal. */
  predicate TwoOnPlayer(s: State) {
    s == State(PlayerStartX, [Enemy(PlayerStartX, 450.0), Enemy(PlayerStartX, 450.0), Enemy(0, 450.0)], 0)
  }

  lemma TwoOnPlayerHitsTwice(s: State)
    requires TwoOnPlayer(s)
    ensures Valid(s)
    ensures Collisions(s) == 2
  {
    var player := PlayerRect(s.playerX);
    var rs := EnemyRects(s.enemies);
    assert Overlaps(player, rs[0]) && Overlaps(player, rs[1]) && !Overlaps(player, rs[2]);
    assert rs[1..][1..] == [rs[2]];
  }

  /** Two enemies in the same row at the player's x: the round's score is
      recorded twice and then fills two places of the high-score view. */
  lemma DoubleCrashRecordsTwice(s: State)
    requires TwoOnPlayer(s)
    ensures Valid(s)
    ensures RecordCrashAsWritten(Absent, 7, Collisions(s)) == Present([7, 7])
    ensures ReadScores(RecordCrashAsWritten(Absent, 7, Collisions(s))) == [7, 7]
  {
    TwoOnPlayerHitsTwice(s);
    var r := RecordCrashAsWritten(Absent, 7, 2);
    assert Lines(r) == [7, 7];
    ReadScoresOfView([7, 7]);
  }

  /** The crash record as evidently intended: a crash ends the round and
      records its score once, however many enemies were hit. */
  function RecordCrash(f: ScoreFile, score: int, hits: nat): (r: ScoreFile)
    ensures hits == 0 ==> r == f
    ensures hits > 0 ==> |Lines(r)| == |Lines(f)| + 1
    ensures hits > 0 ==> Lines(r)[..|Lines(f)|] == Lines(f) && Lines(r)[|Lines(f)|] == score
  {
    if hits > 0 then CreateScore(f, score) else f
  }

  /** The two records agree exactly when at most one enemy was hit. */
  lemma RecordCrashAgreement(f: ScoreFile, score: int, hits: nat)
    ensures RecordCrashAsWritten(f, score, hits) == RecordCrash(f, score, hits) <==> hits <= 1
  {
  }

  /** What one frame leaves behind. */
  datatype Outcome = Outcome(state: State, file: ScoreFile, crashed: bool)

  /** One frame as the loop is written: tick, then test the moved player
      against every moved enemy; every colliding enemy records the score. */
  function Frame(s: State, f: ScoreFile, score: int, t: TickInput): (r: Outcome)
    requires TickFits(t, |s.enemies|)
    ensures r.state == Step(s, t)
    ensures Valid(s) ==> Valid(r.state)
    ensures r.crashed <==> exists i :: 0 <= i < |r.state.enemies| &&
                              Overlaps(PlayerRect(r.state.playerX), EnemyRect(r.state.enemies[i]))
    ensures |Lines(r.file)| == |Lines(f)| + Collisions(r.state)
    ensures Lines(r.file)[..|Lines(f)|] == Lines(f)
    ensures forall k :: |Lines(f)| <= k < |Lines(r.file)| ==> Lines(r.file)[k] == score
    ensures !r.crashed ==> r.file == f
  {
    var next := Step(s, t);
    var hits := Collisions(next);
    Outcome(next, RecordCrashAsWritten(f, score, hits), hits > 0)
  }

  /** One frame as evidently intended: a crash records the score once and
      ends the round. */
  function CorrectedFrame(s: State, f: ScoreFile, score: int, t: TickInput): (r: Outcome)
    requires TickFits(t, |s.enemies|)
    ensures r.state == Step(s, t)
    ensures Valid(s) ==> Valid(r.state)
    ensures r.crashed <==> exists i :: 0 <= i < |r.state.enemies| &&
                              Overlaps(PlayerRect(r.state.playerX), EnemyRect(r.state.enemies[i]))
    ensures r.crashed ==> r.file == CreateScore(f, score)
    ensures !r.crashed ==> r.file == f
  {
    var next := Step(s, t);
    var hits := Collisions(next);
    Outcome(next, RecordCrash(f, score, hits), hits > 0)
  }

  /** The two frames reach the same state and crash verdict, and write the
      same file exactly when the moved player overlaps at most one enemy. */
  lemma FramesAgree(s: State, f: ScoreFile, score: int, t: TickInput)
    requires TickFits(t, |s.enemies|)
    ensures Frame(s, f, score, t).state == CorrectedFrame(s, f, score, t).state
    ensures Frame(s, f, score, t).crashed == CorrectedFrame(s, f, score, t).crashed
    ensures Frame(s, f, score, t).file == CorrectedFrame(s, f, score, t).file <==> Collisions(Step(s, t)) <= 1
  {
  }
}
