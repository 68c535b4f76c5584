# Race-car game: simulation tick and high-score store in Dafny

A Dafny model of the core of a small pygame arcade game (`game.py`). The player's
car moves left and right along the bottom of an 800 x 600 road. Three enemy cars
descend, home in horizontally on the player and respawn at the top once they pass
the bottom edge. The background scrolls. A collision ends the round and records
the round's score in a high-score file.

The model has five modules:

- `GameConfig` (`game_config.dfy`): the fixed sizes and speeds. Both cars are
  50 x 100, the player moves 5 pixels per tick, enemies home 3 pixels per tick,
  the road scrolls 3 pixels per tick, and the view keeps the 5 best scores.
- `Simulation` (`simulation.dfy`): one tick as a pure `Step` over an immutable
  `State` (player x, enemy list, road offset). Also the round `Reset`, a whole
  round `Run`, and the invariants those keep. Enemy rows are `real`. Each tick
  receives the per-enemy descent and the per-enemy respawn x as inputs, because
  the source computes the descent in floating point and draws the respawn x at
  random.
- `ScoreStore` (`score_store.dfy`): `create_score`, `read_scores`,
  `update_score` and `delete_score` as pure functions over an abstract file. The
  file is `Absent` or `Present(lines)` with one integer per line.
- `Collision` (`collision.dfy`): the rectangle overlap test. The half-open
  overlap rule is an assumption about pygame's `colliderect`; it has not been
  checked against pygame.
- `GameLoop` (`game_loop.dfy`): one frame, meaning the tick, the collision test
  against the moved cars and the crash record.

Three points of the code that the model follows as written:

- The collision loop does not stop at the first colliding enemy. It calls
  `create_score` once per colliding enemy (game.py:187-194). `GameLoop.Frame`
  models that loop; `GameLoop.CorrectedFrame` records the score once. See
  "Findings".
- The player's x is never clamped. Each move is only guarded by an edge test
  (game.py:158-161). This keeps the car on screen only because x stays a
  multiple of 5. `Simulation.PlayerOnRoad` carries that, and
  `Simulation.OffGridPlayerEscapes` shows what happens off the grid.
- `update_score` writes the five-score view back with the new value in place of
  the old one (game.py:74-77), so the file can become unsorted. `read_scores`
  sorts again anyway, which `ScoreStore.ReadAfterUpdate` states.

## Model

| member | source | states |
|---|---|---|
| `Simulation.MovePlayer` | game.py:157-161 | A grid-aligned, on-screen player stays on screen and on the 5-pixel grid. The car moves only toward a held key and by at most 5. Holding one key alone leaves x unchanged exactly at that key's screen edge. Holding both keys leaves x unchanged, except at x = 0, where the guarded left move is skipped and the car moves right to 5. |
| `Simulation.OffGridPlayerEscapes` | game.py:158-159 | The `x > 0` guard alone does not keep the car on screen: from x = 3, left moves it to a negative x. |
| `Simulation.Home` | game.py:168-171 | Homing moves enemy x toward the player's x and never past it, by exactly min(3, gap). Equal xs stay unchanged. |
| `Simulation.ClampX` | game.py:172-175 | The clamp result lies in [0, 750]. It leaves on-screen values alone and is the on-screen value nearest its input. |
| `Simulation.StepEnemy` | game.py:165-178 | After its update an enemy's x is in [0, 750]. If old y plus the descent exceeds 600, the enemy is at (supplied x, -100). Otherwise y is exactly old y plus the descent, x moved at most 3, and with both xs on screen the clamp is a no-op after homing. |
| `Simulation.StepEnemies` | game.py:164-180 | The enemy loop keeps the list length and order. Enemy i becomes enemy i's own update against the same player x. |
| `Simulation.AdvanceRoad` | game.py:197-199 | The road offset stays in [0, 600). It either advances by 3 or wraps to 0, and it advances whenever that stays below 600. |
| `Simulation.Reset` | game.py:141-145 | A reset state satisfies the round invariant: player at 375, road offset 0, and three enemies at row -100 with the supplied xs. |
| `Simulation.Step` | game.py:157-199 | A tick moves the player by the held keys (`MovePlayer`) and scrolls the road by one step (`AdvanceRoad`). It keeps the enemy count and order, updates every enemy against the already moved player, puts every enemy on screen, and preserves the round invariant. |
| `Simulation.Run` | game.py:150-199 | Any number of ticks keeps the number of enemies. |
| `Simulation.RunPreservesValid` | game.py:157-199 | By induction over the ticks, the round invariant holds after any sequence of ticks. |
| `Simulation.RoundStaysValid` | game.py:141-199 | From the reset state, under any keys, descents and on-screen respawn xs: player x stays in [0, 750], there are always 3 enemies, all on screen, and the road offset stays in [0, 600). |
| `Simulation.RoadWraps` | game.py:197-199 | Advancing an offset of 3m mod 600 gives 3(m+1) mod 600. |
| `Simulation.RoadOffsetCounts` | game.py:197-199 | After n more ticks, the road offset equals 3 times the total tick count, mod 600. |
| `Simulation.RoadFromReset` | game.py:145-199 | From the reset offset 0, the road offset after n ticks is 3n mod 600. |
| `Simulation.HomingClosesGap` | game.py:168-171 | Against a still player, n homing steps leave a horizontal gap of max(0, gap - 3n). |
| `Simulation.ProximitySpeed` | game.py:165-166 | In exact reals: the descent is above 3 and at most 5 for rows in [-100, 600]. It is 5 exactly when the row equals the player's row 490. It falls below 3 when the row is more than 600 from 490. |
| `Simulation.ProximityDescents` | game.py:164-166 | Every enemy gets the proximity descent of its own current row, in list order. |
| `Simulation.ProximityKeepsRows` | game.py:165-177 | With the proximity descent, enemy rows stay in [-100, 600]. Each enemy either respawns or moves down by more than 3. |
| `Simulation.SharedRowStaysShared` | game.py:164-177 | Two enemies in the same row are still in the same row after a proximity tick. |
| `Collision.OverlapsIffSharedPixel` | game.py:186-189 | Under the assumed half-open rule, non-empty rectangles overlap exactly when some pixel is covered by both, so overlap is symmetric. |
| `Collision.Hits` | game.py:187-189 | The count is exactly the number of rectangles the player overlaps (the size of the set of overlapping indices). So it is 0 exactly when none overlaps, and all of them exactly when every one overlaps. |
| `Collision.TwoOverlapsCountTwice` | game.py:187-189 | Two distinct overlapping enemies give a count of at least 2. |
| `Collision.CollisionExamples` | game.py:186-189 | A player at (100, 500) collides with an enemy at (110, 550) but not with one at (200, 0). |
| `ScoreStore.CreateScore` | game.py:60-62 | Appending creates a missing file. It adds exactly one line holding the score and keeps every earlier line. |
| `ScoreStore.Insert` | game.py:67 | Inserting into a descending list keeps it descending and adds exactly that value. The head becomes the larger of the value and the old head. |
| `ScoreStore.SortDesc` | game.py:67 | The result is descending and holds the same multiset of scores. |
| `ScoreStore.Take` | game.py:67 | The result is the first min(k, n) elements. |
| `ScoreStore.SortedUnique` | game.py:67 | Two descending arrangements of the same scores are equal. |
| `ScoreStore.ReadScores` | game.py:64-69 | A missing file reads as []. The view holds min(5, n) scores in descending order, each drawn from the file. A file score left out of it implies the view is full and the score is at most the fifth one. |
| `ScoreStore.FirstIndex` | game.py:74 | The position of the first occurrence of the value. |
| `ScoreStore.UpdateScore` | game.py:71-77 | An old score missing from the view leaves the file untouched. Otherwise the file becomes the view with its first occurrence of the old score replaced by the new one, same length, everything else unchanged. |
| `ScoreStore.DeleteScore` | game.py:79-85 | A score missing from the view leaves the file untouched. Otherwise the file becomes the view without that score's first occurrence, one shorter. |
| `ScoreStore.ReadScoresIgnoresOrder` | game.py:64-69 | Two files holding the same scores in any order give the same view. |
| `ScoreStore.ReadScoresOfView` | game.py:64-69 | A descending file of at most 5 scores reads back as itself. |
| `ScoreStore.ReadScoresOfArrangement` | game.py:64-69 | The view is the first five of any descending arrangement of the file's scores. |
| `ScoreStore.InsertTake` | game.py:67 | Inserting and then keeping k equals keeping k, inserting, and keeping k. |
| `ScoreStore.ReadAfterCreate` | game.py:60-69 | After appending a score, the view is the old view with the score inserted, cut to 5. |
| `ScoreStore.CreateShowsScore` | game.py:60-69 | A new score shows in the view exactly when fewer than 5 scores were recorded before or it is at least the old fifth best. |
| `ScoreStore.ReadAfterUpdate` | game.py:64-77 | After an update of a viewed score, the view has the same size and holds the old view's scores with one old score traded for the new one. |
| `ScoreStore.UpdateToSameRewritesView` | game.py:71-77 | Updating a viewed score to itself rewrites the file as exactly the view. |
| `ScoreStore.UpdateToSameKeepsView` | game.py:64-77 | Updating any score to itself leaves the view unchanged. |
| `ScoreStore.ReadAfterDelete` | game.py:64-85 | After deleting a viewed score, the file reads back as itself: the old view minus one occurrence of the score. |
| `ScoreStore.ReadScoresExample` | game.py:64-69 | Scores 30, 10, 50, 20, 40, 5 read as [50, 40, 30, 20, 10]. |
| `ScoreStore.UpdateDropsHistory` | game.py:71-77 | Updating 6 to itself in a file of 1..6 leaves [6, 5, 4, 3, 2], so the recorded 1 is lost. |
| `GameLoop.Collisions` | game.py:186-189 | The count is exactly the number of enemies whose rectangle the player's car overlaps, and so 0 exactly when none overlaps. |
| `GameLoop.RecordCrashAsWritten` | game.py:187-194 | As written, a frame with h collisions appends exactly h lines, all holding the score, after the unchanged earlier lines. |
| `GameLoop.TwoHitsRecordTwice` | game.py:187-194 | As written, two enemies overlapping the player in one frame append the score at least twice. |
| `GameLoop.TwoOnPlayerHitsTwice` | game.py:186-189 | A valid state with all three enemies in row 450, two of them at the player's x, has exactly 2 collisions. |
| `GameLoop.DoubleCrashRecordsTwice` | game.py:187-194 | In that state, as written, a fresh file receives [7, 7], and the high-score view shows the one round twice. |
| `GameLoop.RecordCrash` | game.py:187-194 | Corrected: a frame with any collision appends exactly one line holding the score, and a frame without one changes nothing. |
| `GameLoop.RecordCrashAgreement` | game.py:187-194 | The as-written and corrected records agree exactly when at most one enemy was hit. |
| `GameLoop.Frame` | game.py:157-199 | As written: a frame preserves the round invariant. It crashes exactly when the moved player overlaps some moved enemy. It appends the score once per overlapping enemy after the unchanged earlier lines, so no crash leaves the file alone. |
| `GameLoop.CorrectedFrame` | game.py:157-199 | Corrected: the same tick and crash verdict, but a crash appends the score once, and no crash leaves the file alone. |
| `GameLoop.FramesAgree` | game.py:187-194 | The as-written and corrected frames reach the same state and crash verdict. They write the same file exactly when the moved player overlaps at most one enemy. |

## Left out

- pygame and mixer initialisation, asset loading and the `exit()` on a loading failure (game.py:6-40): foreign library calls and process control.
- Drawing, fonts, `display.flip`, the menu and high-score screens and their event loops, the quit event (game.py:88-132, 151-154, 200-216): user interface. The menu → play → high-score state machine is therefore not modelled, apart from the round reset it performs.
- Sound playback for spawns and crashes (game.py:179-180, 190-191): fire-and-forget side effects.
- The score `int(time.time() - start_time)`, `clock.tick(60)` and `pygame.time.delay(1000)` (game.py:183, 193, 211): wall-clock time. `GameLoop.Frame` and `GameLoop.CorrectedFrame` receive the score as a parameter.
- `random.randint`: every tick receives one respawn x per enemy, required to lie in [0, 750]. An enemy that does not respawn ignores its value.
- Simulation.Step: the descent is a per-enemy parameter, not the floating-point formula of game.py:165-166. `Simulation.ProximitySpeed` gives that formula over exact reals, without float rounding.
- Collision.OverlapsIffSharedPixel: the half-open overlap rule is assumed for pygame's `colliderect`, not derived from it. `GameLoop.EnemyRect` converts the enemy's fractional row with floor. pygame's own conversion is not part of this model. For a negative row the two can differ, but such an enemy cannot reach the player's row either way.
- File access: the file is a sequence of integers. Parsing (`int(line.strip())` raising on a malformed line), text formatting and write failures are not modelled.
- The rest of the frame after a crash: the source still scrolls and draws once before leaving the loop. Both frames scroll too, and drawing is left out as above.

## Findings

| source | as written | input that shows it | evidently intended | confidence | as-written member | corrected member |
|---|---|---|---|---|---|---|
| game.py:187-194 | The collision loop does not stop at the first hit, so `create_score` runs once for every enemy that overlaps the player in the crash frame. | Player at x 375. All three enemies in row 450.0, two of them at x 375 and the third at x 0. Round score 7. The file gets the lines 7, 7 and the high-score view shows the one round twice. The reset puts all enemies in one row, and the proximity descent keeps them there, so shared rows are the normal case. | Record the round's score once per crash. | medium, not executed | `GameLoop.RecordCrashAsWritten` (shown by `GameLoop.DoubleCrashRecordsTwice`) | `GameLoop.RecordCrash` (used by `GameLoop.CorrectedFrame`) |
