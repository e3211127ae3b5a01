# Eco Defender in Dafny

A verified model of the two game prototypes of Eco Defender:

- **prototype.py**, the real-time tower-defense sketch. Its frame loop does the following in order:
  - polls events (quit, number keys selecting a tower type, clicks that buy the selected tower);
  - runs down Tree-tower cooldowns;
  - spawns an enemy every 2000 ms;
  - moves the enemies;
  - lets every ready Tree tower hit the first enemy in range;
  - lets every enemy destroy the Solar and Recycle towers it touches;
  - removes dead enemies (for a $5 reward) and escaped ones (for one city-health point);
  - updates money and power from the Solar and Recycle towers;
  - stops the game once city health is gone.
- **text_based.py**, the turn-based pollution game. Pollution starts at 50. Each turn the player's choice picks the range of a random change. The game ends as soon as pollution leaves the open interval (0, 100).

The project is split into four modules:

- `lists.dfy` (module `Lists`): generic sequence helpers.
  - `Filter`, and Python's `list.remove` as `RemoveFirst`.
  - Duplicate-freedom (`Distinct`) and subsequences, with their lemmas.
- `rules.dfy` (module `Rules`): the frame on values.
  - A `World` holds the globals, plus the tower and enemy lists as the field values of their objects.
  - Each pass of the loop body is a function, and `Frame` composes them in the source's order.
  - Lemmas state what each pass guarantees, and `FrameRule` states what a whole frame guarantees.
- `prototype.dfy` (module `Prototype`): the objects.
  - `Tower` and `Enemy` are classes whose fields are updated in place.
  - `Game` holds the globals and the two object lists.
  - Each pass is a method whose postcondition ties the new state (`State()`) to the matching `Rules` function of the old state.
  - `Step` is one iteration of the main loop, and `Play` is the loop itself.
  - The removal pass walks a copy of the enemy list and removes enemies from the list, as the source does. It is the method `ScanEnemies`, with its loop body `JudgeEnemy`.
- `textgame.dfy` (module `TextGame`): `game_loop`.
  - The choice-to-range mapping is a function, and the loop is the method `GameLoop`.
  - The reference definitions are `Final` (pollution at the end) and `Turns` (turns played), with lemmas about both.

Distances follow `math.hypot(dx, dy) <= r`, compared as `dx*dx + dy*dy <= r*r`. The two agree for r >= 0. Values that come from outside the program are parameters:
- the frame time returned by `clock.tick`;
- the event queue, where a click carries the mouse position;
- the random row of a new enemy;
- the typed choices and random draws of the text game.

Two distance tests differ. The collision test is strict: a Solar or Recycle tower at distance exactly 30 from an enemy survives (prototype.py:158). The targeting test is `<=`: an enemy at distance exactly 100 can be hit (prototype.py:148). The model keeps both. City health can also go below 0 when several enemies escape in one frame (prototype.py:166-168). Money and power are clamped at 0 only once per frame, after production (prototype.py:180-181).

## Model

| member | source | states |
|---|---|---|
| Rules.HandleEvent | prototype.py:105-127 | one event: quit clears `running`; keys 1/2/3 select Tree/Solar/Recycle; a click buys a tower (Rules.Purchase); any other event changes nothing |
| Rules.HandleEvents | prototype.py:105-127 | the events of one frame, oldest first; enemies, power, city health and the spawn timer are unchanged, and a stopped game stays stopped |
| Rules.Tick | prototype.py:54-57 | `Tower.update`: a Tree tower with positive cooldown has it reduced by dt; any other tower is unchanged |
| Rules.CanShoot | prototype.py:68-69 | `Tower.can_shoot`: a Tree tower whose cooldown is at most 0 |
| Prototype.Tower.CanShoot | prototype.py:68-69 | `can_shoot` on the tower object, as Rules.CanShoot of its fields |
| Rules.Shoot | prototype.py:71-72 | `Tower.shoot`: the cooldown becomes 1000 |
| Rules.Move | prototype.py:82-83 | `Enemy.update`: x grows by 50 * dt / 1000; row and health unchanged |
| Rules.MoveAll | prototype.py:139-141 | every enemy moves as Rules.Move, in list order; the list keeps its length |
| Rules.FireOne | prototype.py:143-151 | one tower's turn: a tower that can shoot hits the first enemy in range for 2 and goes on cooldown; otherwise nothing changes; the enemy list keeps its length |
| Rules.FireAll | prototype.py:143-151 | all towers fire in list order, each seeing the healths left by the earlier ones; both lists keep their lengths |
| Rules.CollideAll | prototype.py:153-159 | for every enemy in list order, the Solar and Recycle towers strictly within 30 of it are removed |
| Rules.Dead | prototype.py:91-92 | `Enemy.is_dead`: health at most 0 |
| Prototype.Enemy.IsDead | prototype.py:91-92 | `is_dead` on the enemy object, as Rules.Dead of its fields |
| Rules.Cull | prototype.py:161-168 | the removal pass: living enemies with x at most 800 stay in order; each dead one pays $5; each living one past 800 costs one city-health point |
| Rules.Frame | prototype.py:101-208 | one pass of the loop body: events, cooldowns, spawning, movement, shots, collisions, removals, production, then the game-over check |
| Prototype.Run | prototype.py:100-101 | the main loop over a sequence of frames; frames after the game stopped change nothing |
| TextGame.Playing | text_based.py:16 | the loop guard: pollution strictly between 0 and 100 |
| TextGame.Final | text_based.py:16-44 | the pollution when the loop stops: each turn adds its draw while the guard holds and input remains |
| TextGame.Turns | text_based.py:16-44 | the number of turns played before the loop stops |
| Rules.Initial | prototype.py:24-100 | the globals before the first frame: money 100, power 300, city health 10, Tree selected, no towers or enemies, spawn timer 0, running |
| Rules.Cost | prototype.py:29-31 | the price of a tower: Tree 5, Solar 10, Recycle 50 |
| Rules.NewTower | prototype.py:38-52 | a tower built at the click: the given type and position, cooldown 0 |
| Rules.TickAll | prototype.py:129-131 | every tower runs down its cooldown as Rules.Tick, in list order; the list keeps its length |
| Rules.NewEnemy | prototype.py:76-80 | a new enemy: x = 0, the drawn row, health 5 |
| Rules.Prepare | prototype.py:104-141 | the first part of a frame: the events, then the cooldowns, then the spawn timer, then the movement |
| Rules.InRange | prototype.py:147-148 | the targeting test: the distance from tower to enemy is at most 100 (`<=`, compared squared) |
| Rules.Fragile | prototype.py:156 | only Solar and Recycle towers can be destroyed by an enemy |
| Rules.Crushes | prototype.py:156-158 | the collision test: a fragile tower strictly closer than 20 + 10 to the enemy (`<`, compared squared) |
| Rules.Spared | prototype.py:155-159 | one enemy's scan over a copy of the tower list: the towers it does not crush, in order |
| Rules.Escaped | prototype.py:163-168 | an enemy that is not dead and has x past 800 |
| Rules.Remains | prototype.py:163-168 | an enemy that is neither dead nor past x = 800, and so stays in the list |
| Rules.Combat | prototype.py:143-168 | the middle part of a frame: the shots, then the collisions against the shot enemies, then the removal pass |
| Rules.CountKind | prototype.py:172-173 | the number of towers of one type in the list |
| Rules.Purchase | prototype.py:117-127 | a click appends a new tower of the selected type at the click position and deducts its price exactly when money covers the price; otherwise nothing changes |
| Rules.EventEffects | prototype.py:105-127 | keys 1/2/3 select Tree/Solar/Recycle; only a number key changes the selection; only a quit clears `running`; only a click changes towers or money; no event touches enemies, power, city health or the spawn timer |
| Rules.EventPays | prototype.py:117-127 | one event adds at most one tower, at the end of the list, paid at its price, and money stays non-negative |
| Rules.EventsPayForTowers | prototype.py:105-127 | over a frame's events, the old towers stay as a prefix; at most one tower is added per event; money falls by exactly the price of the added towers and never goes negative |
| Rules.CooldownWindow | prototype.py:54-72 | a Tree tower on cooldown cannot shoot until frames adding up to its cooldown have passed; the cooldown falls by exactly the elapsed time |
| Rules.Spawn | prototype.py:133-137 | the timer accumulates dt; once past 2000 one enemy is appended and the timer resets to 0; otherwise nothing else changes; the timer stays within [0, 2000] |
| Rules.MoveAdvances | prototype.py:82-83 | every enemy advances by 50 * dt / 1000 and keeps its row and health |
| Rules.FirstInRange | prototype.py:146-151 | the scan returns the first enemy in list order within range 100, or none when no enemy is in range |
| Rules.FireOneHitsFirst | prototype.py:144-151 | a tower that cannot shoot, or reaches no enemy, changes nothing; otherwise it takes 2 health from the first enemy in range only and goes on a 1000 ms cooldown |
| Rules.FireAllBounds | prototype.py:143-151 | firing moves nothing; it leaves Solar and Recycle towers unchanged; each enemy loses at most 2 health per tower that could hit it, and none when no ready tower reaches it |
| Rules.CollideAllIsFilter | prototype.py:153-159 | the enemy-by-enemy collision scans remove exactly the towers that some enemy crushes |
| Rules.CollisionRemovesOnlyCrushed | prototype.py:153-159 | the surviving towers keep their order; no survivor is crushed; every uncrushed tower survives; Tree towers always survive |
| Rules.BountyIsReward | prototype.py:162-165 | the money paid for a list of enemies is $5 per dead enemy |
| Rules.CullAccounts | prototype.py:161-168 | every enemy is counted exactly once, as kept, killed or escaped |
| Rules.CullRule | prototype.py:161-168 | the kept enemies are exactly the living ones inside the field, in order; money rises by 5 per kill; city health falls by 1 per escape; towers and power are unchanged |
| Rules.Output | prototype.py:174-178 | per-second production over dt milliseconds is never negative |
| Rules.Economy | prototype.py:170-181 | money and power end non-negative; Recycle towers never lower money; towers, enemies and city health are unchanged |
| Rules.RecycleIgnoresPower | prototype.py:176-178 | the money earned does not depend on the power left: Recycle towers earn even at zero power |
| Rules.EndCheck | prototype.py:205-208 | with city health at or below 0 the game stops; otherwise nothing changes |
| Rules.FrameRule | prototype.py:101-208 | a frame keeps money and power non-negative and the spawn timer within [0, 2000]; it never raises city health, never restarts a stopped game, and stops the game when city health is gone |
| Prototype.RunRule | prototype.py:100-208 | any number of frames keeps these facts; a stopped game stays unchanged; after at least one frame, a game whose city health is at or below 0 has stopped |
| Prototype.StoppedStaysStopped | prototype.py:100-101 | once the loop condition is false, the remaining frames change nothing |
| Prototype.Tower.constructor | prototype.py:38-52 | a new tower has the given type and position and no cooldown |
| Prototype.Tower.Update | prototype.py:54-57 | only a Tree tower with positive cooldown has its cooldown reduced by dt |
| Prototype.Tower.Shoot | prototype.py:71-72 | shooting sets the cooldown to 1000 |
| Prototype.Enemy.constructor | prototype.py:76-80 | a new enemy is at x = 0 in the drawn row with health 5 |
| Prototype.Enemy.Update | prototype.py:82-83 | the enemy moves right by speed times dt in seconds |
| Prototype.ListAfterIs | prototype.py:162-167 | after the first i enemies of the copy, the list holds the kept ones among them, in order, followed by the rest |
| Prototype.ScanEnds | prototype.py:161-168 | at the end of the scan, the list holds exactly the remaining enemies, with no duplicates; money and city health have the totals of the frame rule |
| Prototype.JudgeEnemy | prototype.py:163-168 | a dead enemy is removed for $5; a living enemy past x = 800 is removed for one city-health point; any other enemy stays |
| Prototype.ScanEnemies | prototype.py:161-168 | the removal scan over a copy leaves exactly the remaining enemies, in order, with no duplicates and none new; it pays the reward and the penalty for every enemy |
| Prototype.Game.constructor | prototype.py:24-100 | the globals at start: money 100, power 300, city health 10, Tree selected, no towers or enemies, spawn timer 0, running |
| Prototype.Game.Purchase | prototype.py:117-127 | a click on the objects matches Rules.Purchase; the new tower object is fresh and the list stays duplicate-free |
| Prototype.Game.HandleEvent | prototype.py:106-127 | one event on the objects matches Rules.HandleEvent |
| Prototype.Game.HandleEvents | prototype.py:105-127 | the event loop matches Rules.HandleEvents |
| Prototype.Game.UpdateTowers | prototype.py:129-131 | every tower object's cooldown runs down as Rules.TickAll says |
| Prototype.Game.SpawnEnemy | prototype.py:133-137 | the spawn step on the objects matches Rules.Spawn, with a fresh enemy object |
| Prototype.Game.UpdateEnemies | prototype.py:139-141 | every enemy object moves as Rules.MoveAll says, so none moves left |
| Prototype.Game.TowerFires | prototype.py:145-151 | one tower's scan updates the tower and enemy objects as Rules.FireOne says; other towers are unchanged and no enemy moves |
| Prototype.Game.TowersShoot | prototype.py:143-151 | the shooting pass matches Rules.FireAll and moves no enemy object |
| Prototype.Game.CrushTowers | prototype.py:155-159 | one enemy's scan over a copy of the tower list leaves exactly the towers it does not crush, in order |
| Prototype.Game.CheckCollisions | prototype.py:153-159 | the collision pass matches Rules.CollideAll |
| Prototype.Game.RemoveEnemies | prototype.py:161-168 | the removal pass matches Rules.Cull |
| Prototype.Game.UpdateResources | prototype.py:170-181 | the resource update matches Rules.Economy |
| Prototype.Game.Prepare | prototype.py:104-141 | events, cooldowns, spawning and movement match Rules.Prepare; every old enemy object stays in the list and none moves left |
| Prototype.Game.Combat | prototype.py:143-168 | shooting, collisions and removals match Rules.Combat and move no enemy object |
| Prototype.Game.Settle | prototype.py:170-208 | the economy and the game-over check match Rules.Economy followed by Rules.EndCheck |
| Prototype.Game.Step | prototype.py:101-208 | one iteration of the loop matches Rules.Frame and keeps the invariant (no negative resources, timer within [0, 2000], no object twice in a list); no enemy object present at the start of the frame moves left |
| Prototype.Game.Play | prototype.py:100-208 | the main loop plays frames while running; it matches Prototype.Run and stops early only when the game has stopped; no enemy object present at the start moves left |
| TextGame.ChangeRange | text_based.py:26-41 | every change lies in [-10, 5]; only choice "1" always lowers pollution; only an invalid input always raises it |
| TextGame.FinalBounds | text_based.py:16-44 | starting from [-9, 104], the game ends in [-9, 104]; it plays at most one turn per input and stops early only outside (0, 100) |
| TextGame.TreesWin | text_based.py:26-44 | planting trees every turn wins, and takes fewer than p / 5 + 1 turns from pollution p |
| TextGame.TreesWinInTen | text_based.py:13-44 | from the starting 50, planting trees every turn wins within 10 turns |
| TextGame.GameLoop | text_based.py:11-51 | the loop starts at 50 and turn 1 and adds one change and one turn per iteration; it ends at Final and 1 + Turns, in [-9, 104]; the outcome is success exactly when pollution is at or below 0 and failure exactly when it is at or above 100 |

## Left out

- Drawing is not modelled: the `draw` methods, fonts, the instruction overlay, colours and the display flip (prototype.py:59-66, 85-89, 183-203). They change no game state.
- `pygame.init`, window setup, `pygame.quit`, `sys.exit` and the "Game Over!" print are not modelled. They are I/O.
- `clock.tick(FPS)` is not modelled: the frame time is a parameter.
- `pygame.event.get` and `pygame.mouse.get_pos` are not modelled: the event queue is a parameter, and a click event carries the mouse position.
- `random.randint` is not modelled: the enemy's row and the text game's changes are parameters.
  - The enemy's row is constrained to [50, 550] by `RowInField`, a requirement of `Step` and `Play`.
  - Each pollution change is constrained to its choice's range by `Fair`.
- Floating-point arithmetic is not modelled. Money, power and enemy x are exact reals, so rounding in `dt / 1000` and in `math.hypot` is not captured.
- Attributes of Solar and Recycle towers: the source gives them no range, damage or cooldown. The model gives them a cooldown of 0. That value is never read, because only Tree towers can shoot or tick.
- Prototype.ScanEnemies: the removal pass works on local copies of the list, money and city health, and Game.RemoveEnemies stores them back once. In the source, the globals change during the scan. The final state is the same, but the intermediate states are not modelled.
- TextGame.GameLoop: inputs are finite sequences. When they run out with pollution still in (0, 100), the method stops and reports no outcome. The source would instead wait for more input at a terminal; on an input stream that ends, `input()` (text_based.py:23) raises `EOFError` and the program stops with a traceback.
- `game_intro` and the prompts and messages of `game_loop` (text_based.py:3-9, 17-23, 45, 49-51) are not modelled: they are output only. The ending message is the returned `Outcome`.
