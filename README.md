# Pac-Man gameplay rules in Dafny

This project models the gameplay core of a Unity Pac-Man clone and proves
properties of it. It covers five scripts.

- **Ghosts** (`ghost_controller.dfy`, module `Ghosts`) model `GhostController`:
  - the mode flags (Chase, Scatter, Frightened, Eaten; vulnerable, eaten, may move)
  - the frightened countdown
  - the eaten, return-home and respawn cycle
  - the Scatter/Chase mode switcher
  - each archetype's target point
  - the four-way direction choice
- **Game** (`game_manager.dfy`, module `Game`) models `GameManager`:
  - score, lives and pellet accounting, and the level-triggered bonus life
  - the win and game-over triggers
  - death and respawn
  - the life icons
  - the staggered ghost release
- **Player** and **PlayerContact** (`pacman_controller.dfy`) model `PacManController`:
  - key priority, the queued-turn commit rule and the move-if-unblocked rule
  - the reset and enable switches
  - the collision dispatch into the game coordinator
- **Pellets** (`pellet_spawner.dfy`) models `AutoPelletSpawner`:
  - how cells inside the ground map's integer bounds are classified as power pellet, pellet or nothing
  - the nested spawn loops, the two linear searches, clearing the children, and counting ground tiles
- **Teleport** (`teleporter.dfy`) models `Teleporter`:
  - the per-object cooldown table, decremented and pruned each frame
  - the entry guard
  - the teleport, which moves the object and sets the cooldown on both ends
- **Common** (`common.dfy`) holds the shared types: points as pairs of reals, the five direction values, and the wall-query type.

Each script keeps its own form:
- State that a script updates in place is a class whose methods change its fields.
- Each such method's `ensures` ties the new state to a pure function of the old state.
- The pure functions and the lemmas about them carry the properties.

Engine services become inputs:
- wall ray casts become a `Blocked` predicate;
- `Vector2.Distance` in the direction choice becomes a `Metric` function;
- `Random.Range` becomes a `Dice` value;
- pressed keys become a set of keys;
- the scene's tile maps become sets of cells.

Elsewhere distances are compared squared: Clyde's 8 units, the 0.5 home radius and the integer exclusion radius.

Coroutines and `Invoke` become countdowns that `Advance*` methods run down one frame at a time:
- `IntroSequence`, `RespawnSequence` and the `NextLevel` and `RestartGame` invokes;
- the ghost mode switcher's waits;
- the release coroutine, which becomes a queue of pending releases.

A scene reload becomes the flag `reloadRequested`. The static `persistentScore` lives in a `Session` object that outlives a `GameManager`.

The bonus life is level-triggered, not crossing-triggered:
- A bonus granted on crossing 10000 points would be granted once.
- `GameManager.AddScore` instead re-tests `score >= 10000 && lives < 5` on every call.
- So it grants a life on every call while the score stays at or above 10000, until there are 5 lives.
- `Game.BonusLifeRepeats` proves this.

## Model

| member | source | states |
|---|---|---|
| Common.ReverseIsNegation | Assets/Scripts/GhostController.cs:163-165 | comparing directions is comparing their vectors, and `Reverse` is vector negation, so `dir == -direction` is `dir == direction.Reverse()` |
| Common.CardinalsAreTheNonZeroDirections | Assets/Scripts/GhostController.cs:155 | the scanned directions are exactly the non-zero ones, and reversal is an involution on them |
| Ghosts.ScatterCornersDistinct | Assets/Scripts/GhostController.cs:286-304 | the four archetypes get four distinct corners, (±12, ±14), one per quadrant |
| Ghosts.FindBlinkyFrom | Assets/Scripts/GhostController.cs:306-315 | the result is the first Blinky other than the asking ghost from the start index on, or None exactly when there is none |
| Ghosts.FindBlinky | Assets/Scripts/GhostController.cs:306-315 | the first ghost of the scene that is a Blinky and not the asker, or None iff no such ghost exists |
| Ghosts.Sight.BlinkyPosition | Assets/Scripts/GhostController.cs:253-262 | the Blinky position Inky's target reads is that of the first other Blinky of the scene FindBlinky scans, and None exactly when the scene has no other Blinky |
| Ghosts.TargetPosition | Assets/Scripts/GhostController.cs:208-278 | checks the cases in priority order: no player gives its own position; eaten gives home; Scatter gives the corner; Frightened gives a flee point on the ray from the player through the ghost, 11 times as far out. In Chase: Blinky takes the player; Pinky takes 4 units ahead of the player's heading, with zero read as right; Inky takes the point with the player midway between it and Blinky, or the player when there is no other Blinky; Clyde takes the player beyond distance 8, else its corner |
| Ghosts.ChooseDirection | Assets/Scripts/GhostController.cs:150-206 | the loop's result is the choice: the first lowest-scoring allowed cardinal, or the random fallback when none is allowed; with a cardinal fallback the result is never the zero direction |
| Ghosts.ChoiceIsUnique | Assets/Scripts/GhostController.cs:161-205 | the choice is a function of the situation and the dice: two choices are equal |
| Ghosts.ChoiceNeverReverses | Assets/Scripts/GhostController.cs:163-165 | outside Frightened, when some direction is allowed, the choice is never the reverse of the current direction |
| Ghosts.ChoiceMinimisesDistance | Assets/Scripts/GhostController.cs:167-194 | outside Frightened, with some direction allowed, the choice is unblocked at the 0.5 probe. It minimises probe-to-target distance over the allowed directions, and ties go to the earliest of up, down, left, right because the comparison is strict |
| Ghosts.FrightenedChoiceMaximisesDistance | Assets/Scripts/GhostController.cs:179-183 | in Frightened mode with zero jitter, the choice is unblocked and maximises the probe's distance to the flee target over every unblocked direction |
| Ghosts.ChoiceFallsBack | Assets/Scripts/GhostController.cs:197-201 | with no allowed direction the result is the random fallback |
| Ghosts.ChoiceIsCardinal | Assets/Scripts/GhostController.cs:161-201 | when the fallback comes from GetRandomDirection (a cardinal), the choice is always one of the four cardinals, never the zero direction |
| Ghosts.GhostState.SetVulnerable | Assets/Scripts/GhostController.cs:317-328 | keeps the mode flags consistent: an eaten ghost is not vulnerable and has its collider off, Eaten means eaten, Frightened means vulnerable |
| Ghosts.GhostState.GetEaten | Assets/Scripts/GhostController.cs:335-346 | the flags of the result always agree, whatever the state before; it is consistent exactly when the heading is a cardinal |
| Ghosts.GhostState.Respawn | Assets/Scripts/GhostController.cs:348-362 | keeps the mode flags consistent |
| Ghosts.GhostState.ModeLoopHead | Assets/Scripts/GhostController.cs:56-71 | keeps the mode flags consistent |
| Ghosts.GhostState.EnableMovement | Assets/Scripts/GhostController.cs:364-369 | keeps the mode flags consistent |
| Ghosts.GhostState.DisableMovement | Assets/Scripts/GhostController.cs:371-375 | keeps the mode flags consistent |
| Ghosts.GhostState.ModeSwitcherTick | Assets/Scripts/GhostController.cs:54-73 | keeps the mode flags consistent, although it may put a vulnerable ghost in Chase |
| Ghosts.GhostState.VulnerableTick | Assets/Scripts/GhostController.cs:80-89 | keeps the mode flags consistent |
| Ghosts.GhostState.ReturnToHome | Assets/Scripts/GhostController.cs:131-148 | keeps the mode flags consistent |
| Ghosts.SetVulnerableEffect | Assets/Scripts/GhostController.cs:317-328 | on an eaten ghost nothing changes. Otherwise it sets vulnerable, sets the timer to the duration and the mode to Frightened, negates the direction vector, and changes nothing else |
| Ghosts.SetVulnerableTwiceRestoresHeading | Assets/Scripts/GhostController.cs:319-327 | two power pellets turn a ghost around twice, back to its old heading; the timer restarts at the second duration |
| Ghosts.EatenCycle | Assets/Scripts/GhostController.cs:131-148 | after `GetEaten` the ghost is eaten, not vulnerable, in Eaten, collider off. Within 0.5 of home it snaps there: not eaten, Chase, collider on, may move. Farther away it stays eaten and moves to the engine's step point |
| Ghosts.VulnerableExpires | Assets/Scripts/GhostController.cs:81-89 | when the frightened timer runs out the ghost is not vulnerable and in Chase |
| Ghosts.ScatterWaitOverridesFrightened | Assets/Scripts/GhostController.cs:58-66 | a ghost that turned Frightened during the 7-second Scatter wait is put in Chase when the wait ends, still vulnerable, and the 20-second Chase wait begins |
| Ghosts.EnableMovementIdempotent | Assets/Scripts/GhostController.cs:364-369 | releasing a released ghost again leaves the state the first release left |
| Ghosts.DisabledSwitcherIsInert | Assets/Scripts/GhostController.cs:371-375 | after `DisableMovement` the mode switcher never changes the ghost |
| Ghosts.Ghost.constructor | Assets/Scripts/GhostController.cs:35-52 | home is the spawn point, the scatter target is the archetype's corner, the heading is the random initial direction (a cardinal, as GetRandomDirection yields), the ghost may not move, and the ghost is consistent |
| Ghosts.Ghost.SetVulnerable | Assets/Scripts/GhostController.cs:317-328 | the new state is `GhostState.SetVulnerable` of the old one with the ghost's own duration |
| Ghosts.Ghost.GetEaten | Assets/Scripts/GhostController.cs:335-346 | the new state is `GhostState.GetEaten` of the old one |
| Ghosts.Ghost.Respawn | Assets/Scripts/GhostController.cs:348-362 | the new state is `GhostState.Respawn` of the old one, with the random direction as a parameter |
| Ghosts.Ghost.EnableMovement | Assets/Scripts/GhostController.cs:364-369 | may move, and a fresh mode switcher runs to its first wait |
| Ghosts.Ghost.DisableMovement | Assets/Scripts/GhostController.cs:371-375 | may not move, and the mode switcher is stopped |
| Ghosts.Ghost.ModeLoopHead | Assets/Scripts/GhostController.cs:56-71 | the head of the switcher loop: Scatter and a 7-second wait for a free, non-vulnerable, non-eaten ghost, else a 1-second wait |
| Ghosts.Ghost.AdvanceModeSwitcher | Assets/Scripts/GhostController.cs:54-73 | one frame of the switcher coroutine, as `ModeSwitcherTick` |
| Ghosts.Ghost.ReturnToHome | Assets/Scripts/GhostController.cs:131-148 | the new state is `GhostState.ReturnToHome` of the old one, for the ghost's home |
| Ghosts.Ghost.ChooseNewDirection | Assets/Scripts/GhostController.cs:150-206 | the new direction is the choice for the ghost's situation (target from `TargetPosition`) and is never the zero direction; nothing else changes |
| Ghosts.Ghost.TickVulnerable | Assets/Scripts/GhostController.cs:80-96 | the new state is `VulnerableTick` of the old one |
| Ghosts.Ghost.Decide | Assets/Scripts/GhostController.cs:105-111 | when the decision timer runs out it is rearmed and a new direction is chosen; otherwise only the timer drops by dt |
| Ghosts.Ghost.Step | Assets/Scripts/GhostController.cs:113-128 | moves speed·dt along the direction when the segment is clear; otherwise stays and chooses a new direction |
| Ghosts.Ghost.Update | Assets/Scripts/GhostController.cs:75-129 | a frozen ghost that is not eaten changes nothing, not even its timer. An eaten ghost ticks its countdown and travels home. Otherwise the ghost ticks the countdown, re-chooses on an expired decision timer, then steps or re-chooses at a wall |
| Player.PressedTurn | Assets/Scripts/PacManController.cs:47-54 | up beats down, which beats left, which beats right; no key requests nothing; never the zero direction |
| Player.PlayerState.Reset | Assets/Scripts/PacManController.cs:176-187 | frozen, no current direction, nothing queued, position kept |
| Player.FrozenWhileDisabled | Assets/Scripts/PacManController.cs:45 | while the player may not move, a frame changes nothing, whatever is pressed |
| Player.TurnCommitRule | Assets/Scripts/PacManController.cs:47-60 | the pressed turn replaces the queued one. The queued direction becomes current exactly when it is non-zero and clear; otherwise current is unchanged |
| Player.MoveRule | Assets/Scripts/PacManController.cs:63-67 | the position advances by direction·speed·dt exactly when the current direction is non-zero and clear; otherwise it is unchanged |
| Player.CommittedTurnMoves | Assets/Scripts/PacManController.cs:56-67 | a committed turn is always followed by a step along it; a player with no direction and nothing queued does not move |
| Player.PacMan.constructor | Assets/Scripts/PacManController.cs:5-20 | at its spawn point, no direction, nothing queued, frozen until the game starts |
| Player.PacMan.CanMove | Assets/Scripts/PacManController.cs:73-81 | true exactly when the segment to the probe half a unit ahead is clear |
| Player.PacMan.Update | Assets/Scripts/PacManController.cs:42-71 | the new state is one `Tick` of the old one |
| Player.PacMan.PollKeys | Assets/Scripts/PacManController.cs:47-54 | the queued direction becomes the pressed turn, if any |
| Player.PacMan.TryTurn | Assets/Scripts/PacManController.cs:56-60 | the queued turn is committed when it is non-zero and clear |
| Player.PacMan.Move | Assets/Scripts/PacManController.cs:62-67 | the move of one frame along a clear, non-zero direction |
| Player.PacMan.ResetPlayer | Assets/Scripts/PacManController.cs:176-187 | frozen, both directions zero, position kept |
| Player.PacMan.EnableMovement | Assets/Scripts/PacManController.cs:189-192 | may move; nothing else changes |
| PlayerContact.OnHit | Assets/Scripts/PacManController.cs:137-174 | Pac-Man is reset, then the coordinator's death handling runs once: one life fewer, every ghost stopped, the icons redrawn, a restart in 3 s with no lives left or else a 2-second respawn wait, and nothing else changes |
| PlayerContact.OnTriggerEnter2D | Assets/Scripts/PacManController.cs:97-135 | for Pac-Man's own trigger and a reportable contact (a pellet still in the scene, a ghost whose collider is on): a pellet is destroyed and scores 10 with AddScore's whole effect (the last pellet wins; otherwise Pac-Man, the ghosts and the level timer are unchanged). A power pellet is destroyed, scores 50, and then every ghost becomes vulnerable. A vulnerable ghost is eaten and scores 200; no other ghost changes. Any other ghost is OnHit's whole effect while Pac-Man may move, and nothing at all otherwise. Anything else changes nothing |
| PlayerContact.EatPellet | Assets/Scripts/PacManController.cs:99-103 | the pellet leaves the scene, so it cannot be reported and scored again, and the points are added with AddScore's whole effect |
| PlayerContact.EatGhost | Assets/Scripts/PacManController.cs:125-129 | the touched ghost is eaten, 200 points are added, and every other ghost is unchanged |
| PlayerContact.Pickup.Destroy | Assets/Scripts/PacManController.cs:101 | the pellet object is no longer in the scene |
| PlayerContact.Pickup.constructor | Assets/Scripts/PacManController.cs:99 | a pellet object starts in the scene |
| PlayerContact.PinkyAimsAheadOfPacMan | Assets/Scripts/GhostController.cs:240-251 | with the heading read from GetCurrentDirection, Pinky's chase target is exactly 4 units from Pac-Man: ahead along its direction, or to its right when it stands still |
| Game.Scoreboard.AddScore | Assets/Scripts/GameManager.cs:202-227 | the score grows by exactly the points; a pellet is counted iff the points are 10 or 50; lives grow by exactly one iff the new score is at least 10000 and lives were below 5, so never above 5 |
| Game.Scoreboard.LoseLife | Assets/Scripts/GameManager.cs:239 | exactly one life fewer, nothing else changes |
| Game.BonusLifeRepeats | Assets/Scripts/GameManager.cs:221-226 | above 10000, n non-negative scores raise the lives to min(5, lives + n): the bonus is level-triggered |
| Game.WinsExactlyWhenLastPellet | Assets/Scripts/GameManager.cs:207-216 | the level is won exactly when a pellet brings the collected count to the total; a 200-point ghost never counts as a pellet |
| Game.Shown | Assets/Scripts/GameManager.cs:346-351 | every assigned icon i is active iff i < lives; unassigned slots stay unassigned |
| Game.ShownCountsLives | Assets/Scripts/GameManager.cs:346-351 | with every slot assigned, the number of icons shown is the lives, capped by the number of slots, and 0 for no lives |
| Game.Countdown.Tick | Assets/Scripts/GameManager.cs:94 | a wait that ends this frame is over; one that does not loses dt |
| Game.LastOf | Assets/Scripts/GameManager.cs:127-136 | the index of the last ghost of an archetype, or None iff there is none |
| Game.LastOfExtend | Assets/Scripts/GameManager.cs:127-136 | looking at one more ghost makes it the last of its archetype |
| Game.OrderOfPicksLast | Assets/Scripts/GameManager.cs:125-142 | every ghost in the order is valid and the last of its archetype |
| Game.OrderOfRanked | Assets/Scripts/GameManager.cs:138-142 | for archetypes listed in rank order, the ghosts picked out come in strictly increasing rank |
| Game.OrderOfComplete | Assets/Scripts/GameManager.cs:138-142 | every listed archetype present among the ghosts is picked out |
| Game.ReleaseOrderIsOrderOf | Assets/Scripts/GameManager.cs:138-142 | the release order is the order picked out by red, pink, cyan, orange |
| Game.ReleaseOrderIsRanked | Assets/Scripts/GameManager.cs:119-142 | the order lists valid ghosts in strictly increasing rank (a subsequence of Blinky, Pinky, Inky, Clyde, each at most once); every archetype present appears, by its last ghost |
| Game.ReleaseOrderDistinct | Assets/Scripts/GameManager.cs:138-142 | no ghost is released twice by one release pass |
| Game.Wait | Assets/Scripts/GameManager.cs:169-195 | each wait is non-negative: at least the first delay, and at least each delay's difference to the previous one |
| Game.ReleaseNeverEarly | Assets/Scripts/GameManager.cs:145-197 | the total wait before release i is at least its delay and at least 0, and releases come in order |
| Game.ReleaseOnSchedule | Assets/Scripts/GameManager.cs:145-197 | for non-negative, non-decreasing delays, ghost i is released exactly at its delay |
| Game.DelaysAlong | Assets/Scripts/GameManager.cs:148-164 | each released ghost's delay is its archetype's configured delay |
| Game.ReleasePlan | Assets/Scripts/GameManager.cs:145-197 | one release per ghost of the order, in order, each with its wait |
| Game.ReadyCount | Assets/Scripts/GameManager.cs:170-197 | the releases at the head of the queue that need no wait: all of them have no wait, and the next one has a positive wait |
| Game.ReleasesExtend | Assets/Scripts/GameManager.cs:145-197 | releasing one more ghost adds exactly that ghost to those released |
| Game.TickHead | Assets/Scripts/GameManager.cs:175-193 | a frame shortens only the current wait |
| Game.Session.constructor | Assets/Scripts/GameManager.cs:33 | the persistent score starts at 0 |
| Game.GameManager.Kinds | Assets/Scripts/GameManager.cs:50 | the archetype of each ghost, in scene order |
| Game.GameManager.constructor | Assets/Scripts/GameManager.cs:35-65 | loads the persistent score and counts the pellets; nothing is collected; the icons show the lives; only the intro wait is pending |
| Game.GameManager.CountPellets | Assets/Scripts/GameManager.cs:67-75 | total = pellets + power pellets, collected = 0, nothing else changes |
| Game.GameManager.UpdateUI | Assets/Scripts/GameManager.cs:338-352 | the icon array becomes `Shown` of its old contents |
| Game.GameManager.AdvanceIntro | Assets/Scripts/GameManager.cs:77-104 | one frame of the intro wait; when it ends, Pac-Man may move and the release starts |
| Game.GameManager.StartGame | Assets/Scripts/GameManager.cs:106-117 | Pac-Man may move; the ghosts due at once are released and the rest wait in the queue |
| Game.GameManager.SortForRelease | Assets/Scripts/GameManager.cs:122-142 | the first loop of the release coroutine computes exactly `ReleaseOrder` of the ghosts |
| Game.GameManager.ReleaseGhosts | Assets/Scripts/GameManager.cs:119-200 | the plan follows the release order; the ghosts needing no wait are released now and the rest are queued |
| Game.GameManager.PumpReleases | Assets/Scripts/GameManager.cs:145-197 | every ready release at the head of the queue is done, up to the next real wait |
| Game.GameManager.AdvanceRelease | Assets/Scripts/GameManager.cs:175-197 | one frame of the current wait, then the releases that became due |
| Game.GameManager.AddScore | Assets/Scripts/GameManager.cs:202-227 | the counters follow `Scoreboard.AddScore` and the persistent score follows the score. On the winning pellet, Pac-Man is reset, the ghosts stop and the next level is scheduled in 5 s; otherwise the player, the ghosts and the next level are untouched |
| Game.GameManager.CollectPoints | Assets/Scripts/GameManager.cs:204-217 | the score and the persistent score grow by the points and a pellet is counted. The pellet that reaches the total runs `Win`; otherwise the player, the ghosts and the next level are untouched |
| Game.GameManager.ActivatePowerMode | Assets/Scripts/GameManager.cs:229-235 | every ghost becomes `SetVulnerable` of its old state (eaten ghosts unchanged) |
| Game.GameManager.DisableAllGhosts | Assets/Scripts/GameManager.cs:243-246 | every ghost is disabled |
| Game.GameManager.PlayerDied | Assets/Scripts/GameManager.cs:237-257 | exactly one life fewer and every ghost disabled; then the 3-second restart iff no life is left, else the 2-second respawn wait |
| Game.GameManager.AdvanceRespawn | Assets/Scripts/GameManager.cs:259-277 | when the 2-second wait ends, Pac-Man is at its start, reset and free to move, and the release runs again |
| Game.GameManager.FinishRespawn | Assets/Scripts/GameManager.cs:263-276 | Pac-Man is at its start, not moving, nothing queued, free to move; the ghosts due at once are released and the rest queued |
| Game.GameManager.Win | Assets/Scripts/GameManager.cs:279-306 | Pac-Man is reset, every ghost stops, and the next level is scheduled in 5 s |
| Game.GameManager.GameOver | Assets/Scripts/GameManager.cs:315-328 | the restart is scheduled in 3 s |
| Game.GameManager.AdvanceNextLevel | Assets/Scripts/GameManager.cs:305-313 | when the invoke fires the scene reloads, and the score is kept |
| Game.GameManager.NextLevel | Assets/Scripts/GameManager.cs:308-313 | the scene reloads and the persistent score keeps the score |
| Game.GameManager.AdvanceRestart | Assets/Scripts/GameManager.cs:327-336 | when the invoke fires the score and persistent score become 0 and the scene reloads |
| Game.GameManager.RestartGame | Assets/Scripts/GameManager.cs:330-336 | score and persistent score are 0 and the scene reloads |
| Pellets.Classify | Assets/Scripts/AutoPelletSwapner.cs:93-108 | an eligible cell gets a power pellet iff it is a power position and the power prefab is assigned, else a pellet, at that cell |
| Pellets.PowerCount | Assets/Scripts/AutoPelletSwapner.cs:100 | the number of power pellets among the items, at most their number |
| Pellets.PowerCountAppend | Assets/Scripts/AutoPelletSwapner.cs:100 | power pellets of two runs add up |
| Pellets.LayoutIsExactlyTheEligibleCells | Assets/Scripts/AutoPelletSwapner.cs:66-111 | every item lies in the bounds on an eligible cell and is classified as `Classify` says. Every eligible cell in the bounds has its item, and no cell has two |
| Pellets.LayoutWithinGroundCount | Assets/Scripts/AutoPelletSwapner.cs:66-111 | a spawn pass never creates more items than there are ground tiles in the bounds |
| Pellets.NoPowerPelletsWithoutPrefab | Assets/Scripts/AutoPelletSwapner.cs:95-108 | with no power prefab or no power positions every item is a plain pellet |
| Pellets.PelletSpawner.constructor | Assets/Scripts/AutoPelletSwapner.cs:6-31 | the inspector settings and the existing children |
| Pellets.PelletSpawner.IsPowerPelletPosition | Assets/Scripts/AutoPelletSwapner.cs:116-126 | true exactly when the position is in the list |
| Pellets.PelletSpawner.IsInExclusionZone | Assets/Scripts/AutoPelletSwapner.cs:128-139 | true exactly when some centre is within the radius, and always false with no centres |
| Pellets.PelletSpawner.ClearAllPellets | Assets/Scripts/AutoPelletSwapner.cs:142-152 | no children are left |
| Pellets.PelletSpawner.SpawnAllPellets | Assets/Scripts/AutoPelletSwapner.cs:42-114 | without a ground map or pellet prefab nothing happens and nothing is cleared. Otherwise the children become the old ones (or none when clearing) followed by the layout, and the counts are its pellets and power pellets |
| Pellets.PelletSpawner.SpawnLayout | Assets/Scripts/AutoPelletSwapner.cs:66-111 | the nested loops append exactly the layout; pellets + power pellets = the number of eligible cells |
| Pellets.PelletSpawner.SpawnColumn | Assets/Scripts/AutoPelletSwapner.cs:70-110 | the inner loop appends column x's items in row order and updates the counts |
| Pellets.PelletSpawner.SpawnCell | Assets/Scripts/AutoPelletSwapner.cs:72-108 | a cell is skipped unless it is eligible; an eligible cell gets exactly its classified item, counted as a pellet or a power pellet |
| Pellets.PelletSpawner.CountGroundTiles | Assets/Scripts/AutoPelletSwapner.cs:155-179 | the number of ground cells in the bounds, or nothing without a ground map |
| Teleport.Decayed | Assets/Scripts/Teleporter.cs:19-39 | no key is added; an entry stays iff its value minus dt is positive; each remaining entry is its old value minus dt |
| Teleport.DecayComposes | Assets/Scripts/Teleporter.cs:19-39 | two frames of dt1 and dt2 leave the table one frame of dt1 + dt2 leaves |
| Teleport.DecrementAll | Assets/Scripts/Teleporter.cs:22-32 | every entry loses dt, and the objects listed for removal are exactly those whose entry reached zero or below |
| Teleport.RemoveAll | Assets/Scripts/Teleporter.cs:34-38 | the table loses exactly the listed entries |
| Teleport.CooldownWindow | Assets/Scripts/Teleporter.cs:46-49 | an object given cooldown c is refused for any elapsed time under c, and its entry is gone once c has elapsed |
| Teleport.UpdateAsWritten | Assets/Scripts/Teleporter.cs:23-31 | one frame as the enumeration actually runs: the table keeps its length and its objects, only the first entry loses dt, and no entry is removed |
| Teleport.NonHeadCooldownNeverDecreases | Assets/Scripts/Teleporter.cs:18-39 | as written, every entry after the first keeps its value over any run of frames: its cooldown never runs down |
| Teleport.CooldownExpiresOverFrames | Assets/Scripts/Teleporter.cs:18-39 | as corrected, any run of non-negative frames leaves the table exactly as one frame of the run's total time would |
| Teleport.CooldownGoneAfterItsTime | Assets/Scripts/Teleporter.cs:27-38 | as corrected, an entry is removed once the frames have lasted its cooldown |
| Teleport.SecondObjectLockedOut | Assets/Scripts/Teleporter.cs:23-31 | a player entered first, then another object, both on cooldown c: as written the second entry stays at c for ever, so that object is refused for ever; as corrected it is gone once c has elapsed |
| Teleport.LandingBesideDestination | Assets/Scripts/Teleporter.cs:68-73 | when `normalize` behaves as Vector3.normalized, the object lands exactly offset units from the destination on the ray toward this teleporter, or on the destination when the two coincide |
| Teleport.Body.constructor | Assets/Scripts/Teleporter.cs:43 | an object with its tag and position |
| Teleport.Teleporter.constructor | Assets/Scripts/Teleporter.cs:6-17 | the settings, no destination and an empty cooldown table |
| Teleport.Teleporter.Update | Assets/Scripts/Teleporter.cs:19-39 | the table becomes `Decayed` of the old one; the destination is untouched |
| Teleport.Teleporter.OnTriggerEnter2D | Assets/Scripts/Teleporter.cs:41-61 | an object on positive cooldown, or that is neither the player nor an allowed ghost, changes nothing. Any other object is teleported, and the destination teleporter's own destination is unchanged |
| Teleport.Teleporter.TeleportObject | Assets/Scripts/Teleporter.cs:63-91 | with a destination, the object lands beside it and gets the cooldown here and on a destination teleporter, other entries unchanged, and both teleporters keep their destinations; without one nothing changes |

## Left out

- Presentation is not modelled: sprite colours and the blink, `UpdateVisuals`, message texts, sounds, the score and lives texts, Gizmos and `Debug.Log`.
- Engine queries are inputs. Ray casts become a `Blocked` predicate; `FindGameObjectWithTag` and `FindObjectsByType` become sequences and options passed in.
- `GetComponent`, `Instantiate`, `Destroy` and `DestroyImmediate` are not modelled as engine calls. `Instantiate` becomes appending to the spawner's children and `DestroyImmediate` becomes removal from them. `Destroy` of an eaten pellet becomes clearing its `alive` flag; the spawner's items and the pellet objects Pac-Man touches are not linked.
- Floating point is not modelled: every quantity is an exact real, and every count an unbounded integer with no 32-bit overflow.
- `Vector2.Distance` in the direction choice is the `Metric` parameter. Its properties hold for any metric.
- `Vector3.normalized` in the teleport is the `normalize` parameter; `Teleport.Normalizes` states what the landing lemma assumes of it. `Vector2.MoveTowards` in `ReturnToHome` is the `step` parameter.
- `Random.Range` values are parameters. The random directions must be cardinals, as `GetRandomDirection` returns; the jitter may be any value, not only one in `[-2, 2]`.
- Keyboard polling is the set of keys pressed this frame.
- Frame timing: a `WaitForSeconds` or `Invoke` is modelled as finishing in the first frame whose accumulated time reaches the wait. Unity's exact frame quantisation is not modelled.
- Game.GameManager.ReleaseGhosts: a second release pass replaces the queue of a pass still running; in the engine both coroutines would run side by side.
- Ghosts.Ghost.EnableMovement: it restarts the single modelled mode switcher. In the engine each call starts one more `ModeSwitcher` coroutine beside any still running.
- The `ghostReleaseDelay` field that the release writes into each ghost is not modelled; nothing in the core reads it.
- A second `Invoke` of `NextLevel` or `RestartGame` before the first fires is not modelled: the first reloads the scene.
- The singleton check in `Awake`, which destroys a duplicate `GameManager`, is not modelled. So is a missing `PacManController` component on the player object.
- The unused `RespawnAfterDelay` coroutine is not modelled.
- `AutoPelletSpawner.Start` and `spawnOnStart` only call `SpawnAllPellets`, which is modelled.
- Spawned items' world positions (`GetCellCenterWorld`) and object names are not modelled; items are identified by their cells.
- A null `exclusionCenters` array, which would throw, is modelled as an empty list.
- Teleport.Teleporter.Update: models the evidently intended frame, every entry decremented and the expired ones removed, not the enumeration failure of the source; the behaviour as written and its consequence are under "## Findings". The table is worked on as a local map and stored at the end.
- Game objects are `Teleport.Body` references; a teleporter's destination is an `Exit` value naming another teleporter or a plain point.
- Menus, the pause screen and the audio manager are not part of this model. Scene loading is the `reloadRequested` flag.

## Findings

| source | as written | input that shows it | evidently intended | confidence | as-written member | corrected member |
|---|---|---|---|---|---|---|
| Assets/Scripts/Teleporter.cs:23-31 | `Update` writes `cooldowns[kvp.Key]` inside `foreach (var kvp in cooldowns)`. On the Mono class library the indexer write changes the dictionary's version, so the enumerator's next step throws: each frame only the first entry is lowered and the removal loop never runs. Entries are never removed, so the first entry stays first, and every later entry keeps its full cooldown for ever | the player teleports, then a ghost: the table is [player, ghost], and the ghost is refused by this teleporter and its destination however many frames pass | every entry loses the frame's time and expired entries are removed | not executed; depends on the runtime's Dictionary (newer .NET does not bump the version on an indexer write to an existing key) | Teleport.SecondObjectLockedOut | Teleport.CooldownExpiresOverFrames |
