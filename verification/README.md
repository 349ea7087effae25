# Pizza Quest: a Dafny model of the tick-driven game engine

Pizza Quest is a small tile-based adventure. A Player walks a 50 x 50 grid,
takes objects, eats a pizza slice and shoots Fireballs. Llamas wander, chase
the Player and spit Spitballs. A Rat roams. A Vortex spins and ends the level.
Everything that acts is driven by one `EventQueue`: a list of
`[countdown, handler]` pairs kept in ascending countdown order. One tick
(`dequeue_if_ready`) does two things:

- it fires every entry whose countdown has reached 0, including entries
  enqueued with delay 0 during that same tick;
- it then takes one off every countdown that is left.

This project models that engine as pure functions over an immutable world:

- `Grid`: directions, key bindings, map positions and terrain.
- `Entities`: objects, their capabilities and `burn`.
- `Screen`: the world record, the ordered object list and `facing_object` / `on_object`.
- `Movement`: `Character.move` and `Player.move`.
- `Combat`: `Llama.hit`, `Player.hit` and the barricade door.
- `Projectiles`: Fireballs and Spitballs.
- `LlamaAI`: the Llama's three intelligence tiers.
- `PlayerActions`: `shoot`, `take` and `interact`.
- `Events`: the Vortex, the Rat, input polling, dispatch, whole ticks and the level-0 set-up.
- `EventQueue`: the queue itself, generic in the state and the handler.

Three smaller modules cover the same engine's other copies:

- `Olredux`: the earlier olredux.py engine, where every object blocks and tiles are 24 pixels.
- `MoreBlarg`: the EventQueue of more_blarg.py.
- `TurningTheArrow`: the EventQueue of turning_the_arrow.py.

Modelling choices:

- **Handlers.** Each event handler returns the new world together with the
  queue entries it registered, in order. Firing is a parameter of the
  generic queue.
- **Bounded draining.** `Drain` takes a `fuel` bound on the number of
  firings, because the Python `while self.ready()` loop need not end.
- **Random draws** (`random.randrange`, `random.choice`) become explicit
  `Rolls` arguments.
- **Key presses** become a stream of `Stimulus` values that a `Game` consumes.
- **Level data.** The level's tile codes and its UNWALKABLES / FLAMMABLES
  sets are a `Terrain` parameter.
- **Ending the game.** `exit(0)` on quitting or dying becomes the `quit` /
  `lost` flag of the world. Once it is set, no event changes anything.

Where the program's stated design and its code disagree, the model follows
the code:

- `move_towards_player` picks at random among the axes whose offset is
  non-zero, not the larger one (pizza_quest.py:682-699).
- `shoot_at_player` does not test that the Llama faces the Player: it spits
  in whatever direction the Llama faces, whenever the Player is within range
  on both axes and nothing blocks the cell ahead (pizza_quest.py:735-768).
- `dequeue_if_ready` fires entries enqueued with delay 0 during a drain in
  that same tick, because `ready()` is evaluated again after each firing.

One place departs from the code on purpose: the barricade sweep of
`Llama.hit` (pizza_quest.py:623-625). The code removes objects from `_things`
while it iterates over it, so it can skip a door (see "## Findings").
`Combat.LlamaHit`, and with it every Fireball hit and every tick of the game,
uses the corrected sweep. `Combat.LlamaHitAsWritten` is the hit as the code
runs it. `Combat.LlamaHitAsWrittenAgrees` proves that the two leave the same
world unless two barricade doors are adjacent in `_things`.

## Model

| member | source | states |
|---|---|---|
| Grid.DirectionOf | pizza_quest.py:1249-1254 | `DIRECTIONS` maps a unit offset back to the direction whose offset it is, and has no entry for any other offset |
| Grid.DirectionsInvertsMove | pizza_quest.py:1238-1254 | looking up the offset of any direction in `DIRECTIONS` gives that direction back |
| Grid.DeltaInjective | pizza_quest.py:1238-1247 | distinct directions have distinct unit offsets |
| Grid.Sign | pizza_quest.py:1310-1311 | `sign` is -1, 0 or 1, is 0 exactly for 0, and `sign(x) * x` is the absolute value |
| Grid.KeyCommand | pizza_quest.py:1261-1276 | the keys of `MOVE` (arrows and a/d/w/s) and only they walk, each in its direction; 'q' quits, 'f' takes, 'e' interacts, 'space' shoots, any other key does nothing |
| Grid.Pos | pizza_quest.py:1031-1032 | `_pos` maps every on-map cell to an index of the 2500-cell map |
| Grid.PosInjective | pizza_quest.py:1031-1032 | two on-map cells have the same `_pos` index exactly when they are the same cell |
| Grid.IndToPosInvertsPos | pizza_quest.py:1038-1041 | `ind_to_pos` of `_pos(x, y)` is the pixel position `(x * TILE_SIZE, y * TILE_SIZE)` |
| Grid.PosInvertsIndToPos | pizza_quest.py:1031-1041 | every map index is `_pos` of an on-map cell, and `ind_to_pos` returns that cell scaled by the tile size |
| Grid.Scorch | pizza_quest.py:360-371 | a scorched flammable tile becomes code 0, and every other tile and both code sets stay as they were |
| Entities.Burn | pizza_quest.py:199-221 | a burnt object becomes walkable, not takable, not flammable and burnt; its name gains "'s ashes" and its description "what used to be "; its position, kind and facing stay |
| Entities.BurnFlagsIdempotent | pizza_quest.py:212-217 | burning twice leaves the capability flags as one burn does, but the name grows again, so `burn` is not idempotent |
| Screen.ObjectAt | pizza_quest.py:152-173 | the object found at a cell is the first object in `_things` order standing there, and None means no object stands there |
| Screen.ScanObjectAt | pizza_quest.py:152-162 | the `for thing in _things` scan returns the same object as the first-match definition |
| Screen.OnObjectFindsSelfOrEarlier | pizza_quest.py:164-173 | `on_object` of an object on the map always finds something; it finds the object itself exactly when no earlier object in `_things` shares its cell |
| Screen.Remove | pizza_quest.py:1125-1127 | `list.remove` takes away one occurrence of the id; where Python raises ValueError for an absent id, the model leaves the list alone |
| Screen.RemoveAt | pizza_quest.py:1125-1127 | `list.remove` removes the first occurrence, keeping the order of everything else |
| Screen.Add | pizza_quest.py:1111-1123 | `Screen.add` appends the object to `_things`, and also to `initial_llamas` exactly when it is a Llama; nothing else changes |
| Screen.Delete | pizza_quest.py:1125-1127 | `Screen.delete` takes the object off the map, and the world stays well formed |
| Screen.Spawn | pizza_quest.py:175-188 | materializing a new object appends it to the objects and to `_things`, and to `initial_llamas` when it is a Llama |
| Screen.AddThenDelete | pizza_quest.py:1111-1127 | deleting an object just added gives the original `_things` back |
| Movement.Step | pizza_quest.py:553-584 | a character moves one cell in the given direction exactly when the target is on the map, its tile is walkable and no solid object stands there; otherwise the world is unchanged |
| Movement.PlayerMoveCases | pizza_quest.py:897-940 | a key in a new direction only turns the Player; in the faced direction, the border, an UNWALKABLE tile or a solid object stops it, and otherwise it steps one cell |
| Movement.LlamaMoveCases | pizza_quest.py:660-679 | a Llama told to move in a new direction only turns; in the direction it faces it takes a plain character step |
| Movement.MoveIsUnitStep | pizza_quest.py:553-584 | any character move ends on the start cell or on the one cell ahead in the given direction |
| Movement.StepKeepsExclusive | pizza_quest.py:553-584 | walking never puts two solid objects on one cell |
| Movement.MovesKeepExclusive | pizza_quest.py:897-940 | character and Player moves both keep solid objects on distinct cells |
| Movement.TurnKeepsExclusive | pizza_quest.py:546-551 | turning in place keeps solid objects on distinct cells |
| Combat.WithoutBarricadesMembers | pizza_quest.py:623-625 | after the barricade sweep, an object is in the list exactly when it was there and is not a barricade door |
| Combat.RemoveBarricades | pizza_quest.py:622-625 | the sweep removes every barricade door and only barricade doors; the other objects stay in `_things` in their order (the order-keeping filter `WithoutBarricades`), and the rest of the world is kept |
| Combat.SweepAsWrittenSkipsAdjacent | pizza_quest.py:623-625 | the sweep as written, removing from `_things` while iterating over it, leaves the second of two adjacent barricade doors in place |
| Combat.SweepAsWrittenAgrees | pizza_quest.py:623-625 | when no two barricade doors are adjacent in `_things`, the sweep as written removes exactly the barricade doors |
| Combat.Wound | pizza_quest.py:615-621 | a hit takes `power + 1` health from the Llama only; at 0 or below the Llama is burnt (flags, name and description) and appended to the dead Llamas, and `_things` is untouched |
| Combat.LlamaHit | pizza_quest.py:615-625 | a hit takes `power + 1` health; at 0 or below the Llama is recorded dead and burnt exactly as `burn` does; when every initial Llama is dead, the barricade doors and only they leave the map, with the corrected sweep, and the other objects keep their order in `_things` |
| Combat.LlamaHitAsWritten | pizza_quest.py:615-625 | the hit with the sweep as the code runs it differs from `LlamaHit` only in `_things`, never grows it, and is the same world whenever the sweep does not run |
| Combat.LlamaHitAsWrittenAgrees | pizza_quest.py:615-625 | when no two barricade doors are adjacent in `_things`, the hit as written and the corrected hit leave the same world |
| Combat.LlamaHitAsWrittenKeepsSecondDoor | pizza_quest.py:619-625 | with `_things` two adjacent barricade doors and a death that completes the dead Llamas, the code keeps the second door while the corrected hit removes both |
| Combat.BarricadesOpenOnlyWhenAllDead | pizza_quest.py:619-625 | a barricade door leaves the map on a hit exactly when that hit kills the Llama and the dead Llamas then include every initial Llama |
| Combat.PlayerHit | pizza_quest.py:865-872 | a hit takes `power + 1` from the Player's health only, and the game is lost exactly when health drops to 0 or below |
| Projectiles.AtBorderIffLeaving | pizza_quest.py:277-289 | the border tests of `move_or_stop` hold exactly when the cell ahead is off the map |
| Projectiles.FireballStopReason | pizza_quest.py:272-334 | each stop reason holds exactly when its test is the first of the border, blocking-tile-ahead, FLAMMABLE-tile-underneath, blocking-object-ahead, live-Llama-underneath and flammable-object-underneath tests to hold, and the Fireball flies on exactly when none holds; it is never stopped for lying on the Player |
| Projectiles.SpitballStopReason | pizza_quest.py:391-442 | each stop reason holds exactly when its test is the first of the border, UNWALKABLE-tile, solid-non-Player-object-ahead and Player-underneath tests to hold, and the Spitball flies on exactly when none holds |
| Projectiles.FireballActsOn | pizza_quest.py:349-371 | a stopping Fireball does nothing to ashes; otherwise it burns a flammable object, or else hits a Llama exactly as `LlamaHit` with its power, or else turns a FLAMMABLE tile underneath into code 0, or else changes nothing |
| Projectiles.FireballEffect | pizza_quest.py:349-374 | the same effect on the object `on_object` finds, and no effect when it finds none |
| Projectiles.FireballStop | pizza_quest.py:349-377 | a stopped Fireball has range 0 and has left the map; every other object, the terrain, `_things` apart from the Fireball and the Llama lists are those the Fireball's effect leaves |
| Projectiles.FireballStopCases | pizza_quest.py:349-377 | `on_object` finds the Fireball itself exactly when no earlier object shares its cell; a flammable object found is burnt; ashes leave the terrain alone |
| Projectiles.SpitballStop | pizza_quest.py:444-454 | a stopping Spitball hits the Player underneath for `power + 1` and the game is lost exactly when health drops to 0 or below; otherwise the Player is untouched; no other object changes, and the Spitball leaves `_things` unless the hit lost the game |
| Projectiles.SpitballLands | pizza_quest.py:446-454 | the hit and removal of `Spitball.stop` with the range already 0: the Player takes `power + 1` only when the Spitball lies on it, and the Spitball leaves `_things` unless that ends the game |
| Projectiles.Advance | pizza_quest.py:322-334 | flying on moves the projectile one cell ahead with one less range, and changes nothing else |
| Projectiles.ProjectileEvent | pizza_quest.py:252-262 | a projectile event keeps the projectile's kind, facing, speed and power, and registers again with its own frequency or not at all |
| Projectiles.ProjectileEventCases | pizza_quest.py:252-334 | the projectile re-registers exactly when range is left and no stop test fires, and then it has advanced one cell; otherwise it has range 0, has not moved, and is off the map unless the game is lost |
| Projectiles.FireballAdvanceIsSafe | pizza_quest.py:272-334 | a Fireball that flies on lands on the map, on a tile that is not UNWALKABLE-unless-FLAMMABLE, and was not on a FLAMMABLE tile |
| Projectiles.FireballStopsOnFlammableTile | pizza_quest.py:298-302 | a Fireball on a FLAMMABLE tile stops where it is, even with range left |
| Projectiles.Flight | pizza_quest.py:252-334 | `n` unobstructed events carry a projectile `n` cells along its facing and take `n` off its range |
| Projectiles.UnobstructedEventAdvances | pizza_quest.py:252-262 | on an unobstructed path an event advances the projectile and re-registers it with its frequency |
| Projectiles.FlightThenStop | pizza_quest.py:252-334 | a projectile with range `n` on an unobstructed path flies exactly `n` cells and then stops on the next event, leaving the map |
| LlamaAI.FacingTowards | pizza_quest.py:702-732 | a Llama faces horizontally exactly when the Player is strictly farther away horizontally than vertically, and the faced direction points along the larger offset |
| LlamaAI.FacingTowardsIsBest | pizza_quest.py:702-732 | no direction points more towards the Player than the one `face_player` picks |
| LlamaAI.FacePlayer | pizza_quest.py:702-732 | `face_player` only changes the Llama's facing |
| LlamaAI.TowardsStep | pizza_quest.py:682-699 | the chase steps only when the Player is within 7 cells on both axes and not on the Llama; the step is one of the per-axis choices and brings the Llama one cell closer in Manhattan distance |
| LlamaAI.TowardsStepChoices | pizza_quest.py:691-699 | the choices are the horizontal sign step first, then the vertical one |
| LlamaAI.ChaseNeverRecedes | pizza_quest.py:682-699 | after `move_towards_player` the Llama is never farther from the Player |
| LlamaAI.SpitGuardsMatchSpitball | pizza_quest.py:735-763 | a Llama can spit exactly when the Player is within range on both axes and a Spitball in the Llama's place would be stopped by none of the border, blocking-tile and blocking-object tests; it then either flies on or stops on the Player |
| LlamaAI.ShootAtPlayer | pizza_quest.py:735-768 | a Spitball with range 2 and power 0 appears ahead of the Llama, registered every 15 ticks, exactly when the Player is within range and nothing blocks; otherwise nothing changes |
| LlamaAI.Wander | pizza_quest.py:641-645 | an average Llama moves in the drawn direction (a Llama move, which may only turn it) exactly when the drawn cell stays within the wander range of its anchor, and otherwise does nothing; only the Llama's cell or facing changes |
| LlamaAI.MoveTowardsPlayer | pizza_quest.py:682-699 | `move_towards_player` makes a Llama move in the step the chase picks when there is one, and does nothing otherwise; only the Llama changes |
| LlamaAI.LlamaMoves | pizza_quest.py:631-653 | the first-roll move of each tier: a dumb Llama faces the Player, an average one wanders in the drawn direction, a smart one chases the Player; only the Llama changes, never its class state or frequency |
| LlamaAI.LlamaAct | pizza_quest.py:631-655 | on the first roll a Llama of tier 0 to 2 makes its tier's move and registers nothing; failing that, on the second roll it runs `shoot_at_player`; with neither roll, or an unknown tier, nothing happens. Its health and frequency are kept, no other object, the terrain or the Llama lists change, and at most one Spitball is spawned and registered |
| LlamaAI.LlamaEvent | pizza_quest.py:627-658 | a burnt Llama does nothing and drops out of the queue; a live one performs its tier's action and then re-registers with its frequency, after at most one Spitball, which is the only addition to `_things`; no other object, the terrain or the Llama lists change |
| LlamaAI.WanderStaysNearAnchor | pizza_quest.py:638-645 | a wandering Llama that starts within 7 cells of its anchor stays within 7 cells |
| LlamaAI.DumbLlamaStaysPut | pizza_quest.py:631-637 | a Llama of intelligence 0 never changes cell |
| LlamaAI.DumbLlamaFacesPlayer | pizza_quest.py:631-635 | a live dumb Llama whose first roll comes up turns to face the Player, changes nothing else about itself and only re-registers |
| LlamaAI.AverageLlamaWanders | pizza_quest.py:638-645 | a live average Llama whose first roll comes up, with the drawn cell within its wander range, turns to the drawn direction when facing another way; facing it, it steps into the drawn cell exactly when that cell can be entered |
| LlamaAI.SmartLlamaChases | pizza_quest.py:648-653 | a live smart Llama whose first roll comes up, already facing the chase's step and able to enter the cell, ends exactly one cell closer to the Player |
| LlamaAI.LlamaSpits | pizza_quest.py:634-658 | a live Llama whose first roll fails and second comes up spawns the Spitball ahead of it, registered before its own re-registration, when the spit guards pass; otherwise it only re-registers |
| PlayerActions.Shoot | pizza_quest.py:874-895 | a Fireball with the Player's range and power appears ahead, facing the Player's way, with the Player's fireball speed as its frequency and registered with it, exactly when the cell ahead is on the map and not blocked; nothing else in the world changes, and without a shot nothing changes at all |
| PlayerActions.ShootGuardsMatchFireball | pizza_quest.py:874-895 | the Player can shoot exactly when a Fireball in the Player's place would not be stopped by the border, a blocking tile or a blocking object ahead |
| PlayerActions.Take | pizza_quest.py:942-958 | a takable object ahead goes to the end of the inventory and leaves `_things` by `list.remove`, the other objects keeping their order; the Player's other statistics and the rest of the world are unchanged; anything else changes nothing |
| PlayerActions.TakeConserves | pizza_quest.py:942-958 | taking moves an object from the map into the inventory: the two together hold the same objects |
| PlayerActions.Fed | pizza_quest.py:966-982 | eating gives one more maximum health, heals to it, and makes Fireballs one stronger, two cells longer and three ticks faster |
| PlayerActions.EatPizza | pizza_quest.py:966-986 | the slice leaves `_things` by `list.remove`, the Player gains one maximum health and is healed to it, one fireball power, two range and three ticks of speed, and one Vortex enters play at (48, 48) registered every 20 ticks; every other object, the terrain, the Llama lists and the flags are unchanged |
| PlayerActions.InteractCases | pizza_quest.py:960-991 | eating the pizza removes it, feeds the Player and spawns one Vortex at (48, 48) every 20 ticks, leaving every other object, the terrain, the Llama lists and the flags alone; the Vortex ends the level; anything else changes nothing |
| PlayerActions.DoneOnlyThroughVortex | pizza_quest.py:960-991 | only the Vortex ends the level, and an eaten pizza slice is never the object ahead again |
| Events.VortexEvent | pizza_quest.py:497-521 | a Vortex event changes only the Vortex's state and re-registers it with its frequency |
| Events.VortexCycles | pizza_quest.py:501 | the Vortex state stays in 0..3 and changes on every event, and four events give back the same world |
| Events.RatEvent | pizza_quest.py:795-814 | a burnt Rat does nothing and drops out of the queue; otherwise it re-registers with its frequency and, exactly when the restlessness roll comes up, takes a plain step in the drawn direction |
| Events.RatStepsAtMostOnce | pizza_quest.py:795-814 | a Rat event moves the Rat at most one cell, and only when its restlessness roll comes up |
| Events.InputEvent | pizza_quest.py:1261-1276 | 'q' quits without re-polling; every other key is followed by a re-poll one tick later, and an unbound key changes nothing else |
| Events.Perform | pizza_quest.py:1261-1276 | Quit sets the quit flag and registers nothing; a move command moves the Player, Take takes, Interact interacts and Shoot shoots, each with its world and its registrations followed by the re-poll, and no command changes nothing but re-polls |
| Events.InputReachesAction | pizza_quest.py:1261-1276 | movement keys move the Player, 'f' takes, 'e' interacts and 'space' shoots, each with its whole outcome, followed by the re-poll |
| Events.Dispatch | pizza_quest.py:855-863 | once the game is lost or quit no event changes anything, and every event keeps the world well formed |
| Events.TickKeepsValid | pizza_quest.py:1226-1232 | a whole tick of the game keeps the world well formed |
| Events.GameOverIsFinal | pizza_quest.py:855-863 | once the game is lost or quit, a tick leaves the world as it is |
| Events.Level0Valid | pizza_quest.py:1324-1353 | the level-0 set-up is a well-formed world |
| Events.Level0QueueStarts | pizza_quest.py:1344-1353 | level 0 starts with the input poll first, then the two Llamas in registration order, in a sorted queue |
| Events.Level0Barricade | pizza_quest.py:1337-1345 | in level 0 the dumb Llama's death leaves the barricade door; the smart Llama survives one power-1 hit with the door still there, and its death on the second removes the door and keeps the wooden door |
| Events.TwoLlamasOpenFortressLater | pizza_quest.py:615-625 | in a level whose initial Llamas are two, the second of which survives one hit, a barricade door stays through that hit and leaves play, with every other object staying, when the second Llama burns |
| Events.FirstOfTwoDies | pizza_quest.py:615-625 | the first of two initial Llamas to die is recorded dead and burns, and `_things`, the doors and the other Llama are left alone |
| Events.SurvivedHit | pizza_quest.py:615-618 | a hit the Llama survives takes `power + 1` health and leaves `_things`, the Llama lists and the doors alone |
| Events.LastDeathOpens | pizza_quest.py:615-625 | the death that completes the dead Llamas burns the Llama and removes a barricade door while every other object stays |
| Events.TwoLlamasOpenFortress | pizza_quest.py:615-625 | in a level whose initial Llamas are two, a barricade door stays while either lives and leaves play, with every other object staying, once both have burnt |
| EventQueue.InsertionPoint | pizza_quest.py:1212-1218 | `enqueue` inserts before the first entry due strictly later, after every entry before it |
| EventQueue.InsertionPointUnique | pizza_quest.py:1212-1218 | that insertion point is the only index with those two properties |
| EventQueue.Enqueue | pizza_quest.py:1212-1218 | `enqueue` adds exactly the one new entry: the multiset of entries grows by it |
| EventQueue.EnqueueShape | pizza_quest.py:1212-1218 | entries before the insertion point stay put, the new entry sits there, and the rest shift by one |
| EventQueue.EnqueueScan | pizza_quest.py:1212-1218 | the `for ... else` scan builds the same queue as the insertion-point definition |
| EventQueue.EnqueueKeepsSorted | pizza_quest.py:1212-1218 | enqueue keeps a sorted queue sorted |
| EventQueue.EnqueueAfterTies | pizza_quest.py:1214 | a new entry goes after every entry with the same countdown |
| EventQueue.TiesFireInInsertionOrder | pizza_quest.py:1214 | two entries enqueued with the same delay keep their enqueue order |
| EventQueue.EnqueueFront | pizza_quest.py:1213-1216 | an entry due sooner than the head becomes the new head |
| EventQueue.EnqueueBack | pizza_quest.py:1217-1218 | an entry due no sooner than the last goes at the end |
| EventQueue.TiedPair | pizza_quest.py:1212-1218 | two entries enqueued with the same delay into an empty queue stand in enqueue order |
| EventQueue.TiedThenSooner | pizza_quest.py:1212-1218 | two tied entries then a sooner one give the sooner one first, then the tied ones in order |
| EventQueue.TiedThenSoonerOrdered | pizza_quest.py:1212-1218 | the queue those three enqueues leave is sorted, and has no negative countdown when the delays are not negative |
| EventQueue.ReadyIffSomeDue | pizza_quest.py:1220-1224 | in a sorted queue without negative countdowns, `ready` holds exactly when some entry is due |
| EventQueue.EnqueueAllPermutes | pizza_quest.py:1226-1232 | enqueueing a handler's registrations adds exactly those entries |
| EventQueue.Drain | pizza_quest.py:1226-1230 | a finished drain leaves a queue that is not ready, fires the head first when the queue was ready, and fires nothing otherwise |
| EventQueue.DrainStep | pizza_quest.py:1228-1230 | one loop step pops and fires the head, then carries on with the rest plus what the handler enqueued |
| EventQueue.DequeueIfReady | pizza_quest.py:1226-1232 | a tick is the drain followed by taking one off every countdown left |
| EventQueue.DrainKeepsOrder | pizza_quest.py:1226-1230 | draining keeps the queue sorted and without negative countdowns |
| EventQueue.TickKeepsOrder | pizza_quest.py:1226-1232 | a whole tick keeps the queue sorted and without negative countdowns |
| EventQueue.PopEnqueueKeepsDueHead | pizza_quest.py:1226-1230 | popping a due head and enqueueing registrations that all wait at least one tick keeps the queue sorted and leaves the rest of the due entries at its front, one fewer |
| EventQueue.DrainFiresDueHead | pizza_quest.py:1226-1232 | when handlers only register for later ticks, a tick fires exactly the entries due at its start, in order |
| EventQueue.DrainStepKeeps | pizza_quest.py:1226-1230 | an entry still waiting behind the fired head, or just enqueued by its handler, is in the queue the drain carries on with, which stays sorted, and the drain fires the head before the rest |
| EventQueue.DueEntriesFire | pizza_quest.py:1226-1230 | every entry due when a drain starts is fired by it |
| EventQueue.ZeroDelayFiresSameTick | pizza_quest.py:1228-1230 | an entry enqueued with delay 0 during a drain fires in that same tick |
| EventQueue.DrainPreserves | pizza_quest.py:1226-1230 | a property of the state that every handler keeps is kept by a whole drain |
| EventQueue.ScheduleExample | pizza_quest.py:1207-1232 | `enqueue(3, A)` then `enqueue(1, B)`: B fires on the second tick, A on the fourth, and no other tick fires anything |
| Olredux.BlockedIffOccupied | olredux.py:128-129 | in olredux no object is walkable, so a cell is blocked exactly when some object stands on it |
| Olredux.CharacterMoveBlockedByAnyObject | olredux.py:181-208 | a character stays put exactly when the target is off the map, a tree, or holds any object; otherwise it moves one cell |
| Olredux.PlayerMoveOnlyTurnsOrSteps | olredux.py:315-359 | a new direction only turns the Player; the Player walks exactly when the target is on the map, not a tree and empty |
| Olredux.TakeAppends | olredux.py:374-390 | the inventory grows by one exactly when the object ahead is takable, and that object leaves the map |
| Olredux.RatEvent | olredux.py:258-266 | the olredux Rat, having no ashes, always re-registers with its frequency and moves nothing but itself |
| Olredux.RatEventIsUnitStep | olredux.py:258-270 | an olredux Rat event moves the Rat at most one cell |
| Olredux.IndToPosRoundTrip | olredux.py:452-462 | olredux `ind_to_pos` of `_pos(x, y)` is `(x * 24, y * 24)` |
| Olredux.EnqueueSortedFifo | olredux.py:580-586 | olredux `enqueue` adds one entry, keeps the queue sorted, and goes after entries due no later and before entries due later |
| Olredux.DequeueFiresDueThenDecrements | olredux.py:594-600 | when handlers register only for later ticks, olredux `dequeue_if_ready` fires exactly the due entries in order, then counts every other entry down by one |
| MoreBlarg.EnqueueTiesAdjacent | more_blarg.py:41-47 | two enqueues with the same delay leave the two entries side by side, in enqueue order, where the first alone would have gone |
| MoreBlarg.EnqueueDistinctCommute | more_blarg.py:41-47 | two enqueues with different delays give the same queue in either order |
| TurningTheArrow.WaitingTicksOnlyCountDown | turning_the_arrow.py:49-61 | while the head is not due, ticks fire nothing and take exactly one off every countdown each |
| TurningTheArrow.HeadDueAfterItsCountdown | turning_the_arrow.py:49-61 | a head entry with countdown `d` becomes ready after exactly `d` ticks, and no earlier |

## Left out

- Graphics, sprites, the viewport, the side panel, `show_text`, `log`, `time.sleep`
  and window input: they draw or wait, and do not change the game state.
  Key presses are a parameter.
- `exit(0)` on quitting or dying: it is modelled as the `quit` and `lost` flags.
  Dispatch ignores every event once either is set.
- `random.randrange` and `random.choice` are explicit `Rolls` arguments. The
  distribution of the draws is not modelled.
- The level map `lvl.LEVELS` and the UNWALKABLES / FLAMMABLES tables are a
  `Terrain` parameter. Their actual contents are not part of this model.
- The Fireball sprite is chosen by `imgs[power]`, and `imgs` has two entries
  (pizza_quest.py:339-343). Each pizza slice adds 1 to the power
  (pizza_quest.py:975), so the lookup fails from power 2, the second slice on.
  That is sprite loading, outside this model.
- `fbSpeed` is not clamped. After four pizza slices it becomes negative. A
  Fireball registered with a negative delay sits at the head of the queue with
  a countdown below 0. Nothing ever removes that entry, so `ready` stays false
  forever and the whole game freezes, the input poll included
  (pizza_quest.py:1212-1232). The model represents this faithfully, but the
  order lemmas require non-negative delays.
- Combat.LlamaHit uses the corrected barricade sweep, not the one the code
  runs, so it promises that every barricade door leaves play where the code
  can leave one in place. `Combat.LlamaHitAsWritten` models the code, and
  `Combat.LlamaHitAsWrittenAgrees` shows the two agree unless two doors are
  adjacent in `_things`. Level 0 has a single barricade door, so there the two
  agree.
- `Projectiles.FireballEffect` and `Projectiles.FireballStop` state the
  Fireball's own fields through `Moves` (kind, position, facing, frequency)
  rather than full entity equality. The Fireball's name and description are
  not stated.
- `Projectiles.FireballStop`: `on_object` returning nothing cannot happen for
  a Fireball on the map (it finds itself). For a Fireball already off the map
  the Python code would crash. The model treats that case as having no effect.
- Screen.Remove treats an id that is not in the list as a no-op, where
  Python's `list.remove` raises ValueError. The only place the game can reach
  that case is the off-map Fireball described under `Projectiles.FireballStop`.
- The Rat is takable in olredux, and `take` does not unregister it. A taken
  Rat's queue entry keeps firing on an object off the map, as in the code.
- `EventQueue.Drain`: `fuel` bounds the number of firings in one tick, and
  None stands for a drain that did not end within it. Handlers that keep
  re-enqueueing themselves with delay 0 make the Python loop run forever. The
  model cannot state that non-termination.
- olredux `CheckInput` and `Player.examine` only read keys and print text.
  Their movement and take actions are covered by the olredux move and take
  lemmas.
- `Olredux.RatEvent` states the registration and the frame. Its movement is
  stated by `Olredux.RatEventIsUnitStep`.

## Findings

| source | as written | input that shows it | evidently intended | confidence | as-written member | corrected member |
|---|---|---|---|---|---|---|
| pizza_quest.py:623-625 | `for thing in _things: ... thing.dematerialize()` removes from `_things` while iterating over it, so the element right after each removed door is skipped | two barricade doors adjacent in `_things` when the last initial Llama dies: the second one stays on the map | every barricade door leaves the map once every initial Llama is dead | not executed | Combat.LlamaHitAsWrittenKeepsSecondDoor | Combat.LlamaHit |
