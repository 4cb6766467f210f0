# Dice merge game: rules core

A Dafny model of the game rules in `game.js`, a browser game of falling
dice. The player holds a preview die at the top of a 400 by 600 container,
moves it with the pointer and drops it with a click. When two dice of the
same tier touch, they merge into one die of the next tier, and each merge
scores 10 points. The chain of tiers is D2, D4, D6, D8, D10, D12, D16, D20,
D100, D256, D1000. The game ends when a die that has settled, and is no
longer falling, reaches the game-over line. This can only happen more than
one second after the last drop. A reset starts a fresh round.

The physics engine is not modelled. The game sees it only as the list of
bodies in its world and as batches of contact pairs, and the model does the
same. Bodies are records with an id, a label, a position, a velocity, the top
edge of their bounding box, and a static flag. Time (`now`, in milliseconds)
and every random draw (`r` in [0, 1)) are parameters.

Modules, one file each:

- `Wrappers`: `Option`, standing in for `null`.
- `Dice`: the tier table, the successor chain, lookup of a tier by its key,
  and the starter draw.
- `World`: body labels, bodies, the piece factory `CreateDice`, removal by
  id, and the walls and sensor line.
- `State`: the session record (world, current preview, next type, score,
  active flag, last drop time, id counter) and its invariant `Valid`.
  `Valid` says ids are unique and fresh, and the current preview is the only
  preview.
- `Merge`: the collision handler, described two ways. `ResolveFrom` is the
  fold as the game runs it. `Chosen` is an independent greedy matching. The
  lemma `ResolveCharacterized` proves the two agree.
- `Controller`: pointer moves, clicks and the creation of the next preview.
- `Monitor`: the per-frame game-over check, both as a predicate and as the
  scanning loop.
- `Lifecycle`: start-up and the reset button.
- `Game`: sessions driven by sequences of events, with properties of whole
  runs.

Body labels are strings in the engine. `Label` is `Key(tier)` for a tier's
key and `Other(text)` for any other string. `LabelText` and `ParseLabel`
are proved to be inverse to each other, so comparing labels is the same as
comparing the strings.

## Model

| member | source | states |
|---|---|---|
| Dice.RankInChain | game.js:15-27 | each tier sits at its rank in the chain D2 … D1000 |
| Dice.Radius | game.js:16-26 | every tier's radius is positive and at most 90 |
| Dice.Next | game.js:16-26 | the successor is absent exactly for D1000 |
| Dice.NextRaises | game.js:16-26 | a successor is the next tier of the chain and has a strictly larger radius |
| Dice.TierOf | game.js:115-119 | the lookup returns the tier whose key is the string, or nothing when no key matches |
| Dice.TierOfName | game.js:115-119 | the lookup yields tier t exactly for the key of t |
| Dice.ClimbRaisesRank | game.js:15-27 | each step along `next` raises the rank by one |
| Dice.ClimbReachesTop | game.js:15-27 | following `next` from any tier reaches D1000 in finitely many steps |
| Dice.ChainIsAcyclic | game.js:15-27 | following `next` one or more times never returns to the starting tier |
| Dice.ClimbRaisesRadius | game.js:15-27 | the radius strictly increases along the chain, over any number of steps |
| Dice.RandomDiceType | game.js:250-255 | the starter type is one of D2, D4, D6, D8 and is a key of the table |
| Dice.RandomDiceTypeUniform | game.js:253 | entry k is picked exactly when the draw lies in [k/4, (k+1)/4) |
| World.ParseLabel | game.js:134 | parsing a label string gives a label whose text is that string; it is a tier key exactly when the lookup succeeds |
| World.ParseLabelText | game.js:134 | parsing a label's text gives the label back |
| World.LabelTextInjective | game.js:219 | two labels are equal exactly when their strings are |
| World.CreateDice | game.js:113-148 | null exactly for a type that is not a key; otherwise a dynamic body at rest at (x, y), labelled with the requested type, and with its top edge above y |
| World.RemoveIds | game.js:235 | the bodies kept are exactly those whose id is not removed |
| World.RemoveIdsCount | game.js:235 | with unique ids, removing k present ids removes exactly k bodies |
| World.RemoveIdsUnique | game.js:235 | removal keeps ids unique |
| World.Midpoint | game.js:229-232 | the merge position is equidistant from both bodies on each axis |
| World.Walls | game.js:88-111 | four static bodies that are not previews, with fresh consecutive ids; the last is the sensor line at y = 120 |
| State.CurrentBody | game.js:33 | in a valid session the current reference names a preview body in the world |
| State.AtMostOnePreview | game.js:269-273 | a valid session holds at most one preview, and none when there is no current one |
| State.PreviewCountAppend | game.js:273 | adding a body raises the preview count by one exactly when it is a preview |
| Merge.Successor | game.js:221 | a mergeable pair turns into the tier one rank higher |
| Merge.Merged | game.js:229-239 | the merged body has the successor tier, sits at the midpoint, is dynamic and at rest |
| Merge.MergeInto | game.js:229-241 | a merge removes both bodies, keeps every other body, appends only the merged body, and adds 10 to the score; nothing else changes |
| Merge.MergeableOnLabels | game.js:219-223 | a pair can merge exactly when its two label strings are equal, the table has an entry for them, and that entry has a successor |
| Merge.HandleCollision | game.js:199-247 | starting from an empty processed set, the handler never lowers the score, throws only on a non-key label, and, when equal labels are always tier keys and all ids are known, merges exactly the pairs the greedy matching picks |
| Merge.ResolveFrom | game.js:203-246 | a batch never lowers the score and changes only world, score and ids; it throws only on a label that is not a tier key |
| Merge.ChosenFacts | game.js:219-227 | every pair that merges was delivered in the batch and has equal tier labels with a successor |
| Merge.ResolveCharacterized | game.js:199-247 | the handler removes exactly the bodies of the greedily chosen pairs, appends their successors in order and scores 10 for each |
| Merge.ResolveThrows | game.js:203-221 | when pair k is the first unprocessed pair with equal labels that are not a tier key, the handler throws on that label and leaves the session after exactly the merges chosen among pairs 0 to k − 1 |
| Merge.ChosenDisjoint | game.js:201-227 | within one batch each body id takes part in at most one merge |
| Merge.ChosenMaximal | game.js:203-227 | every mergeable pair of a batch has a body that merged, and pair i merges exactly when it is mergeable and neither body merged in pairs 0 to i − 1 (or was used before), so earlier pairs win |
| Merge.SharedBodyMergesOnce | game.js:207-227 | with touching pairs (A, B) and (B, C) of one mergeable tier, only (A, B) merges |
| Merge.HandleCollisionCounts | game.js:226-241 | after a batch the score is the old score plus 10 per merge, and there is one body fewer per merge |
| Merge.NoMergeableNoChange | game.js:219-245 | pairs that cannot merge leave the world and the score untouched |
| Merge.FinalTierNeverMerges | game.js:221-223 | two D1000 dice never merge |
| Merge.WellFormedBatchAvoidsPreview | game.js:140-145 | a deliverable batch never involves the preview and only involves known ids |
| Merge.MergeKeepsValid | game.js:234-241 | a merge of two non-preview bodies keeps the session invariant |
| Merge.ResolveKeepsValid | game.js:203-246 | every batch keeps the session invariant, even when it throws midway |
| Merge.HandleCollisionKeepsValid | game.js:199-247 | the collision handler keeps the session invariant |
| Controller.Clamp | game.js:158-159 | the result never exceeds 400 − r, is at least r when the die fits, and leaves an in-range x unchanged |
| Controller.TierFits | game.js:158-159 | every tier fits across the container, so the clamp range is never empty |
| Controller.ClampNearest | game.js:158-159 | the clamped x is the point of [r, 400 − r] nearest to the pointer |
| Controller.ClampIdempotent | game.js:158-159 | clamping twice is clamping once |
| Controller.MoveTo | game.js:157-161 | a move sets the position, carries the bounding box along and changes nothing else |
| Controller.PreviewAt | game.js:156-161 | the preview goes to y = 50 and to x = min(max(x, r), 400 − r): the pointer's x when in range, r left of the range, 400 − r right of it; nothing else about the body changes |
| Controller.MouseMove | game.js:152-163 | a no-op without a preview or once the game is over; otherwise only the preview moves, to y = 50 and x = min(max(x, r), 400 − r), which is r left of the range and 400 − r right of it |
| Controller.MouseMoveKeepsValid | game.js:152-163 | a pointer move keeps the session invariant |
| Controller.MouseMoveIdempotent | game.js:152-163 | moving the pointer to the same x twice is moving it once |
| Controller.CreateNextDice | game.js:257-277 | the next type is a starter type; a preview of that type is appended at (200, 50) and becomes current; nothing else changes |
| Controller.CreateNextDiceKeepsValid | game.js:257-277 | creating a preview when there is none keeps the invariant, leaving exactly one preview |
| Controller.Click | game.js:165-195 | a no-op off the canvas, without a preview or once the game is over; otherwise the drop time becomes `now`, the score and active flag are kept, the next type is a starter type, and the new preview, whose id is the counter plus one, is current |
| Controller.ClickDrops | game.js:177-193 | a drop removes the preview, keeps every other body, adds a dynamic die with the preview's label and position, and then a new preview at (200, 50) that is current and whose label is the recorded starter next type |
| Controller.ClickKeepsValid | game.js:177-193 | a click keeps the session valid, and after a drop the world holds exactly one preview |
| Controller.Drop | game.js:179-192 | the drop takes the preview out, keeps the other bodies in order, and appends a dynamic die at rest with the preview's label and position; no preview is current, the drop time is `now`, and the body count is unchanged |
| Controller.DropKeepsValid | game.js:180-192 | swapping the preview for a dynamic die keeps the invariant and leaves no preview |
| Monitor.TriggerCondition | game.js:302-310 | a body ends the game exactly when it is dynamic, not the preview, not labelled "gameOverLine", more than 1000 ms after the last drop, slower than 0.1 on both axes, and its top edge is at or above y = 120 |
| Monitor.ScanForGameOver | game.js:297-316 | the scan reports game over exactly when some body triggers |
| Monitor.GameLoop | game.js:289-319 | an inactive game is left alone; the active flag only goes from true to false; the next frame is requested exactly while active; score and drop time are kept; an active frame leaves a current preview, and when none existed it only appends a fresh starter preview at (200, 50) and changes nothing else; within the grace period the game cannot end |
| Monitor.GameLoopEndsGame | game.js:300-313 | a frame ends an active game exactly when some non-static, non-preview, non-sensor body is settled with its top edge at or above the line after the grace period |
| Monitor.GameLoopKeepsValid | game.js:289-295 | a frame keeps the invariant, with exactly one preview while active |
| Monitor.PassiveBodiesNeverTrigger | game.js:302-305 | neither the preview nor the sensor line ends the game, and nothing does at exactly 1000 ms after a drop |
| Monitor.LineIsInclusive | game.js:305-310 | a settled die whose top edge is exactly on the line triggers exactly when the grace period is over |
| Lifecycle.Init | game.js:40-86 | start-up leaves the walls, the sensor and one more body, keeps score, active flag and drop time, and schedules a frame exactly when active |
| Lifecycle.InitLeavesOnePreview | game.js:40-86 | from any session, start-up leaves a valid session holding the walls, the sensor and one current preview at (200, 50) whose label is the next type, a starter type |
| Lifecycle.NothingTriggersAtStart | game.js:84-85 | the first frame after start-up never ends the game |
| Lifecycle.ResetGame | game.js:344-352 | after a reset the game is active, the score is 0 and frames are scheduled |
| Lifecycle.ResetLeavesOnePreview | game.js:344-352 | from any session, a reset leaves a valid session holding exactly the walls, the sensor and one current preview at (200, 50) whose label is the next type, a starter type |
| Game.Step | game.js:79-85 | only a reset lowers the score or revives a finished game |
| Game.StepKeepsValid | game.js:79-85 | every event keeps the session invariant |
| Game.Run | game.js:79-85 | after any run of possible events the session is valid and holds at most one preview |
| Game.ScoreNeverDecreases | game.js:241 | without a reset the score never decreases over a run |
| Game.GameOverIsFinal | game.js:289-290 | without a reset a finished game stays finished over a run |
| Game.RevivalNeedsReset | game.js:346 | a finished game that is active again after a run went through a reset |
| Game.InactiveIgnoresInput | game.js:152-195 | once the game is over, pointer moves, clicks and frames change nothing |

## Left out

- The physics engine is not modelled: gravity, collision detection, body
  motion, collision filters and sensors. Contact batches are inputs, and
  bodies move only through the game's own commands.
- Polygon vertices, angles, the random initial angle and the angular velocity
  given on a drop are left out. They involve trigonometry and have no effect
  on the rules.
- When a body is made, the model puts its bounding-box top at the largest
  extent, `radius * scaleY` above the centre. The engine gives each die a
  random angle (game.js:139), and its real top edge depends on that angle.
  For the D4 triangle it lies between r/2 and r above the centre, so up to
  15 of 30 px lower. For the stretched D8 diamond it lies between about 33
  and 60 px above the centre. A polygon with n corners lies between
  r·cos(π/n) and r above. So the model's top edge is at or above the real
  one.
- Rendering, canvas setup, DOM lookups, `alert`, `console.log` and the score
  and next-dice text are left out, as is the preview's translucent colour.
- Event-listener wiring, `requestAnimationFrame` and page-load bootstrapping
  are left out. A frame is an event, and `Tick.rescheduled` says whether the
  loop asks for another one. A reset during an active game leaves the old
  frame chain running beside the new one. That duplicate chain is not
  modelled, although it repeats the same checks.
- `cleanup` (game.js:321-342) is modelled as emptying the world and
  dropping the preview reference, inside `Lifecycle.Init`. `resetGame` runs it
  twice, which is the same as running it once. Detaching listeners is out of
  scope.
- Ids come from the session counter `nextId`. The engine's global counter
  also gives ids to composites, so real ids skip numbers. Only freshness
  matters to the rules.
- `DICE_TYPES[type]` also finds inherited object properties such as
  `toString`. The lookup here treats every string other than the eleven keys
  as unknown.
- On a click, `handleClick` could fail if the factory returned `null`. This
  cannot happen, because a preview's label is always a tier key
  (`Dice.TierOfName`).
- `init` draws a starter type (game.js:51) and then draws again in
  `createNextDice`. The model keeps both draws (`r1`, `r2`), and the second
  one decides. The first frame reuses `r2`, but with a preview already
  present the frame does not draw.
- `lastDropTime` is a module-level variable that only a drop sets
  (game.js:191, 287). A reset does not clear it, and the model carries it
  across a reset in the same way.
- Coordinates and velocities are `real`, where the engine uses
  double-precision floats. The merge midpoint of game.js:230-231 is exact in
  the model, where the source rounds it. No rule tests a midpoint for
  equality. The only float comparisons are the game-over line and the speed
  threshold of game.js:302-310. There, a rounding difference of one unit in
  the last place could change a borderline verdict; the model does not
  follow that.
- `handleCollision` does not check the active flag, so merges still score
  after game over. `Game.Step` keeps this behaviour.
- Merge.ResolveCharacterized: characterizes only batches in which equal labels
  are tier keys (`NoStrayLabels`). Two equal labels that are not tier keys
  make the source throw at game.js:221. That case is stated separately by
  `Merge.ResolveThrows`: the throw keeps exactly the merges chosen among the
  earlier pairs. That lemma asks that the equal labels among those earlier
  pairs be tier keys and that their ids lie below the next fresh id. With
  several non-key pairs, only the first one is described.
- Merge.HandleCollisionCounts: the same restriction as
  `Merge.ResolveCharacterized`.
