# Crypto City — a Dafny model of the game core

Crypto City is a browser first-person game. The player walks a grid city and
approaches floating gems. Each approach opens a short cryptography tutorial, and
a correct answer to it scores points. Most of the code base draws things. This
project models the parts that decide what happens:

- **City layout** (`constants.ts`, the older `constants.js`, the single-file
  `index.js`):
  - the road classifier `isOnRoad`, with JavaScript's truncating `%`;
  - the gem rejection sampler;
  - the monolith table;
  - the block-by-block building generator;
  - NPC spawn placement.
- **Player controller** (`Player.tsx`, `Player.js`):
  - WASD key flags;
  - `checkCollision`;
  - the per-axis move, where z is tested after x has been committed;
  - the eye height;
  - the cooldown-gated first-match proximity trigger, gems before monoliths;
  - the nudge after a cancelled tutorial.
- **Game-state reducers** (`App.tsx`, `App.js`):
  - the interact, solve, cancel and pointer-lock handlers as methods of a class;
  - the score and level arithmetic;
  - topic-wide collection of gems and monoliths;
  - the pause flag.
- **Answer dialogs** (`TutorialModal.tsx`, `PuzzleModal.tsx`, `TutorialModal.js`):
  - ASCII `trim`/`toLowerCase` answer comparison;
  - the `isCorrect`/`error`/hint flags;
  - the scheduled callbacks, kept as a timer log.
- **index.js game loop**:
  - the global state as a `Game` class;
  - gems as objects with a mutable `collected` flag;
  - the gem interaction cooldown;
  - puzzle submission scoring.
- **NPC walker** (`NPC.tsx`): position write-back, the greet/patrol switch, the
  patrol step toward the target, and re-targeting.

Modules:

| module | file | models |
|---|---|---|
| `Wrappers` | wrappers.dfy | `Option` |
| `JsNum` | js_num.dfy | `Math.trunc`, `%`, `rand(min, max)`, integer rendering |
| `JsText` | js_text.dfy | `trim`, `toLowerCase`, answer comparison |
| `GameTypes` | game_types.dfy | types.ts records, topic-wide collect and solve |
| `Controls` | controls.dfy | WASD key flags, the index.js move vector |
| `Scoring` | scoring.dfy | 250 points per solve, `floor(score/1000)+1` |
| `City` | city.dfy | constants.ts grid, roads, gems, monoliths, NPCs |
| `CityBuildings` | city_buildings.dfy | constants.ts `BUILDINGS` |
| `CityWorld` | city_world.dfy | constants.ts tables loaded in source order |
| `LegacyCity` | legacy_city.dfy | constants.js tables |
| `PlayerStep` | player.dfy | Player.tsx |
| `PlayerLegacy` | player_legacy.dfy | Player.js |
| `App` | app.dfy | App.tsx |
| `AppLegacy` | app_legacy.dfy | App.js |
| `Modals` | modals.dfy | the three answer dialogs |
| `Standalone` | standalone.dfy | index.js |
| `NpcWalker` | npc.dfy | NPC.tsx |

Modelling conventions:

- Coordinates are `real`.
- `Math.random()` is a supplied stream `rand: nat -> real` with values in
  [0, 1), read from a cursor.
  - The gem sampler and the building generator of constants.ts return the first
    draw they left unused.
  - The NPC table reads seven draws per NPC from the cursor it is given.
  - `CityWorld.LoadWorld` threads `GEMS`, then `BUILDINGS`, then `NPCS`.
  - The constants.js tables take a cursor each, and `LegacyCity.LegacyWorld`
    threads them in source order.
- In index.js the `Building` constructor makes its own draws between the loop's
  draws. There, each loop draw is read from an oracle indexed by what the draw is
  for: the count of block (i, j), or part `slot` of building k.
- `Date.now()` is an `int` input.
- `Math.sin` and the square-root distance are inputs tied to what they measure.
- The blended velocity is an input.
- A `setTimeout` is an entry appended to a timer log.
- An `await`ed request is split into the part before it and the part when it
  settles (`None` for a rejected request).

Facts about the code that the model keeps:

- The `GEMS` do-while in constants.ts has no retry bound and no fallback point.
- `isOnRoad` tests the truncated remainder, measured from the grid multiple
  toward zero. It does not measure distance to the nearest grid line.
- `TutorialModal.js` and `index.js` lower-case the expected answer without trimming it.

## Model

| member | source | states |
|---|---|---|
| GameTypes.CollectTopic | App.tsx:57-60 | every gem whose topic matches ends up collected, not only the one approached; no other field or gem changes; length and order are kept |
| GameTypes.SolveKind | App.js:69 | every monolith of the kind ends up solved; nothing else changes |
| Controls.KeyDown | components/World/Player.tsx:37-44 | each flag becomes set exactly when its own key (W/S/A/D) goes down |
| Controls.KeyUp | components/World/Player.tsx:45-52 | each flag is cleared exactly when its own key goes up |
| Controls.OtherKeysIgnored | components/World/Player.tsx:38-51 | any other key code leaves all four flags unchanged |
| Controls.PressThenRelease | components/World/Player.tsx:36-52 | press then release of a key equals releasing it; release undoes press when the key was up |
| Controls.MoveVector | index.js:433-437 | the move vector before normalisation; MoveVectorLaws states its components |
| Controls.MoveVectorLaws | index.js:433-437 | components are in {-1,0,1}; opposite keys cancel on their axis; forward alone is -z and right alone is +x |
| Scoring.LevelFor | App.tsx:54 | the level of a score; its contract is LevelForBounds and LevelForMonotone |
| Scoring.AwardSolve | App.tsx:50-55 | the stats after a solve; AwardKeepsConsistent states what it keeps |
| Scoring.LevelForBounds | App.tsx:54 | `floor(score/1000)+1` equals integer division plus one and brackets the score |
| Scoring.LevelForMonotone | App.tsx:53-54 | more points never lower the level |
| Scoring.InitialConsistent | App.tsx:17-21 | the initial stats (no solves, 0 points, level 1) satisfy the score invariant |
| Scoring.AwardKeepsConsistent | App.tsx:50-55 | a solve keeps score = 250·solves and level = floor(score/1000)+1, records one id, never lowers the level |
| Scoring.LevelCountsSolves | App.tsx:50-55 | under the invariant the level is solves/4 + 1 |
| JsNum.Trunc | constants.ts:13-14 | rounds toward zero on both sides of 0 |
| JsNum.TruncNeg | constants.ts:13-14 | truncation commutes with negation |
| JsNum.Rand | constants.ts:10 | `rand(min, max)` lies in [min, max) |
| JsNum.Rem | constants.ts:13-14 | `x % m` for m > 0 lies in [0, m) when x ≥ 0 and in (-m, 0] when x < 0 |
| JsNum.Offset | constants.ts:59-60 | `(r - 0.5) * w` lies in [-w/2, w/2), and equals w/2 only when w = 0 |
| JsNum.NatToString | constants.ts:29 | a template-rendered index is a non-empty string of decimal digits |
| JsNum.NatToStringValue | constants.ts:29 | reading the rendered digits back, left to right, gives the number |
| JsNum.NatToStringInjective | constants.ts:29 | distinct numbers render as distinct strings |
| JsText.TrimStart | components/UI/TutorialModal.tsx:17 | the result does not start with whitespace and keeps the last character |
| JsText.TrimEnd | components/UI/TutorialModal.tsx:17 | the result does not end with whitespace and keeps the first character |
| JsText.TrimStartIsSuffix | components/UI/TutorialModal.tsx:17 | trimStart removes only a whitespace prefix |
| JsText.TrimEndIsPrefix | components/UI/TutorialModal.tsx:17 | trimEnd removes only a whitespace suffix |
| JsText.Trim | components/UI/TutorialModal.tsx:17 | the trimmed string has no whitespace at either end and is no longer than the input |
| JsText.Lower | components/UI/TutorialModal.tsx:17 | lower-casing keeps the length and lowers each character on its own |
| JsText.TrimStartSpaces | components/UI/TutorialModal.tsx:17 | leading whitespace does not change trimStart |
| JsText.TrimEndSpaces | components/UI/TutorialModal.tsx:17 | trailing whitespace does not change trimEnd |
| JsText.TrimStartAppend | components/UI/TutorialModal.tsx:17 | once a non-space is met, trimStart keeps everything after it |
| JsText.TrimStartAllSpace | components/UI/TutorialModal.tsx:17 | an all-whitespace string trims to empty |
| JsText.TrimIgnoresPadding | components/UI/TutorialModal.tsx:17 | whitespace added at either end does not change `trim` |
| JsText.TrimOfTrimmed | components/UI/TutorialModal.tsx:17 | a string without surrounding whitespace is its own trim |
| JsText.LowerKeepsSpace | components/UI/TutorialModal.tsx:17 | lower-casing neither creates nor removes whitespace |
| JsText.TrimStartLower | components/UI/TutorialModal.tsx:17 | trimStart commutes with lower-casing |
| JsText.TrimEndLower | components/UI/TutorialModal.tsx:17 | trimEnd commutes with lower-casing |
| JsText.TrimLowerCommute | components/UI/TutorialModal.tsx:17 | trim commutes with lower-casing |
| JsText.Accepts | components/UI/TutorialModal.tsx:17 | the comparison of TutorialModal.tsx and PuzzleModal.tsx; the lemmas below state it |
| JsText.AcceptsUntrimmed | components/UI/TutorialModal.js:12 | the comparison of TutorialModal.js and index.js; the lemmas below state it |
| JsText.AcceptsCorrectAnswer | components/UI/TutorialModal.tsx:17 | the stored answer typed as-is is accepted |
| JsText.AcceptsIgnoresCase | components/UI/TutorialModal.tsx:17 | acceptance ignores ASCII letter case on both sides |
| JsText.AcceptsIgnoresPadding | components/UI/PuzzleModal.tsx:19 | acceptance ignores leading and trailing whitespace on both sides |
| JsText.UntrimmedRejectsPaddedAnswer | components/UI/TutorialModal.js:12 | an expected answer with whitespace at either end is never matched |
| JsText.UntrimmedAgreesWhenTrimmed | components/UI/TutorialModal.js:12 | for an expected answer without surrounding whitespace the untrimmed and trimmed comparisons agree; untrimmed acceptance always implies trimmed acceptance |
| City.IsOnRoad | constants.ts:12-17 | `isOnRoad`: the road test of either coordinate; OffRoadCoordIff and the lemmas below state what it accepts |
| City.RoadCoord | constants.ts:13-16 | the test of one coordinate |
| City.GridConstants | constants.ts:49 | the grid interval is 35 and `halfBlocks` is 8 |
| City.GridRemBounds | constants.ts:13-14 | `x % 35` has the sign of x, magnitude below 35, and x minus it is 35·trunc(x/35) |
| City.GridRemNeg | constants.ts:13-14 | `(-x) % 35 == -(x % 35)` |
| City.AbsRem | constants.ts:13-14 | `|x % 35| == |x| % 35` |
| City.OffRoadCoordIff | constants.ts:12-17 | a coordinate passes the test iff its magnitude lies in [35k, 35k+12.5] for some k (both directions) |
| City.IsOnRoadSymmetric | constants.ts:12-17 | `isOnRoad` is unchanged by negating either coordinate or swapping them |
| City.RoadThresholdIsStrict | constants.ts:15-16 | grid multiples and offsets of exactly 12.5 are not road |
| City.OffRoadAvoidsDrawnRoads | components/World/GameWorld.tsx:41 | a coordinate that is not road lies within 12.5 of a grid multiple and strictly inside no drawn road strip |
| City.RoadTestCoversBlockEdge | constants.ts:12-17 | remainders in [22.5, 35) count as road though they lie within half a block of the next grid multiple and in no drawn strip |
| City.GemCandidate | constants.ts:24-25 | a candidate lies in [-140, 140) on both axes |
| City.SampleGemPosition | constants.ts:22-26 | a returned point is the first candidate off road; every earlier candidate was on road; `None` only when the inspected stream held no off-road candidate |
| City.GemIdInjective | constants.ts:29 | distinct indices give distinct gem ids |
| City.AcceptedAtUnique | constants.ts:22-26 | the stream decides how many candidates a do-while reads |
| City.GemFromPlaced | constants.ts:28-33 | a gem built from an off-road candidate has id `gem-i`, the (i mod 6)-th topic, is uncollected at y = 1, inside [-140,140)² and off road |
| City.GemsSampledPlaced | constants.ts:20-34 | every sampled gem is placed as above and the ids are pairwise distinct |
| City.GemsSampledStep | constants.ts:20-34 | one more accepted gem, starting where the last one stopped, extends the sampled prefix |
| City.GemsSampledUnique | constants.ts:20-34 | two samplings of the same stream agree on every count and every gem: `GEMS` is a function of the stream |
| City.GenerateGems | constants.ts:20-34 | gem i's do-while starts where gem i-1's stopped; gem i is built from the candidate it accepted, all earlier candidates rejected; `next` is the first unused draw; on success 50 placed gems with distinct ids; `None` only when the last gem saw `maxTries` candidates on road |
| City.Monoliths | constants.ts:37-43 | the monolith table; MonolithKinds and MonolithsOffRoad state it |
| City.MonolithKinds | constants.ts:37-43 | five unsolved ground-level monoliths, one per puzzle type |
| City.MonolithsOffRoad | constants.ts:37-43 | every monolith stands off road |
| City.NpcBlock | constants.ts:76-77 | block indices lie in [-8, 7] |
| City.NpcAt | constants.ts:75-89 | the i-th NPC from its seven draws; NpcPlacement states where it stands |
| City.Npcs | constants.ts:75-89 | 40 NPCs |
| City.NpcIdsDistinct | constants.ts:83 | the NPC ids are pairwise distinct |
| City.NpcPlacement | constants.ts:76-80 | each NPC has one coordinate exactly 13.5 past its block centre and the other within ±12.5; y = 0 |
| City.EdgeIsRoad | constants.ts:79-80 | one unit past a block edge is road, on either side of zero |
| City.NpcsSpawnOnRoad | constants.ts:75-80 | every NPC spawns on a road |
| CityWorld.LoadWorld | constants.ts:20-89 | `GEMS` from the start cursor, `BUILDINGS` from where the gems stopped, `NPCS` from where the buildings stopped, and `MONOLITHS`; `next` is the first draw left; no NPC spawns on a gem or a monolith |
| CityWorld.GemsOffNpcs | constants.ts:20-89 | off-road gems and monoliths never share a ground point with on-road NPCs |
| CityBuildings.NewBuilding | constants.ts:58-67 | the k-th building of a block from its five draws; NewBuildingPlaced states it |
| CityBuildings.LayoutFrom | constants.ts:50-69 | the row-major walk from a block onward; LayoutFromCount and LayoutFromPlaced state it |
| CityBuildings.Layout | constants.ts:46-70 | `BUILDINGS`; LayoutSize and LayoutPlaced state it |
| CityBuildings.SafeBlockIsOrigin | constants.ts:54 | the safe-zone test skips exactly block (0, 0) |
| CityBuildings.BuildingCount | constants.ts:56 | `floor(rand(1, 3))` is 1 or 2 |
| CityBuildings.BlockBuildings | constants.ts:57-68 | a block's building list has exactly the requested count |
| CityBuildings.GenerateBuildings | constants.ts:46-70 | the nested loops produce exactly the row-major layout, and the cursor ends after the last draw |
| CityBuildings.GenerateRow | constants.ts:51-69 | one row's loop appends exactly that row of the layout |
| CityBuildings.PushBlock | constants.ts:57-68 | one block's loop appends exactly that block's buildings |
| CityBuildings.LayoutFromStep | constants.ts:51-69 | one block's pushes followed by the rest of the row make up the row |
| CityBuildings.LayoutFromRowEnd | constants.ts:50-51 | past the last column the walk continues with the next row |
| CityBuildings.LayoutFromCount | constants.ts:50-57 | each remaining block contributes one or two buildings; the cursor never moves back |
| CityBuildings.LayoutSize | constants.ts:49-57 | 288 blocks are populated, giving 288 to 576 buildings |
| CityBuildings.NewBuildingPlaced | constants.ts:58-64 | id `b-i-j-k`; sizes in [8,12)×[15,45)×[8,12); footprint within 11.5 of the block centre |
| CityBuildings.LayoutFromPlaced | constants.ts:50-68 | every building from a block onward is placed as above |
| CityBuildings.BlockPlaced | constants.ts:57-68 | every building of a non-spawn block is placed |
| CityBuildings.LayoutPlaced | constants.ts:49-68 | every building of `BUILDINGS` belongs to a non-spawn block of [-8, 8]² with the bounds above |
| LegacyCity.LegacyGems | constants.js:9-14 | 30 gems; gem i has id `gem-i`, topic i mod 4, is uncollected at y = 1, inside [-100,100)² |
| LegacyCity.LegacyTopicsCycle | constants.js:12 | topics repeat with period four and the first four gems carry all four |
| LegacyCity.LegacyMonoliths | constants.js:16-18 | exactly one unsolved CAESAR monolith |
| LegacyCity.LegacyBuildings | constants.js:20-25 | 20 buildings `b-i`, 10×10 footprint, height in [10,40), inside [-120,120)² |
| LegacyCity.LegacyNpcs | constants.js:27 | no NPCs |
| LegacyCity.LegacyWorld | constants.js:9-27 | the tables in evaluation order have sizes 30, 1, 20 and 0 |
| PlayerStep.Blocked | components/World/Player.tsx:61-82 | what `checkCollision` answers; CheckCollision is proved to compute it |
| PlayerStep.CheckCollision | components/World/Player.tsx:61-82 | true iff out of the ±149 square, strictly inside an inflated building footprint, or closer to an NPC than 1.1 |
| PlayerStep.FreeWithinBounds | components/World/Player.tsx:62-63 | a free position lies in [-149, 149]² |
| PlayerStep.FootprintEdgeIsOpen | components/World/Player.tsx:66-70 | a point exactly on an inflated edge is not a collision |
| PlayerStep.StepAxes | components/World/Player.tsx:113-118 | each axis keeps its value or takes the full step; a free start stays free |
| PlayerStep.StepAxesOrder | components/World/Player.tsx:117-118 | x moves iff (x+dx, z) is free; z moves iff (new x, z+dz) is free |
| PlayerStep.DiagonalCornerStopsZ | components/World/Player.tsx:117-118 | with x free and the diagonal blocked, only x moves |
| PlayerStep.ScanGems | components/World/Player.tsx:125-135 | the result is the first uncollected gem within planar distance 2, or none exists |
| PlayerStep.ScanMonoliths | components/World/Player.tsx:138-148 | the result is the first unsolved monolith within 3, or none exists |
| PlayerStep.FirstGemUnique | components/World/Player.tsx:125-135 | the first gem in reach is unique |
| PlayerStep.NudgeTarget | components/World/Player.tsx:86-90 | the nudge point is 4·|dir| from the gem |
| PlayerStep.Player.constructor | components/World/Player.tsx:29-31 | flags clear, velocity zero, cooldown time 0 |
| PlayerStep.Player.OnKeyDown | components/World/Player.tsx:37-44 | only the key flags change, as `KeyDown` |
| PlayerStep.Player.OnKeyUp | components/World/Player.tsx:45-52 | only the key flags change, as `KeyUp` |
| PlayerStep.Player.Nudge | components/World/Player.tsx:84-98 | with a trigger and a target the player moves to the nudge point only when it is free, and the cooldown restarts; otherwise nothing changes; a free position stays free |
| PlayerStep.Player.Frame | components/World/Player.tsx:100-150 | a paused frame changes nothing; otherwise the per-axis step, y = 1.6, and at most one event: the first gem in reach, else the first monolith, only after the cooldown, which then restarts; a free position stays free |
| PlayerLegacy.EyeHeightShrinksReach | components/World/Player.js:49-55 | from eye height 1.6 the 3D reach of 2 to a gem at height 1 is a planar squared reach of 3.64 |
| PlayerLegacy.Reach3DWithinPlanar | components/World/Player.js:55 | a gem in 3D reach is within the planar reach of Player.tsx |
| PlayerLegacy.LegacyPlayer.constructor | components/World/Player.js:8-10 | flags clear, velocity zero, cooldown time 0 |
| PlayerLegacy.LegacyPlayer.OnKeyDown | components/World/Player.js:14-21 | only the key flags change, as `KeyDown` |
| PlayerLegacy.LegacyPlayer.OnKeyUp | components/World/Player.js:22-29 | only the key flags change, as `KeyUp` |
| PlayerLegacy.LegacyPlayer.ScanGems3D | components/World/Player.js:53-60 | the result is the first uncollected gem within 3D distance 2 of the eye, or none exists |
| PlayerLegacy.LegacyPlayer.Frame | components/World/Player.js:38-62 | a paused frame changes nothing; otherwise an unobstructed move, y = 1.6, and at most one gem event after the cooldown; never a monolith event |
| App.GameApp.IsModalOpen | App.tsx:91 | a tutorial or the loading overlay is on screen |
| App.GameApp.IsPaused | App.tsx:116 | the world is paused while a modal is open or the pointer is free |
| App.GameApp.constructor | App.tsx:13-26 | initial gems, no tutorial, not loading, unlocked, initial stats, no nudge |
| App.GameApp.BeginInteract | App.tsx:28-35 | a collected gem changes nothing; otherwise unlock, loading, remember the gem position, request its topic; the world is then paused |
| App.GameApp.FinishInteract | App.tsx:37-44 | success sets the tutorial, whose topic is the requested one; failure keeps the old tutorial; loading ends either way |
| App.GameApp.Solve | App.tsx:47-64 | no tutorial: nothing changes; otherwise award 250 and recompute the level, collect the whole topic, clear tutorial and gem position |
| App.GameApp.Cancel | App.tsx:66-70 | clears the tutorial, counts one more nudge, keeps the gem position |
| App.GameApp.PointerLock | App.tsx:121-126 | lock events apply only while no modal is open |
| App.SolveCollectsWholeTopic | App.tsx:57-60 | after a solve every gem of the topic is collected, no collected gem is uncollected, and solving again changes nothing |
| AppLegacy.LegacyApp.IsModalOpen | App.js:95 | a tutorial, the loading overlay or the pause menu is on screen |
| AppLegacy.LegacyApp.IsPaused | App.js:108 | the world is paused while a modal is open or the pointer is free |
| AppLegacy.LegacyApp.ModalIgnoresPauseMenu | App.js:95 | with the never-opened pause menu the modal test equals the App.tsx one |
| AppLegacy.LegacyApp.constructor | App.js:14-27 | initial tables, no tutorial, not loading, unlocked, pause menu closed |
| AppLegacy.LegacyApp.BeginInteract | App.js:29-34 | as App.tsx: a collected gem is ignored, otherwise unlock, loading, remembered position, request |
| AppLegacy.LegacyApp.BeginMonolithInteract | App.js:45-49 | a solved monolith is ignored; otherwise unlock, loading and request its kind, leaving the remembered position alone |
| AppLegacy.LegacyApp.FinishInteract | App.js:35-42 | success sets the tutorial, whose topic is the requested one; failure keeps the old tutorial; loading ends |
| AppLegacy.LegacyApp.Solve | App.js:60-72 | award, collect the topic's gems and solve the monoliths of that kind; clear tutorial and position |
| AppLegacy.LegacyApp.Cancel | App.js:74-77 | clears the tutorial and counts one more nudge |
| AppLegacy.LegacyApp.PointerLock | App.js:112 | lock events apply only while no modal is open |
| AppLegacy.LegacyTopicsDisjoint | App.js:68-69 | with the constants.js tables, solving CAESAR collects no gem and a gem topic solves no monolith |
| Modals.SolveCount | components/UI/TutorialModal.tsx:18-19 | the number of scheduled `onSolve` calls is zero iff none is in the log |
| Modals.SolveCountAppend | components/UI/TutorialModal.tsx:19 | scheduling adds one `onSolve` exactly when the new timer is one |
| Modals.TutorialDialog.constructor | components/UI/TutorialModal.tsx:11-13 | empty answer, flags clear, no timers |
| Modals.TutorialDialog.Type | components/UI/TutorialModal.tsx:58 | only the answer changes |
| Modals.TutorialDialog.Submit | components/UI/TutorialModal.tsx:15-24 | accepted iff not yet correct and trimmed lower-cased answers match; then `isCorrect` with one `onSolve` after 2500 ms; a mismatch sets `error` and schedules its reset after 500 ms; `onSolve` is scheduled at most once |
| Modals.TutorialDialog.ClearError | components/UI/TutorialModal.tsx:22 | only the error flag clears |
| Modals.PuzzleDialog.constructor | components/UI/PuzzleModal.tsx:12-15 | empty answer, hint hidden, flags clear, no timers |
| Modals.PuzzleDialog.Type | components/UI/PuzzleModal.tsx:90 | only the answer changes |
| Modals.PuzzleDialog.Submit | components/UI/PuzzleModal.tsx:17-29 | as the tutorial dialog with 3000 ms, and success also clears `error`; the hint is untouched |
| Modals.PuzzleDialog.ClearError | components/UI/PuzzleModal.tsx:27 | only the error flag clears |
| Modals.PuzzleDialog.ToggleHint | components/UI/PuzzleModal.tsx:105 | while the puzzle is unsolved, the hint flag flips and nothing else changes |
| Modals.LegacyTutorialDialog.constructor | components/UI/TutorialModal.js:7-8 | empty answer, not correct, no timers |
| Modals.LegacyTutorialDialog.Type | components/UI/TutorialModal.js:34 | only the answer changes |
| Modals.LegacyTutorialDialog.Submit | components/UI/TutorialModal.js:10-16 | accepted iff not yet correct and the trimmed lower-cased answer equals the lower-cased, untrimmed expected one; then one `onSolve` after 2000 ms; a rejection changes nothing |
| NpcWalker.GreetingFor | components/World/NPC.tsx:38 | the greeting is one of the seven |
| NpcWalker.Greets | components/World/NPC.tsx:53 | the camera is nearer than 5 |
| NpcWalker.PatrolStep | components/World/NPC.tsx:79-80 | the patrol step; PatrolStepOffsets and PatrolStepGeometry state it |
| NpcWalker.PatrolStepOffsets | components/World/NPC.tsx:79-80 | a patrol step is the target offset scaled, seen from either end |
| NpcWalker.PatrolStepGeometry | components/World/NPC.tsx:76-80 | a patrol step moves exactly `step` and ends `|dist - step|` from the target |
| NpcWalker.Npc.constructor | components/World/NPC.tsx:31-37 | the NPC starts on the ground at its spawn point, not greeting; the first target is within ±10 on both axes with y = 0 |
| NpcWalker.Npc.Frame | components/World/NPC.tsx:44-106 | x and z are written back first; greeting iff the camera is nearer than 5, then only y bobs; patrol beyond 0.5 moves exactly delta·1.8 toward the target; on arrival only y bobs and the new target is within ±15 of the synced position with y = 0 |
| Standalone.IndexTopicsMatchEnum | index.js:14-21 | the topic strings equal the TypeScript enum values in order |
| Standalone.IndexBuildingCount | index.js:272 | one to three buildings per block |
| Standalone.IndexBuilding | index.js:274-279 | the k-th building of a block from its oracle draws; IndexBuildingPlaced states it |
| Standalone.IndexLayoutFrom | index.js:259-283 | the row-major walk from a block onward; IndexLayoutFromCount and IndexLayoutFromPlaced state it |
| Standalone.IndexBlockBuildings | index.js:273-281 | a block's building list has exactly the drawn count |
| Standalone.PopulateBlocks | index.js:258-283 | the nested loops produce exactly the row-major layout |
| Standalone.PopulateRow | index.js:260-282 | one row's loop appends exactly that row |
| Standalone.PushIndexBlock | index.js:273-281 | one block's loop appends exactly its buildings |
| Standalone.IndexLayoutFromStep | index.js:260-282 | one block's pushes followed by the rest of the row make up the row |
| Standalone.IndexLayoutFromRowEnd | index.js:259-260 | past the last column the walk continues with the next row |
| Standalone.IndexLayoutFromCount | index.js:259-273 | each remaining block contributes one to three buildings |
| Standalone.IndexLayoutSize | index.js:259-273 | 120 blocks are populated, giving 120 to 360 buildings |
| Standalone.IndexBuildingPlaced | index.js:274-279 | sizes in [8,14)×[15,55)×[8,14); footprint within 13 of the block centre |
| Standalone.IndexLayoutFromPlaced | index.js:259-281 | every building from a block onward is placed as above |
| Standalone.IndexLayoutPlaced | index.js:259-281 | every building stands in a non-spawn block of [-5, 5]² with the bounds above |
| Standalone.GemObject.constructor | index.js:204-206 | a new gem has its position and topic and is uncollected |
| Standalone.GemObject.Collect | index.js:229-232 | the gem is collected |
| Standalone.CountTrueSet | index.js:461 | collecting an uncollected gem raises the collected count by exactly one |
| Standalone.Game.constructor | index.js:290-295 | 50 distinct uncollected gems, gem i at ((r_{2i} − 0.5)·300, 1, (r_{2i+1} − 0.5)·300) from draws 2i and 2i + 1 with no road filter, so in [-150,150)², and with topic i mod 6; the state starts at score 0, level 1 |
| Standalone.Game.OnKeyDown | index.js:405-412 | only the key flags change, as `KeyDown` |
| Standalone.Game.OnKeyUp | index.js:413-420 | only the key flags change, as `KeyUp` |
| Standalone.Game.InteractFrame | index.js:454-466 | only while locked; at most one gem fires, the first uncollected one within 2.5 after the cooldown; it is collected at once, the cooldown restarts, the pointer unlocks and a puzzle is requested; otherwise no gem changes |
| Standalone.Game.Fire | index.js:459-463 | exactly the firing gem's flag is set; the cooldown restarts; the pointer unlocks; one more request is pending |
| Standalone.Game.CollectGem | index.js:461 | among distinct gems only the collected one's flag changes |
| Standalone.Game.ShowPuzzle | index.js:333-346 | a pending request becomes the open puzzle |
| Standalone.Game.PuzzleFailed | index.js:335-339 | a failed request relocks the pointer |
| Standalone.Game.Submit | index.js:372-395 | accepted iff a puzzle is open and the trimmed lower-cased input equals the lower-cased answer; then score +250, one more gem found, level recomputed; otherwise nothing changes |
| Standalone.Game.Start | index.js:399-403 | the start button locks the pointer and changes nothing else |
| Standalone.Game.CloseDialog | index.js:371 | the dialog closes and the pointer relocks |
| Standalone.Game.FoundNeverExceedsCollected | index.js:374-376 | found gems never outnumber collected gems, and the level is found/4 + 1 |

## Left out

- Rendering, lights, meshes, the HUD, the start screens, colours, building
  styles, windows, hats and skin tones. They affect only drawing.
- The Gemini tutorial service (services/geminiService.ts and .js) is a network
  call into a foreign library. Its result is an input: a puzzle, or `None` for a
  rejected request. The one fact kept from it is that a delivered puzzle carries
  the requested topic (services/geminiService.ts:49), a precondition of both
  `FinishInteract` methods. The fallback puzzle of geminiService.js is not part of this
  model.
- `Math.random()` is a supplied stream, or in index.js an oracle per draw, so
  the model does not fix which draws the runtime makes.
- In index.js the `Building` constructor's style and window draws interleave with
  the loop's draws; the oracle hides that order.
- `Date.now()` is an input. In index.js it is read again for each gem within
  reach; the model reads one `now` per frame.
- Player.tsx and Player.js: the velocity lerp, the camera quaternion and the
  normalised key direction are floating-point vector maths. The blended velocity
  arrives as an input.
- PlayerStep.Player.Nudge: the normalised direction from the gem to the player is
  an input, so the model does not check that it has unit length.
- index.js movement: `controls.moveRight`/`moveForward` and the box push-out that
  follows are camera-relative vector maths. Only the move vector before
  normalisation is modelled (`Controls.MoveVector`).
- index.js NPCs (`class NPC` and its wandering) are not part of this model. Only
  NPC.tsx is modelled.
- index.js gems bob in height each frame. The model keeps y = 1, so the 2.5 reach
  is measured from the resting position.
- index.js keeps an `inventory` array that is never used; it is not modelled.
- NpcWalker.Npc.Frame: `distanceTo` and `Math.sin` are inputs (`dist`, tied to
  the squared distance, and `sine`). The NPC's facing (quaternion slerp) and limb
  swings are left out.
- NpcWalker.Npc.Frame: `data.position` is shared with the collision test and is
  updated in place. The model keeps it as a field of the NPC, not as an alias of
  the `NPCS` entry.
- City.SampleGemPosition: the source loops until an off-road candidate appears.
  The model looks at no more than `maxTries` candidates per gem and answers `None`
  beyond that, so it does not capture non-termination.
- City.GenerateGems and CityWorld.LoadWorld: after a `None` the model says which
  gem ran out of tries; the source would still be drawing for that gem.
- index.js pointer lock: the browser releases the pointer on Escape. That event
  comes from the pointer-lock controls, not from index.js, and is not modelled.
- JsText.Trim and JsText.Lower: only ASCII whitespace and ASCII letters are
  handled. Unicode whitespace and case mapping are not modelled.
- Timers are a log of scheduled callbacks. Their firing order and real delays
  are not modelled; `ClearError` is the error reset as a separate event.
- App.tsx never passes the monoliths to the world, so they never react there.
  That wiring is not part of this model; the monolith handlers are modelled from
  App.js.
- React state batching and asynchronous ordering are modelled as a sequence of
  method calls.
