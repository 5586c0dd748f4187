# Snake game core in Dafny

This project models the game logic of a browser Snake game written in TypeScript. The snake moves on a 20×20 board and grows by one segment for each food it eats. Each food is worth 10 points. The tick interval shrinks with the food count, in one of two modes: classic, or speed. Input comes from the keyboard (arrows and WASD) or from swipes. A leaderboard keeps the ten best scores. Colour themes are applied as CSS custom properties.

The modules follow the source files:

| module | source |
|---|---|
| `Constants`, `Types` | `src/utils/constants.ts`, `src/types/index.ts` |
| `Snake` | `src/game/snake.ts`: opposite directions, the next head cell, the move |
| `Collision` | `src/game/collision.ts`: food, wall and self collisions |
| `GameSpeed` | `src/game/speed.ts`: the speed curve of each mode |
| `Food` | `src/game/food.ts`: occupancy, random cells, the spawn loop |
| `GameStore` | `src/stores/gameStore.ts`: the session store and its actions |
| `LeaderboardStore` | `src/stores/leaderboardStore.ts`: the top-ten list |
| `SettingsStore` | `src/stores/settingsStore.ts`: mode, theme and D-pad preferences |
| `TouchControls`, `KeyboardControls`, `GameLoop` | the three hooks in `src/hooks/` |
| `ThemeUtils`, `ThemeRegistry` | `src/utils/theme.ts`, `src/themes/` |

Pure code is modelled as functions, and properties are proved about them as lemmas. A store whose actions overwrite fields is a class with those fields. Each of its methods is proved against a pure specification on a snapshot of the fields. For example, `GameState.Tick` ensures `(State(), result) == TickTransition(old(State()), draws)`. `TickPreservesInvariant` then shows that every tick keeps `Invariant` true. The invariant says:

- the snake is contiguous, has no repeated cells and lies on the board;
- its length is 3 plus the food eaten;
- the neck lies one step behind the head in the committed direction;
- the food is on the board and off the snake;
- the queued direction never reverses the committed one;
- the speed is `CalculateSpeed(foodEaten, mode)`, and the score is 10 per food.

`NeverTurnsIntoNeck` follows from this invariant: because of the single-slot direction queue, the head can never turn back onto its own neck.

`Math.random` becomes a finite sequence of draws, each a pair of reals in [0, 1). `spawnFood`'s loop takes draws until it finds a free cell. Its precondition `HasFreeDraw` says that some draw gives a free cell, because the source's loop stops only in that case.

Two behaviours of the source are kept as written:

- `addScore` reports a score as a new high score when an *equal* entry (same score, date and mode) is in the new list, even when that entry is an old one. `AddScoreReportsEqualEntryAsQualifying` shows this on a full board of equal entries: the list does not change, yet the result is true.
- `applyTheme`'s documentation comment gives `--color-primary: 34 197 94` as the write for the default theme. The default palette's primary colour is really `#4CAF50`, which gives `76 175 80`. The model follows the code.

## Model

| member | source | states |
|---|---|---|
| `Snake.OppositeOfEachDirection` | src/game/snake.ts:7-27 | each direction's opposite is reported as opposite, and no direction is opposite to itself |
| `Snake.OppositeIsInvolution` | src/game/snake.ts:7-12 | the opposite of the opposite is the direction itself |
| `Snake.IsOppositeSymmetric` | src/game/snake.ts:22-27 | a is opposite to b exactly when b is opposite to a |
| `Snake.GetNextHeadPosition` | src/game/snake.ts:37-51 | the next head is always one cell away (Manhattan distance 1) |
| `Snake.NextHeadDeltas` | src/game/snake.ts:41-50 | UP decreases y, DOWN increases y, LEFT decreases x, RIGHT increases x, each by one; the other coordinate is unchanged |
| `Snake.StepThenOppositeReturns` | src/game/snake.ts:37-51 | a step followed by a step in the opposite direction returns to the start |
| `Snake.OnlyOppositeStepsBack` | src/game/snake.ts:37-51 | two steps return to the start if and only if the second reverses the first |
| `Snake.MoveSnake` | src/game/snake.ts:63-82 | the empty snake is returned unchanged; otherwise the length grows by one exactly when shouldGrow |
| `Snake.MoveSnakeShape` | src/game/snake.ts:72-81 | the new head is the next head cell; the rest is the whole old snake when growing, or the old snake without its tail |
| `Snake.MoveSnakeKeepsContiguous` | src/game/snake.ts:63-82 | a moved contiguous snake stays contiguous, with or without growth |
| `Snake.MoveSnakeCells` | src/game/snake.ts:75-81 | a cell is on the moved snake if and only if it is the new head or an old cell that was kept |
| `Collision.FoodCollisionIsSameCell` | src/game/collision.ts:11-13 | food collision holds exactly when the head and the food are the same cell |
| `Collision.WallCollisionIffOffGrid` | src/game/collision.ts:21-23 | wall collision holds exactly when the cell is off the 20×20 board |
| `Collision.WallBoundaries` | src/game/collision.ts:21-23 | cells from 0 to 19 are safe; -1 and 20 on either axis collide |
| `Collision.SelfCollisionIffInBody` | src/game/collision.ts:32-34 | self collision holds exactly when the head cell is one of the body cells |
| `Collision.SelfCollisionEmptyBody` | src/game/collision.ts:32-34 | an empty body never collides |
| `Collision.SelfCollisionAppend` | src/game/collision.ts:32-34 | collision with a + b is collision with a or with b |
| `GameSpeed.ModeParams` | src/game/speed.ts:24-32 | each mode's threshold and increment are positive, and 0 < minimum <= initial |
| `GameSpeed.CalculateSpeed` | src/game/speed.ts:22-42 | the speed always lies between the mode's minimum and its initial speed |
| `GameSpeed.SpeedAtStart` | src/game/speed.ts:22-42 | with no food eaten, the speed is 150 in classic mode and 100 in speed mode |
| `GameSpeed.SpeedBand` | src/game/speed.ts:22-42 | classic speeds lie in [50, 150] and speed-mode speeds in [40, 100] |
| `GameSpeed.SpeedNonIncreasing` | src/game/speed.ts:35-41 | eating more never slows the game down |
| `GameSpeed.SpeedConstantInBlock` | src/game/speed.ts:35-41 | within the k-th block of threshold foods, the speed is max(initial - k*increment, minimum) |
| `GameSpeed.SpeedReachesMinimum` | src/game/speed.ts:35-41 | from 60 foods (classic) or 16 foods (speed) on, the speed is the minimum |
| `GameSpeed.ClassicExamples` | src/game/speed.ts:22-42 | classic speeds: 150 at 2 foods, 145 at 3, 140 at 6, 135 at 9, and 50 from 60 on |
| `GameSpeed.SpeedModeExamples` | src/game/speed.ts:22-42 | speed-mode speeds: 100 at 1 food, 92 at 2, 84 at 4, 76 at 6, and 40 from 16 on |
| `Food.OccupiedIffInSegments` | src/game/food.ts:7-9 | a position is occupied exactly when it is one of the segments |
| `Food.GetRandomPosition` | src/game/food.ts:14-19 | every drawn position is on the board |
| `Food.EveryCellCanBeDrawn` | src/game/food.ts:14-19 | every board cell is produced by some draw |
| `Food.FirstFreeIndex` | src/game/food.ts:28-38 | the index of the first draw that gives a free cell: every earlier draw gives an occupied one |
| `Food.FirstFreeDraw` | src/game/food.ts:28-38 | the spawned cell is free and on the board |
| `Food.FirstDrawWhenBoardEmpty` | src/game/food.ts:28-38 | with no segments, the first draw is taken |
| `Food.SpawnFood` | src/game/food.ts:28-38 | the loop returns the first free draw, a free cell on the board |
| `GameStore.InitialSnakeLayout` | src/stores/gameStore.ts:24-32 | the initial snake is (10,10), (9,10), (8,10): head at the centre, body to the left |
| `GameStore.CreateInitialFood` | src/stores/gameStore.ts:37-39 | the initial food is the first free draw, off the snake |
| `GameStore.StartedSessionIsValid` | src/stores/gameStore.ts:81-98 | a started session satisfies the invariant, with the mode's initial speed |
| `GameStore.QueueTakesAcceptedRequests` | src/stores/gameStore.ts:136-166 | a request is queued exactly when it reverses neither the committed nor the queued direction and, with an empty queue, differs from the committed one; otherwise the queue is unchanged |
| `GameStore.QueueStaysSafe` | src/stores/gameStore.ts:136-166 | setDirection never queues a reversal of the committed direction |
| `GameStore.QueueRejectsReversalOfQueued` | src/stores/gameStore.ts:140-144 | a request opposite to the queued direction leaves the queue as it was |
| `GameStore.QueueIgnoresCurrentDirection` | src/stores/gameStore.ts:161-164 | requesting the committed direction with an empty queue queues nothing |
| `GameStore.QueueRapidPresses` | tests/stores/gameStore-direction-queue.test.ts:103-115 | moving right, LEFT is refused and UP is queued; after that, LEFT and DOWN leave UP queued |
| `GameStore.TickReportsOutcome` | src/stores/gameStore.ts:168-216 | died is reported exactly on a wall or self collision, ateFood exactly on a surviving move onto the food, never both |
| `GameStore.TickOnDeathChangesNothing` | src/stores/gameStore.ts:176-184 | a fatal tick leaves every field unchanged |
| `GameStore.TickOnPlainMove` | src/stores/gameStore.ts:208-215 | a plain move shifts the snake one cell, keeps its length, commits the direction, clears the queue and changes nothing else |
| `GameStore.TickOnFood` | src/stores/gameStore.ts:186-205 | eating grows the snake by the new head, adds 10 points and one food, recomputes the speed, places new food off the new snake and keeps status, mode and the high-score flag |
| `GameStore.TickGrowsExactlyOnFood` | src/stores/gameStore.ts:186-213 | the food count and the length go up by one exactly on a tick that eats |
| `GameStore.MovingIntoTailCellIsFatal` | src/stores/gameStore.ts:181-184 | moving onto the cell the tail is about to leave is a collision, because the whole body after the head is checked |
| `GameStore.NeverTurnsIntoNeck` | src/stores/gameStore.ts:136-174 | under the invariant the next head is never the neck cell |
| `GameStore.NextHeadNotInSnake` | src/stores/gameStore.ts:174-184 | when the tick survives, the next head is on the board and not on the snake |
| `GameStore.TickPreservesInvariant` | src/stores/gameStore.ts:168-216 | every tick keeps the invariant: contiguous, no repeated cells, length 3 + foodEaten, food off the snake, safe queue, speed and score in step |
| `GameStore.OpeningMove` | src/stores/gameStore.ts:81-98 | from a fresh classic session, one tick moves the snake to (11,10), (10,10), (9,10) without eating |
| `GameStore.EatingStraightAhead` | src/stores/gameStore.ts:186-205 | with the food at (11,10), the first tick eats it: four segments, 10 points, one food, speed still 150 |
| `GameStore.GameState.constructor` | src/stores/gameStore.ts:64-78 | the store starts idle in classic mode at speed 150 with the initial snake and food, satisfying the invariant |
| `GameStore.GameState.StartGame` | src/stores/gameStore.ts:81-98 | installs the started session for the mode read from the settings store |
| `GameStore.GameState.ResetGame` | src/stores/gameStore.ts:117-134 | has the same effect as StartGame |
| `GameStore.GameState.PauseGame` | src/stores/gameStore.ts:100-102 | sets the status to paused and nothing else |
| `GameStore.GameState.ResumeGame` | src/stores/gameStore.ts:104-106 | sets the status to playing and nothing else |
| `GameStore.GameState.EndGame` | src/stores/gameStore.ts:108-115 | records the score in the leaderboard, sets game over, and sets the high-score flag to addScore's verdict |
| `GameStore.GameState.SetDirection` | src/stores/gameStore.ts:136-166 | updates only the queue, as QueueDirection says, and keeps the invariant |
| `GameStore.GameState.Tick` | src/stores/gameStore.ts:168-216 | the new fields and the result are TickTransition of the old fields, and the invariant is kept |
| `LeaderboardStore.InsertDesc` | src/stores/leaderboardStore.ts:73-74 | inserting adds exactly the new entry (length and multiset) |
| `LeaderboardStore.InsertKeepsSorted` | src/stores/leaderboardStore.ts:73-74 | inserting into a descending list keeps it descending |
| `LeaderboardStore.SortDesc` | src/stores/leaderboardStore.ts:73-74 | the sort returns a descending permutation of its input |
| `LeaderboardStore.InsertKeepsTies` | src/stores/leaderboardStore.ts:73-74 | the entries with a given score keep their order, and a new entry goes after its equals |
| `LeaderboardStore.SortKeepsTies` | src/stores/leaderboardStore.ts:73-74 | the sort is stable: the entries with each score keep their original order |
| `LeaderboardStore.InsertAfterAllHigher` | src/stores/leaderboardStore.ts:73-74 | an entry no higher than any other is appended at the end |
| `LeaderboardStore.SortOfSortedIsIdentity` | src/stores/leaderboardStore.ts:73-74 | sorting an already-descending list is a no-op |
| `LeaderboardStore.AddZeroScoreIgnored` | src/stores/leaderboardStore.ts:59-61 | a score of 0 changes nothing and returns false |
| `LeaderboardStore.AddScoreBoundedAndSorted` | src/stores/leaderboardStore.ts:73-78 | after an add, the list is descending, has at most 10 entries, and has min(old length + 1, 10) entries |
| `LeaderboardStore.AddScoreInventsNothing` | src/stores/leaderboardStore.ts:73-75 | the new list, as a multiset, is contained in the old entries plus the new one |
| `LeaderboardStore.AddScoreInsertsAfterTies` | src/stores/leaderboardStore.ts:73-75 | on a sorted list, the new list is the first 10 of the insertion of the new entry after every entry with the same score |
| `LeaderboardStore.AddScoreQualifiesWithRoom` | src/stores/leaderboardStore.ts:81-84 | with fewer than 10 entries, a non-zero score always qualifies |
| `LeaderboardStore.AddScoreBelowFullBoard` | src/stores/leaderboardStore.ts:73-84 | if 10 entries all beat the score, the list is unchanged and the result is false |
| `LeaderboardStore.AddScoreReportsEqualEntryAsQualifying` | src/stores/leaderboardStore.ts:81-84 | on a full board of entries equal to the new one, the list is unchanged but the result is true |
| `LeaderboardStore.LeaderboardState.constructor` | src/stores/leaderboardStore.ts:55 | the list starts empty |
| `LeaderboardStore.LeaderboardState.AddScore` | src/stores/leaderboardStore.ts:57-85 | the new list and the result are AddScoreResult of the old list, and the list stays sorted and at most 10 long |
| `LeaderboardStore.LeaderboardState.GetTopScores` | src/stores/leaderboardStore.ts:87-89 | returns a prefix of the list: min(limit, length) entries for limit >= 0, and the slice semantics for a negative limit |
| `LeaderboardStore.LeaderboardState.ClearScores` | src/stores/leaderboardStore.ts:91-93 | leaves the list empty |
| `LeaderboardStore.DefaultLimitReturnsAll` | src/stores/leaderboardStore.ts:87-89 | the default limit of 10 returns the whole list |
| `SettingsStore.SettingsState.constructor` | src/stores/settingsStore.ts:34-45 | the defaults are classic mode, the jungle theme and the D-pad shown |
| `SettingsStore.SettingsState.SetGameMode` | src/stores/settingsStore.ts:35 | sets the mode and no other field |
| `SettingsStore.SettingsState.SetTheme` | src/stores/settingsStore.ts:37-44 | sets the theme and no other field, and returns applyTheme's style writes for the registry theme |
| `SettingsStore.SettingsState.ToggleDPad` | src/stores/settingsStore.ts:46 | negates showDPad and changes no other field |
| `SettingsStore.ToggleDPadTwice` | src/stores/settingsStore.ts:46 | toggling twice restores the setting and leaves mode and theme unchanged |
| `TouchControls.SwipeDirectionCases` | src/hooks/useTouchControls.ts:60-72 | RIGHT or LEFT exactly when \|dx\| > \|dy\|, by the sign of dx; otherwise DOWN or UP by the sign of dy, so ties go vertical |
| `TouchControls.ReversedSwipeIsOpposite` | src/hooks/useTouchControls.ts:60-72 | a non-zero swipe reversed gives the opposite direction |
| `TouchControls.SwipeDirectionExamples` | src/hooks/useTouchControls.ts:60-72 | sample horizontal, vertical and diagonal (tie) swipes |
| `TouchControls.TouchEndReportsIff` | src/hooks/useTouchControls.ts:122-182 | a direction is reported exactly when the game is running, a start and a touch exist, at most 1000 ms passed and the longer axis covers at least 30 px; it is the swipe direction |
| `TouchControls.TouchEndClearsStart` | src/hooks/useTouchControls.ts:145-169 | once past the running, start and touch checks, touchend always clears the start |
| `TouchControls.OneDirectionPerStart` | src/hooks/useTouchControls.ts:145-178 | after a touchend reports, a second one without a new touchstart reports nothing |
| `TouchControls.NotRunningIgnoresTouches` | src/hooks/useTouchControls.ts:86-89 | when not running, touchstart records nothing and touchend reports nothing |
| `TouchControls.SwipeDistanceBoundary` | tests/hooks/useTouchControls.test.ts:147-193 | the tests' swipes: 30 px right counts; 25 px right and 20 px down do not |
| `TouchControls.SwipeTimeBoundary` | tests/hooks/useTouchControls.test.ts:197-258 | the tests' 100 px right swipe counts after 500 ms and exactly 1000 ms, not after 1001 ms |
| `TouchControls.TouchTracker.constructor` | src/hooks/useTouchControls.ts:44 | no touch is recorded at first |
| `TouchControls.TouchTracker.HandleTouchStart` | src/hooks/useTouchControls.ts:83-106 | records position and time only when running and a touch exists, and calls preventDefault exactly then |
| `TouchControls.TouchTracker.HandleTouchEnd` | src/hooks/useTouchControls.ts:122-182 | the new start slot and the direction are TouchEndSpec of the old slot; preventDefault is called exactly when a direction is reported |
| `KeyboardControls.ArrowKeysSteer` | src/hooks/useKeyboardControls.ts:8-12 | each arrow key gives its direction and suppresses the default |
| `KeyboardControls.LetterKeysSteer` | src/hooks/useKeyboardControls.ts:13-20 | w/W, s/S, a/A and d/D give up, down, left and right, without preventDefault |
| `KeyboardControls.KeyDownSteersIff` | src/hooks/useKeyboardControls.ts:60-80 | while running, a key steers towards d exactly when it is d's arrow or letter; unmapped keys give nothing |
| `KeyboardControls.UnmappedKeyIsIgnored` | src/hooks/useKeyboardControls.ts:66-71 | an unmapped key changes nothing and suppresses nothing |
| `KeyboardControls.NotRunningIgnoresKeys` | src/hooks/useKeyboardControls.ts:62-64 | when not running, no key does anything |
| `KeyboardControls.PreventDefaultOnlyForArrows` | src/hooks/useKeyboardControls.ts:26 | preventDefault is called exactly for the four arrow keys while running |
| `GameLoop.FiresIff` | src/hooks/useGameLoop.ts:44-48 | onTick fires exactly when timestamp minus the reference time is at least the interval |
| `GameLoop.FirstFrameRecordsTimestamp` | src/hooks/useGameLoop.ts:39-44 | the first frame after a start records its timestamp and does not fire |
| `GameLoop.QuietFrameKeepsLast` | src/hooks/useGameLoop.ts:47-51 | a frame that does not fire leaves the last-update time unchanged |
| `GameLoop.FiringCarriesRemainder` | src/hooks/useGameLoop.ts:47-51 | after a tick 0 <= timestamp - last < interval, the last-update time moves by whole intervals from the reference, and by at least one |
| `GameLoop.TicksNeverOutpaceClock` | src/hooks/useGameLoop.ts:36-57 | over any run of frames after a start at one interval (no re-render in between), ticks × interval never exceeds the advance of the last-update time |
| `GameLoop.FiringNeverAhead` | src/hooks/useGameLoop.ts:50 | a tick never moves the last-update time past the frame's timestamp |
| `GameLoop.StartResetsClock` | src/hooks/useGameLoop.ts:59-65 | starting the loop resets the last-update time to 0, so the next frame only records its timestamp |
| `GameLoop.SpeedChangeRestartsClock` | src/hooks/useGameLoop.ts:36-74 | a change of interval while running re-runs the effect: the carried remainder is dropped and the first frame at the new interval never fires |
| `GameLoop.EffectKeepsClockOtherwise` | src/hooks/useGameLoop.ts:59-74 | stopping, or a render with the same isRunning and interval, leaves the last-update time unchanged |
| `GameLoop.GameLoopTimer.constructor` | src/hooks/useGameLoop.ts:24 | the last-update time starts at 0, with the rendered isRunning and interval recorded |
| `GameLoop.GameLoopTimer.Render` | src/hooks/useGameLoop.ts:56-74 | a re-render sets the last-update time to EffectLast of the old one: reset to 0 exactly when isRunning or interval changed and the loop now runs |
| `GameLoop.GameLoopTimer.Frame` | src/hooks/useGameLoop.ts:36-57 | the new last-update time and the firing are FrameStep of the old time at the interval last rendered |
| `ThemeUtils.HexDigitValue` | src/utils/theme.ts:21-23 | a hex digit's value is below 16 |
| `ThemeUtils.MatchAcceptsExactly` | src/utils/theme.ts:15 | the pattern accepts exactly six hex digits, with or without one leading '#', and captures the six digits |
| `ThemeUtils.HexPairValue` | src/utils/theme.ts:21-23 | a parsed pair is below 256 |
| `ThemeUtils.HexChar` | src/utils/theme.ts:21-23 | the lower-case digit of a value below 16 is a hex digit that parses back to that value |
| `ThemeUtils.HexDigitRoundTrip` | src/utils/theme.ts:21-23 | parsing a digit and encoding the value gives the digit back, in lower case |
| `ThemeUtils.HexPairRoundTrip` | src/utils/theme.ts:21-23 | every value below 256 is the parse of its own two-digit pair |
| `ThemeUtils.HexColourDecodes` | src/utils/theme.ts:14-26 | for every colour, "#rrggbb" matches the pattern and hexToRgb gives back exactly its channels |
| `ThemeUtils.Channels` | src/utils/theme.ts:21-23 | all three channels are below 256 |
| `ThemeUtils.NatToString` | src/utils/theme.ts:25 | decimal text is non-empty, all digits, and has no leading zero |
| `ThemeUtils.DecimalRoundTrip` | src/utils/theme.ts:25 | reading the decimal text of n back gives n |
| `ThemeUtils.RgbTextDecodes` | src/utils/theme.ts:25 | "r g b" text splits and parses back to the three channels |
| `ThemeUtils.HexToRgbDecodes` | src/utils/theme.ts:14-26 | the output is always three numbers below 256 joined by single spaces: the channels of a match, or 0 0 0 |
| `ThemeUtils.GreenExample` | src/utils/theme.ts:10-11 | "#22c55e" gives "34 197 94" |
| `ThemeUtils.WhiteExample` | src/utils/theme.ts:12 | "#ffffff" gives "255 255 255" |
| `ThemeUtils.ShortColourIsBlack` | src/utils/theme.ts:16-19 | a five-digit colour falls back to "0 0 0" |
| `ThemeUtils.HashIsOptional` | src/utils/theme.ts:7-15 | adding a leading '#' does not change the result |
| `ThemeUtils.HexCaseInsensitive` | src/utils/theme.ts:15 | lower-casing the input does not change the result |
| `ThemeUtils.CssNameHasNoCapitals` | src/utils/theme.ts:50 | generated variable names contain no capital letters |
| `ThemeUtils.CssNameWithoutCapitals` | src/utils/theme.ts:50 | a key without capitals is appended to "--color-" unchanged |
| `ThemeUtils.SnakeHeadVariableName` | src/utils/theme.ts:41-50 | snakeHead is written to --color-snake-head |
| `ThemeUtils.PrimaryVariableName` | src/utils/theme.ts:40-50 | primary is written to --color-primary |
| `ThemeUtils.CamelCaseInverts` | src/utils/theme.ts:50 | for a key without '-', the camel-case key can be read back from its kebab-case name |
| `ThemeUtils.CssNamesAreInjective` | src/utils/theme.ts:50 | distinct keys without '-' are written to distinct variables |
| `ThemeUtils.ThemeVariables` | src/utils/theme.ts:44-54 | applyTheme makes one write per colour key, thirteen in all |
| `ThemeUtils.ThemeVariablesAreDistinct` | src/utils/theme.ts:49-53 | the thirteen writes go to thirteen different variables |
| `ThemeUtils.ThemeVariablesCarryChannels` | src/utils/theme.ts:49-53 | for a valid palette, each write carries the three channels of its colour |
| `ThemeRegistry.GetAllThemes` | src/themes/index.ts:39-41 | returns one theme per registry key |
| `ThemeRegistry.RegistryCoversEveryId` | src/themes/index.ts:15-33 | every ThemeId is a key, so getTheme never takes the fallback |
| `ThemeRegistry.DefaultIsJungle` | src/themes/index.ts:16 | the legacy default key gives the jungle palette, whose id is jungle |
| `ThemeRegistry.RegistryIdsMatchKeys` | src/themes/index.ts:15-24 | for every key other than default, the theme's id is its key |
| `ThemeRegistry.AllThemesListsTheRegistry` | src/themes/index.ts:39-41 | getAllThemes lists the eight registry values in declaration order |
| `ThemeRegistry.AllThemesIds` | src/themes/index.ts:15-24 | the ids listed are jungle twice, then ocean, space, candy, neon, desert and winter |
| `ThemeRegistry.DefaultPaletteIsValid` | src/themes/default.ts:18-32 | every default colour matches the hex pattern |
| `ThemeRegistry.JunglePaletteIsValid` | src/themes/jungle.ts:22-36 | every jungle colour matches the hex pattern |
| `ThemeRegistry.OceanPaletteIsValid` | src/themes/ocean.ts:20-34 | every ocean colour matches the hex pattern |
| `ThemeRegistry.SpacePaletteIsValid` | src/themes/space.ts:20-34 | every space colour matches the hex pattern |
| `ThemeRegistry.CandyPaletteIsValid` | src/themes/candy.ts:20-34 | every candy colour matches the hex pattern |
| `ThemeRegistry.NeonPaletteIsValid` | src/themes/neon.ts:29-43 | every neon colour matches the hex pattern |
| `ThemeRegistry.DesertPaletteIsValid` | src/themes/desert.ts:29-43 | every desert colour matches the hex pattern |
| `ThemeRegistry.WinterPaletteIsValid` | src/themes/winter.ts:29-43 | every winter colour matches the hex pattern |
| `ThemeRegistry.RegistryPalettesAreValid` | src/themes/index.ts:31-33 | applying any registry theme never falls back to black |

## Left out

- React components, screens and routing: rendering only. Of these, the D-pad's disabled rule is just isOppositeDirection, which the `Snake` lemmas cover.
- zustand's `create`, `persist` and `subscribeWithSelector`, and localStorage persistence. Each store is a plain class.
- Randomness, clocks and the DOM become parameters:
  - `Math.random()` is a sequence of draws in [0, 1);
  - `new Date().toISOString()` is the `date` argument of `AddScore`/`EndGame`;
  - `Date.now()` is the `now` argument of the touch handlers;
  - the settings store's game mode is the `mode` argument of `StartGame`/`ResetGame`.
- Event-listener registration, `requestAnimationFrame`/`cancelAnimationFrame`, and the DOM calls `preventDefault`, `setProperty` and `console.warn`. `preventDefault` is modelled as a returned flag, and the style writes as a returned list.
- The `touchmove` handler: it only calls `preventDefault`.
- `SpawnFood`: the source loop may run forever when no draw gives a free cell. The model assumes that some draw does (`HasFreeDraw`), so non-termination is not modelled.
- `GameState.Tick`: the model requires a non-empty snake. With an empty snake the source reads `snake[0]` as undefined and throws.
- `GameState.Tick`: the model does not check `gameStatus`, because the source does not either. Only the game loop gates ticking on the status.
- `TouchTracker.HandleTouchEnd`: the dead `!newDirection` branch is omitted, because the swipe calculation always returns a direction.
- `GameLoopTimer.Frame` requires a positive interval. The source would compute `elapsed % 0` as NaN.
- `GameLoopTimer.Render`: whether a frame is pending is not modelled. The cleanup's `cancelAnimationFrame` and the next `requestAnimationFrame` are the caller's, so `Frame` may be called only while the loop runs.
- Timestamps are whole milliseconds. `requestAnimationFrame`'s fractional timestamps and floating-point arithmetic are not modelled. Touch coordinates are exact reals.
- `HandleKeyDown`: JavaScript object lookup also finds inherited keys such as `toString`. The model's map holds only the twelve listed keys.
- `ToLowerAscii` lower-cases ASCII letters only, whereas `toLowerCase` is Unicode-aware. The colour keys and hex digits are ASCII.
- Theme emoji: display only.
- `formatDate`, the animation variants and the reduced-motion query: these are UI code.
