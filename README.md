# BunnyBot perception and decision core in Dafny

BunnyBot is an Android accessibility service that plays an endless-runner game.
Every 100 ms it captures the screen. It reads the game state off a strip of
button colours, then taps the play button, asks for a game reset, or steers the
runner by tapping whenever a sensor pixel shows the white fence. This project
models the two files that hold that logic and proves properties of the model:

- `Vision.kt` (module `Vision`, file `vision.dfy`) covers:
  - the colour match `isColorMatch`;
  - the button-strip scan `getCurrentState`;
  - the path-edge grid scan `findPathEdge`;
  - the path-colour vote `calibratePathColor`.
- `BotService.kt` (module `Service`, file `service.dfy`) covers:
  - the decision layer: `detectGameState`, `runZigZagLogic`, `isColorWhite` and `gameLoop`;
  - the run flag of `startBot` and `stopBot`;
  - `calibrateSensors`, `performCalibration` and the default calibration fields.

`pixels.dfy` (module `Pixels`) holds the shared data model:

- A frame is an Android `ARGB_8888` bitmap. Its `rows` hold Kotlin `Int` pixels, typed `int32`.
- Every frame has at least one row and one column.
- The functions `Red`, `Green`, `Blue` and `Alpha` compute `shr` plus `and 0xFF` on the two's-complement value.
- `Masked` computes `and 0xFFFFFF`.

The scans follow the source's loops:

- `GetCurrentState`, `FindPathEdge` and `CalibratePathColor` are methods with `while` loops.
- Each method is proved equal to a recursive function that walks the same rows and columns: `StripFrom`, `EdgesFrom` and `SamplesFrom` followed by `Dominant`.
- The properties are proved about those functions.
- The vote map is a Kotlin `LinkedHashMap`. It is modelled as a `map` of counts plus the sequence of its keys in insertion order, because `maxByOrNull` keeps the first entry with the largest count.

`BotService` is a class with the source's run flag and calibration fields (the play button and the four sensor coordinates). Effects on the platform are appended to its `actions` log:

- `controller.tap` appends `Tap(x, y)`.
- `adDodgeManager.triggerReset` appends `TriggerReset`.
- The `Handler` queue is the flag `callbackPending`.
- A frame the capture could not deliver is `None`.

## Model

| member | source | states |
|---|---|---|
| Pixels.ArgbChannels | app/src/main/java/com/bunnybot/Vision.kt:94-100 | reading the red, green and blue bytes (`shr` and `and 0xFF`) of a packed colour gives back the bytes it was packed from, and the low 24 bits are `r*65536 + g*256 + b` |
| Pixels.ArgbOfChannels | app/src/main/java/com/bunnybot/Vision.kt:94-100 | every Kotlin `Int` is the packing of its own four channel bytes, each of which is a byte |
| Pixels.MaskedChannels | app/src/main/java/com/bunnybot/Vision.kt:25 | `pixel and 0xFFFFFF` is a 24-bit value with the same red, green and blue bytes as the pixel |
| Vision.ColorMatch | app/src/main/java/com/bunnybot/Vision.kt:93-104 | `isColorMatch`: the sum of the absolute differences of the red, green and blue bytes (`shr` and `and 0xFF`) is below 40; its contract adds that a match never lets a single channel differ by 40 or more, and that colours with equal red, green and blue bytes match |
| Vision.ColorMatchArgb | app/src/main/java/com/bunnybot/Vision.kt:93-104 | two packed colours match iff the sum of absolute red, green and blue differences is below 40, whatever their alpha bytes |
| Vision.ColorMatchLow24 | app/src/main/java/com/bunnybot/Vision.kt:93-104 | only bits 0-23 of either argument affect the match |
| Vision.ColorMatchSymmetric | app/src/main/java/com/bunnybot/Vision.kt:93-104 | the match is symmetric |
| Vision.ColorMatchReflexive | app/src/main/java/com/bunnybot/Vision.kt:93-104 | every colour matches itself |
| Vision.MatchBoundIsForty | app/src/main/java/com/bunnybot/Vision.kt:102-103 | the bound is the literal 40 and not the `tolerance` field (5000): a channel distance of 39 matches, and a distance of 40 fails |
| Vision.ScanCut | app/src/main/java/com/bunnybot/Vision.kt:20 | the 70% row never lies below the frame |
| Vision.FirstMatchSpec | app/src/main/java/com/bunnybot/Vision.kt:28-33 | an ordered colour table gives a label iff some entry matches, and the label is the first matching entry's |
| Vision.ButtonLabel | app/src/main/java/com/bunnybot/Vision.kt:28-33 | the `when` of `getCurrentState`: the label of the first of 0x2196F3 ("start"), 0xFFAA00 ("win"), 0xFF4444 ("end"), 0x8BC34A ("end") that the sample matches, or none |
| Vision.ButtonLabelSpec | app/src/main/java/com/bunnybot/Vision.kt:28-33 | a sample gets a label iff it matches one of 0x2196F3, 0xFFAA00, 0xFF4444, 0x8BC34A; the label is the first match's in that order; the label is always "start", "win" or "end" |
| Vision.StripFrom | app/src/main/java/com/bunnybot/Vision.kt:23-36 | the strip scan of one column from a given row: the first row, stepping by 10 to the bottom, whose masked sample gets a button label, reported with that label and `(x, y)`; `("in_game", (0, 0))` when the scan reaches the bottom without one |
| Vision.StripFromShape | app/src/main/java/com/bunnybot/Vision.kt:20-36 | the scan reports "start", "win", "end" or "in_game". A button label comes with the point `(centerX, y)`, where y is a scanned row (from scanStartY up to height, step 10) whose sample carries that label. "in_game" comes with `(0, 0)` |
| Vision.StripFromFirst | app/src/main/java/com/bunnybot/Vision.kt:23-34 | no scanned row above the reported one matches any button colour |
| Vision.StripFromMiss | app/src/main/java/com/bunnybot/Vision.kt:23-36 | the result is "in_game" iff no scanned row matches a button colour |
| Vision.GetCurrentState | app/src/main/java/com/bunnybot/Vision.kt:15-37 | the loop with early return computes the strip scan from the 70% row, the function the three lemmas above characterise |
| Vision.RowPointsSpec | app/src/main/java/com/bunnybot/Vision.kt:51 | one row of the grid visits only lattice columns `x0, x0+step, ... < xEnd` of that row, left to right |
| Vision.GridPointsSpec | app/src/main/java/com/bunnybot/Vision.kt:50-51 | the nested loops visit only lattice points, in row-major order |
| Vision.GridComplete | app/src/main/java/com/bunnybot/Vision.kt:50-51 | the nested loops visit every lattice point |
| Vision.PathPointsFilter | app/src/main/java/com/bunnybot/Vision.kt:55-57 | keeping the points whose sample matches the path colour keeps exactly those points, in their original order |
| Vision.RowEdges | app/src/main/java/com/bunnybot/Vision.kt:51-58 | the inner loop of `findPathEdge` from column x on: the points `(x, y)`, `x` stepping by 10 below `width - 50`, whose masked sample matches `pathColor`, left to right |
| Vision.EdgesFrom | app/src/main/java/com/bunnybot/Vision.kt:50-59 | the outer loop of `findPathEdge` from row y on: the hits of each row, `y` stepping by 5 below `scanEndY`, rows concatenated top to bottom |
| Vision.RowEdgesFilter | app/src/main/java/com/bunnybot/Vision.kt:51-58 | one row of `findPathEdge` keeps the matching points of that row of the grid |
| Vision.EdgesFromFilter | app/src/main/java/com/bunnybot/Vision.kt:50-58 | `findPathEdge` keeps the matching points of the whole grid, rows in order |
| Vision.PathEdgesSpec | app/src/main/java/com/bunnybot/Vision.kt:48-61 | the reported points are exactly the grid points (`x = 50, 60, ... < width-50`, `y = 100, 105, ... < scanEndY`) whose sample matches `pathColor`. They come in row-major order with no duplicates, and all lie inside the frame |
| Vision.FindPathEdge | app/src/main/java/com/bunnybot/Vision.kt:42-62 | the nested loops return the grid scan characterised by PathEdgesSpec |
| Vision.ScanEdgeRow | app/src/main/java/com/bunnybot/Vision.kt:51-58 | the inner loop appends the matching points of one row |
| Vision.RowSamples | app/src/main/java/com/bunnybot/Vision.kt:75-77 | the masked colours the inner loop of `calibratePathColor` reads from column x on, `x` stepping by 20 below `width - 50`, before any filtering |
| Vision.SamplesFrom | app/src/main/java/com/bunnybot/Vision.kt:74-77 | the masked colours the nested loops of `calibratePathColor` read from row y on, `y` stepping by 20 below `scanEndY`, in scan order |
| Vision.Qualifies | app/src/main/java/com/bunnybot/Vision.kt:80 | the filter of `calibratePathColor`: the sample matches neither 0xFFFFFF nor 0x000000 |
| Vision.RowSamplesGrid | app/src/main/java/com/bunnybot/Vision.kt:75-77 | one row of the vote scan samples the pixels of the step-20 columns in order |
| Vision.SamplesFromGrid | app/src/main/java/com/bunnybot/Vision.kt:74-77 | the vote scan samples the pixels of the step-20 grid in row-major order |
| Vision.SampledFromGrid | app/src/main/java/com/bunnybot/Vision.kt:74-77 | every sample is the masked colour of a step-20 grid pixel |
| Vision.GridSampled | app/src/main/java/com/bunnybot/Vision.kt:74-77 | every step-20 grid pixel is sampled |
| Vision.Voters | app/src/main/java/com/bunnybot/Vision.kt:79-82 | the samples that pass the filter, in scan order: the votes the loops cast |
| Vision.VotersSpec | app/src/main/java/com/bunnybot/Vision.kt:79-82 | a sample votes iff it is neither within tolerance of 0xFFFFFF nor of 0x000000, and each qualifying sample votes once |
| Vision.Tally | app/src/main/java/com/bunnybot/Vision.kt:81 | `colorVotes` after a sequence of votes, each applying `colorVotes[color] = (colorVotes[color] ?: 0) + 1` in turn |
| Vision.TallyCounts | app/src/main/java/com/bunnybot/Vision.kt:81 | the vote map has an entry for exactly the colours voted for, holding their number of votes |
| Vision.VoteCounts | app/src/main/java/com/bunnybot/Vision.kt:68-84 | after the scan, the map's keys are exactly the qualifying sampled colours, and each count equals the number of samples of exactly that colour |
| Vision.FirstIndex | app/src/main/java/com/bunnybot/Vision.kt:81 | the position where a colour first occurs in the scan |
| Vision.FirstSeen | app/src/main/java/com/bunnybot/Vision.kt:68-81 | the key order of the `LinkedHashMap` `colorVotes` after a sequence of votes: a colour is appended on its first vote and never moved |
| Vision.FirstSeenOrder | app/src/main/java/com/bunnybot/Vision.kt:68-81 | the map's insertion order lists each colour voted for once, ordered by its first vote |
| Vision.FirstMaxIndex | app/src/main/java/com/bunnybot/Vision.kt:87 | `maxByOrNull` picks an entry with the largest count, and every earlier entry has a strictly smaller count |
| Vision.Winner | app/src/main/java/com/bunnybot/Vision.kt:87 | `maxByOrNull` over the vote map built from a sequence of votes: null when no vote was cast, otherwise the key at FirstMaxIndex of the insertion order |
| Vision.WinnerSpec | app/src/main/java/com/bunnybot/Vision.kt:87 | a winner exists iff a vote was cast. It has the most votes, and every colour first voted for before it has strictly fewer |
| Vision.Dominant | app/src/main/java/com/bunnybot/Vision.kt:79-87 | the return value of `calibratePathColor` for a sequence of samples: the winner of the votes of its qualifying samples, or 0x8D6E63 when there is none |
| Vision.DominantSpec | app/src/main/java/com/bunnybot/Vision.kt:67-88 | with no qualifying sample the result is 0x8D6E63. Otherwise the result is a qualifying sample with the largest count, and any qualifying colour that voted earlier has a strictly smaller count |
| Vision.MajorityWins | app/src/main/java/com/bunnybot/Vision.kt:87 | a colour holding more than half of the votes is the result |
| Vision.PathColorMajority | app/src/main/java/com/bunnybot/Vision.kt:87 | samples whose votes are mostly 0x8D6E63 calibrate to 0x8D6E63 |
| Vision.SoleCandidate | app/src/main/java/com/bunnybot/Vision.kt:87 | when every vote goes to one colour, that colour is the result |
| Vision.PathColorCalibrates | app/src/main/java/com/bunnybot/Vision.kt:67-88 | a frame whose grid shows the path colour and otherwise only near-white or near-black calibrates to the path colour |
| Vision.CalibratePathColor | app/src/main/java/com/bunnybot/Vision.kt:67-88 | the vote-and-maximum procedure returns the colour DominantSpec characterises |
| Vision.CollectVotes | app/src/main/java/com/bunnybot/Vision.kt:68-84 | after the nested loops, the vote map and its key order are the tally of the qualifying samples of the grid |
| Vision.VoteRow | app/src/main/java/com/bunnybot/Vision.kt:75-83 | one row of the inner loop adds that row's votes |
| Vision.RecordVote | app/src/main/java/com/bunnybot/Vision.kt:79-82 | one sample adds one vote to its own colour, appending the colour to the key order on its first vote, unless it is near white or near black |
| Vision.MaxByOrNull | app/src/main/java/com/bunnybot/Vision.kt:87 | returns null iff the map is empty, and otherwise the first key with the largest count |
| Service.StateOfLabel | app/src/main/java/com/bunnybot/BotService.kt:146-150 | the `when` of `detectGameState`: "start" gives START_SCREEN, "end" and "win" give GAME_OVER, any other label gives PLAYING |
| Service.FrameState | app/src/main/java/com/bunnybot/BotService.kt:139-151 | `detectGameState`: the label `getCurrentState` reports for the frame (strip scan of column `width/2` from the 70% row), mapped through the `when` of StateOfLabel |
| Service.FirstButtonReported | app/src/main/java/com/bunnybot/BotService.kt:145 | the first strip row showing a button colour is the one whose label `detectGameState` classifies |
| Service.FrameStateSpec | app/src/main/java/com/bunnybot/BotService.kt:139-151 | the state is START_SCREEN iff the first button colour on the strip is the start button's. It is GAME_OVER iff that colour is the win button's or an end button's, and PLAYING iff no strip row shows a button |
| Service.IsColorWhite | app/src/main/java/com/bunnybot/BotService.kt:170-176 | `isColorWhite`: the red, green and blue bytes all exceed 200; its contract adds that such a pixel's low 24 bits exceed 0xC8C8C8 and that it never matches black, so a white fence pixel is never discarded as near-black |
| Service.IsColorWhiteArgb | app/src/main/java/com/bunnybot/BotService.kt:170-176 | a packed colour is white iff its red, green and blue bytes all exceed 200, whatever its alpha |
| Service.Clamp | app/src/main/java/com/bunnybot/BotService.kt:156-159 | `coerceIn(lo, hi)` always lies in `[lo, hi]` |
| Service.ClampNearest | app/src/main/java/com/bunnybot/BotService.kt:156-159 | the clamped value is the input itself when it is inside the range, and no point of the range lies nearer to the input |
| Service.SensorPixel | app/src/main/java/com/bunnybot/BotService.kt:156-162 | the pixel a sensor reads: its coordinates clamped by `coerceIn(0, width - 1)` and `coerceIn(0, height - 1)`, then `getPixel` |
| Service.ZigZagActions | app/src/main/java/com/bunnybot/BotService.kt:154-168 | the effect of `runZigZagLogic`: one tap at `(width/2, height/2)` when the left or the right sensor pixel is white, otherwise nothing |
| Service.ZigZagSpec | app/src/main/java/com/bunnybot/BotService.kt:154-168 | at most one tap, always at `(width/2, height/2)`, issued iff either clamped sensor reads white. A sensor inside the frame reads its own pixel |
| Service.LoopActions | app/src/main/java/com/bunnybot/BotService.kt:126-136 | the effect of `gameLoop`: nothing without a frame; with one, the tap at `playButtonCoords` on START_SCREEN, the zig-zag actions on PLAYING, a reset request on GAME_OVER |
| Service.LoopActionsSpec | app/src/main/java/com/bunnybot/BotService.kt:126-136 | no frame gives no action. With a frame there is never more than one action: a start button first on the strip gives the tap at `playButtonCoords`, a reset is issued iff a win or end button is first, and with no button only the zig-zag logic acts |
| Service.BotService.constructor | app/src/main/java/com/bunnybot/BotService.kt:21-41 | a new service is stopped and has the default calibration: play button `(540, 1800)`, sensors `(200, 1500)` and `(880, 1500)` |
| Service.BotService.StartBot | app/src/main/java/com/bunnybot/BotService.kt:97-117 | a no-op when already running; otherwise sets the run flag and queues the loop callback |
| Service.BotService.StopBot | app/src/main/java/com/bunnybot/BotService.kt:119-123 | clears the run flag and removes the queued callback |
| Service.BotService.RunCallback | app/src/main/java/com/bunnybot/BotService.kt:108-115 | the queued callback runs one `gameLoop` and re-queues itself while running; it changes nothing but the log and the queue |
| Service.BotService.GameLoop | app/src/main/java/com/bunnybot/BotService.kt:126-136 | appends exactly the actions LoopActionsSpec characterises and changes no other field |
| Service.BotService.DetectGameState | app/src/main/java/com/bunnybot/BotService.kt:139-151 | returns the state FrameStateSpec characterises |
| Service.BotService.RunZigZagLogic | app/src/main/java/com/bunnybot/BotService.kt:154-168 | appends exactly the actions ZigZagSpec characterises, reading only clamped, in-bounds pixels |
| Service.BotService.CalibrateSensors | app/src/main/java/com/bunnybot/BotService.kt:218-221 | sets the four sensor fields to the arguments and may change no other field |
| Service.BotService.PerformCalibration | app/src/main/java/com/bunnybot/BotService.kt:80-88 | runs the colour vote on an available frame and discards the result, so no service field changes and the path colour stays a constant |

## Left out

- Vision.GetCurrentState, Vision.FindPathEdge, Vision.CalibratePathColor: these take `(height * 0.7).toInt()` as `height * 7 / 10`.
  - The floating-point product is one smaller for some heights, such as 90, 170 and 180.
  - The two agree at common screen heights such as 2400 and 1920.
  - The lemmas about the scans take the bound as a parameter, so they hold for either value.
- Screen capture (`captureScreen`, `setupMediaProjection`, the row-padding copy) is platform I/O. A frame arrives as a parameter, and `None` means no image was available.
- `onStartCommand` is Android intent dispatch and is not part of this model. It routes "START_BOT", "STOP_BOT" and "CALIBRATE_PATH" to the modelled methods. The media-projection setup on "START_BOT" and `performUiScan` have no effect on the modelled state. (`performUiScan` shows a message and does nothing else.)
- Timing is not modelled:
  - the `Handler` delay of 100 ms;
  - the foreground notification;
  - `Toast` messages;
  - bitmap recycling.
  
  Only the run flag and whether the loop callback is queued are kept.
- `controller.tap` and `adDodgeManager.triggerReset` are foreign platform calls. They are recorded in the action log, and their gestures and delayed callback chain are not modelled.
- The classifier uses colour banding only; the OpenCV template matching sketched in the comments of `detectGameState` is not called by this code and is not modelled.
- There is no tap debounce. `runZigZagLogic` taps on every frame where a sensor reads white, so the model has no timestamps.
- The colour tolerance is not configurable. `isColorMatch` compares against the literal 40, and the `tolerance` field (5000) is never read.
- Vision.CollectVotes: vote counts are unbounded naturals. Kotlin `Int` counts would wrap only after 2^31 votes, far more than a frame has grid points.
