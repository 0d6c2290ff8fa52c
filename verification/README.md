# Robotic hoover: a verified model of the cleaning simulation

The robotic hoover service takes a rectangular room, a starting position, a
list of dirty patches and a string of instructions. It drives a robot vacuum
through the room and answers with the final position and the number of
patches cleaned. This project models that simulation (`CleaningService.process`
and its helper `moveHoover`) in Dafny and proves its properties.

Layout:

- `grid.dfy`, module `Grid`: value positions (`Pos`, equal by coordinates
  like the Lombok `Position`), the room rectangle `[0, width) x
  [0, height)`, the four directions, and decoding of instruction characters.
- `hoover.dfy`, module `Hoover`: `Move`, one instruction of `moveHoover`. It
  also has the 32-bit arithmetic of the Java code (`MoveInt32`) and a proof that it
  agrees with the unbounded model for 32-bit inputs.
- `cleaning.dfy`, module `Cleaning`: the state (position, dirty set,
  counter), patch-set construction, the initial clean, the instruction fold
  `Run`, and the answer `Process`. It also holds a patch-free reference
  description of the run (the walk `Walk` and the cells `Visited`) and the
  lemmas that relate the two.
- `cleaning_loop.dfy`, module `CleaningLoop`: `Simulate`, the procedure
  written with a mutable position, a mutable set and a counter, as the Java code
  writes it. It is proved equal to `Process`.
- `scenarios.dfy`, module `Scenarios`: the repository's test cases as lemmas.

One point where the code is more literal than its description: an ignored
character is often described as triggering no cleaning check at all, but the
code runs the check after every character, ignored or not. The model does the
same in `Step`, and proves the check is harmless: from a consistent state (the
hoover not standing on a dirty patch), an ignored character changes nothing
(`Cleaning.Step`, `Cleaning.RunIgnoresNoise`).

## Model

| member | source | states |
|---|---|---|
| Grid.Decode | src/main/java/com/gmitaros/robotichoover/service/CleaningService.java:56-72 | exactly the characters N, S, E, W are directions; every other character is an ignored instruction |
| Grid.Encode | src/main/java/com/gmitaros/robotichoover/service/CleaningService.java:56-68 | the character of each direction decodes back to that direction |
| Grid.DecodeEncodeInverse | src/main/java/com/gmitaros/robotichoover/service/CleaningService.java:56-68 | every recognised character is the code of the direction it decodes to, so decoding and encoding are inverse |
| Grid.Translate | src/main/java/com/gmitaros/robotichoover/service/CleaningService.java:53-75 | the candidate cell is one unit from the current one along exactly one axis |
| Hoover.Move | src/main/java/com/gmitaros/robotichoover/service/CleaningService.java:52-85 | an ignored character keeps the position; a direction moves exactly when its target is in the room, and then to the target; an out-of-room target leaves the position unchanged, with no clamping; an accepted move lands in the room; a hoover in the room stays in it; each move is at most one unit along one axis |
| Hoover.Wrap32 | src/main/java/com/gmitaros/robotichoover/service/CleaningService.java:74-75 | the 32-bit wrap of an addition result is a 32-bit value, congruent to it modulo 2^32, and unchanged when the result already fits |
| Hoover.MoveInt32 | src/main/java/com/gmitaros/robotichoover/service/CleaningService.java:74-80 | with Java's wrapping int addition: an ignored character keeps the position, an accepted (wrapped) target is inside the room, and a changed position has 32-bit coordinates |
| Hoover.Int32MoveAgrees | src/main/java/com/gmitaros/robotichoover/service/CleaningService.java:74-80 | for 32-bit room sizes and coordinates, the move with Java's wrapping int addition equals the move with unbounded integers |
| Cleaning.PatchSet | src/main/java/com/gmitaros/robotichoover/service/CleaningService.java:29-32 | the patch set holds exactly the listed cells, so repeats collapse, and it is no larger than the list |
| Cleaning.Visit | src/main/java/com/gmitaros/robotichoover/service/CleaningService.java:42-44 | cleaning removes the current cell from the dirty set, counts it only if it was dirty, and keeps count plus remaining patches constant |
| Cleaning.Init | src/main/java/com/gmitaros/robotichoover/service/CleaningService.java:29-38 | before any instruction the hoover is at the start, not on a dirty patch, the dirty set is within the patch set, and count plus remaining equals the number of distinct patches |
| Cleaning.Step | src/main/java/com/gmitaros/robotichoover/service/CleaningService.java:40-45 | after one iteration the hoover is not on a dirty patch; the dirty set only shrinks and the count only grows, with their sum conserved; from a consistent state an ignored character changes nothing |
| Cleaning.Run | src/main/java/com/gmitaros/robotichoover/service/CleaningService.java:40-45 | over any instruction string: a hoover that starts in the room ends in it, consistency is kept, the dirty set only shrinks, and count plus remaining patches is conserved |
| Cleaning.Process | src/main/java/com/gmitaros/robotichoover/service/CleaningService.java:21-50 | from a start in the room the final position is in the room; the count is at most the number of distinct patches, which is at most the list length |
| Cleaning.VisitedInRoom | src/main/java/com/gmitaros/robotichoover/service/CleaningService.java:74-80 | from a start in the room, the hoover is in the room after every instruction, not only at the end |
| Cleaning.RunFollowsPath | src/main/java/com/gmitaros/robotichoover/service/CleaningService.java:40-45 | the run ends where the patch-free walk ends; the patches left are the initial ones minus the cells visited; the count grows by the number of dirty cells visited |
| Cleaning.ProcessCountsPatchesOnPath | src/main/java/com/gmitaros/robotichoover/service/CleaningService.java:29-47 | the answer is the end of the walk, and the count is the number of distinct patches lying on the path, start cell included |
| Cleaning.RunAppend | src/main/java/com/gmitaros/robotichoover/service/CleaningService.java:40-45 | running a concatenation of instruction strings equals running the first part and then the second |
| Cleaning.Commands | src/main/java/com/gmitaros/robotichoover/service/CleaningService.java:69-71 | the filtered string is no longer than the input, holds only direction characters and the same set of them; a string of directions only is kept whole and one of ignored characters only becomes empty |
| Cleaning.CommandsAppend | src/main/java/com/gmitaros/robotichoover/service/CleaningService.java:69-71 | filtering the concatenation is the concatenation of the filtered parts, so (with the cases above) it deletes exactly the ignored characters and keeps the order and count of the directions |
| Cleaning.RunIgnoresNoise | src/main/java/com/gmitaros/robotichoover/service/CleaningService.java:69-71 | from a consistent state, deleting all ignored characters leaves the whole run unchanged |
| Cleaning.ProcessIgnoresNoise | src/main/java/com/gmitaros/robotichoover/service/CleaningService.java:69-71 | deleting all ignored characters changes neither the final position nor the count |
| Cleaning.ProcessIgnoresInsertedNoise | src/main/java/com/gmitaros/robotichoover/service/CleaningService.java:69-71 | inserting one ignored character anywhere changes neither the final position nor the count |
| Cleaning.EmptyInstructions | src/main/java/com/gmitaros/robotichoover/service/CleaningService.java:34-40 | with no instructions the hoover stays at the start and the count is 1 exactly when the start is a listed patch, else 0 |
| Cleaning.PatchListMattersOnlyAsSet | src/main/java/com/gmitaros/robotichoover/service/CleaningService.java:29-32 | two patch lists naming the same cells give the same answer, whatever their order or repetitions |
| Cleaning.DuplicatePatchCountsOnce | src/main/java/com/gmitaros/robotichoover/service/CleaningService.java:29-32 | repeating a listed patch changes neither the final position nor the count |
| Cleaning.WalkNorth | src/main/java/com/gmitaros/robotichoover/service/CleaningService.java:77-84 | n north moves from a cell in the room raise y by n up to the top row and then stop there |
| CleaningLoop.CollectPatches | src/main/java/com/gmitaros/robotichoover/service/CleaningService.java:29-32 | adding the listed cells one at a time to an empty set yields exactly the listed cells |
| CleaningLoop.Simulate | src/main/java/com/gmitaros/robotichoover/service/CleaningService.java:21-50 | the procedure with mutable state returns what the functional model returns; a start in the room gives a final position in the room; the count is at most the list length |
| Scenarios.ProcessAlong | src/main/java/com/gmitaros/robotichoover/service/CleaningService.java:40-47 | if a list of cells follows the instructions one move at a time, the answer is its last cell and the number of patches on it |
| Scenarios.WalkAlong | src/main/java/com/gmitaros/robotichoover/service/CleaningService.java:40-41 | if a list of cells follows the instructions one move at a time, the walk ends in its last cell and visits exactly the cells after its first |
| Scenarios.BasicRun | src/test/java/com/gmitaros/robotichoover/service/CleaningServiceTest.java:17-30 | 5x5 room, start (1, 2), patches (1, 0), (2, 2), (2, 3), instructions NNESEESWNWW: final (1, 3), one patch cleaned |
| Scenarios.RunWithUnknownCharacters | src/test/java/com/gmitaros/robotichoover/controller/CleaningControllerIntegrationTest.java:52-70 | the same room with X and $ in NNXSE$ESWNWW: final (0, 3), two patches cleaned |
| Scenarios.RunAgainstWalls | src/test/java/com/gmitaros/robotichoover/controller/CleaningControllerIntegrationTest.java:74-91 | 3x3 room, start (0, 0) on a patch, patches (0, 0), (1, 1), instructions NNNWWWSSSEEE: final (2, 0), one patch cleaned |
| Scenarios.LongRunNorth | src/test/java/com/gmitaros/robotichoover/controller/CleaningControllerIntegrationTest.java:94-111 | 1000x1000 room, no patches, 10000 N instructions from (0, 0): final (0, 999), nothing cleaned |

## Left out

- `CleaningController` and the HTTP layer: request routing with no logic of its own.
- The bean-validation annotations on `HooverRequestPayload` and the 400 error body. The model takes the room, start and patches as already-structured integer pairs. It needs no precondition for them, because the simulation is total: a room with a zero or negative side simply accepts no move.
- The `List.get(0)` / `get(1)` extraction of pairs from the request lists (`CleaningService.java` lines 24-27 and 31). This extraction is not total on requests that pass validation, and typing the inputs as `Room`, `Pos` and `seq<Pos>` excludes the requests on which the service throws. `patches` is only checked to be non-null, so a one-number patch such as `[3]` makes `patch.get(1)` throw `IndexOutOfBoundsException`. The size checks on `roomSize` and `coords` admit `[5, null]`, and unboxing the `null` throws `NullPointerException` (and likewise for a `null` patch coordinate). A patch with three or more numbers is silently cut to its first two, which the model cannot express since a `Pos` has exactly two coordinates.
- The `HooverResponsePayload` JSON shape: `Process` returns a plain `(Pos, nat)` pair.
- The SLF4J logging calls: side effects with no bearing on the result.
- Java's `char` is a UTF-16 code unit, while a Dafny `char` is a Unicode scalar value. A character outside the Basic Multilingual Plane is therefore two ignored instructions in the Java code and one in the model. Ignored characters change nothing (`Cleaning.ProcessIgnoresNoise`), so the answers agree.
- Java `int` overflow is modelled only for the single move (`Hoover.MoveInt32`), where `Hoover.Int32MoveAgrees` shows it makes no difference. The cleaned counter cannot overflow: it is at most the number of distinct patches.
- `CleaningService.process` mutates a `Position` object during the loop. That object is never stored in the hash set, so value semantics (`Pos` as a datatype) give the same membership tests and removals.
