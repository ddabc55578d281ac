# QSpinPuzzle engine in Dafny

This project models the puzzle engine of QSpinPuzzle (`src/puzzle/`) and proves
properties of the model.

## The puzzle

A **side** is a trefoil of three leaves (NORTH, EAST, WEST).
- Each leaf holds ten marbles, and three of them sit on the central disk.
- A side keeps its thirty marbles in one array, together with a `Status`:
  - a phase for each leaf and one for the internal disk;
  - a rotation flag for each leaf;
  - a two-entry history of trefoil modes.
- Wrap-around iterators read a leaf (ten slots) or the whole ring (thirty slots)
  starting from a phase-dependent first marble.
- Depending on the mode:
  - leaves turn on their own;
  - the border ring turns as a whole;
  - the disk turns and carries its coupling marbles from leaf to leaf.

The **game** holds a FRONT and a BACK side, the active side, three spin angles and the
keyboard section.
- Spinning a leaf past ±90 degrees swaps five marbles between the two sides.
- The game also handles keys and commands.
- It checks whether the puzzle is solved and whether the ids are consistent.
- It writes a colour snapshot, and the disorder metric reads that snapshot.

The smaller parts of the core are modelled too:
- the move recorder and its replay cursor;
- the line-based record and configuration formats;
- the Caesar cipher.

## How the model is built

Code that updates state in place becomes a Dafny `class`, and its methods are proved
against pure specification functions.

| C++ | Dafny class | mutable state | specification module |
|---|---|---|---|
| `SpinPuzzleSide` | `PuzzleSide.SpinPuzzleSide` | marbles in an `array<Marble>`; a `PuzzleSide.Status` with `seq` fields | `SideSpec` |
| `SpinPuzzleGame` | `PuzzleGame.SpinPuzzleGame` | two sides and an `array<real>` of spin angles | `GameSpec` |
| `Recorder` | `GameRecorder.Recorder` | — | `GameRecorder` |
| `SpinPuzzleRecord` | `PuzzleRecord.SpinPuzzleRecord` | — | `PuzzleRecord` |
| `Configuration` | `PuzzleConfiguration.Configuration` | — | `PuzzleConfiguration` |
| `Cipher` | `PuzzleCipher.Cipher` | — | `PuzzleCipher` |

**The method contracts.** Every mutating method ensures that its new `State()` equals
the specification function applied to the old state. The loops keep the C++ shape:
- `iter_swap` over arrays;
- scratch buffers;
- the metric's counting loops.

**The lemmas** are stated over the specification functions:
- permutation of the marbles;
- round trips and involutions;
- the mode state machine;
- the scenarios the C++ tests pin down.

**Modelling choices.**
- Angles are `real`.
- C `fmod` is written out as a truncated remainder (`Angles.FMod`).
- Iterators are values (`SideIterator.Iterator`).
- Text streams are strings with a cursor (`Text.Stream`).
- `operator>>`, `std::getline` and `atoi` are modelled in module `Text`.

## Model

| member | source | states |
|---|---|---|
| Definitions.Leaf.Code | src/puzzle/spin_puzzle_definitions.h:61-68 | LEAF codes run 0..5; a leaf is a section (NORTH, EAST, WEST) iff its code is below the number of leaves, and TREFOIL is the one leaf whose code equals that number |
| Definitions.LeafFromCode | src/puzzle/spin_puzzle_definitions.h:61-68 | casting an integer to LEAF succeeds exactly for codes 0..5 and yields the unique leaf with that code |
| Definitions.Rotation.Code | src/puzzle/spin_puzzle_definitions.h:73-76 | ROTATION codes: OK is 0 and INVALID is 1 |
| Definitions.TrefoilStatus.Code | src/puzzle/spin_puzzle_definitions.h:84-89 | TREFOIL mode codes lie in 0..3 |
| Definitions.TrefoilFromCode | src/puzzle/spin_puzzle_definitions.h:84-89 | casting an integer to TREFOIL succeeds exactly for 0..3 and yields the unique mode with that code |
| Definitions.Time.Code | src/puzzle/spin_puzzle_definitions.h:94-97 | TIME: CURRENT is index 1 and PREVIOUS index 0 of the mode history |
| Definitions.SideId.Code | src/puzzle/spin_puzzle_definitions.h:102-105 | SIDE: FRONT is index 0 and BACK index 1 |
| Definitions.SideId.Other | src/puzzle/spin_puzzle_game.cpp:242-253 | the other side is never the side itself |
| Marbles.Default | src/puzzle/spin_marble.h:84-87 | a default marble (id -1, invalid colour) is not valid |
| Marbles.MoveOut | src/puzzle/spin_marble.h:37-42 | move construction returns the source marble and leaves a default marble in its slot, nothing else changes |
| Marbles.MoveAssign | src/puzzle/spin_marble.h:49-55 | move assignment puts the source marble in the target slot, resets the source slot to the default marble and leaves every other slot of both arrays alone |
| Marbles.IterSwap | src/puzzle/spin_marble.h:37-55 | `std::iter_swap` through the move operations exchanges exactly the two slots, within one array or across two |
| Marbles.Swap | src/puzzle/spin_marble.h:37-55 | exchanging two cells puts each one's old value in the other and leaves every other cell as it was |
| Marbles.SwapArrays | src/puzzle/spin_puzzle_side.h:878 | `std::swap` of two marble arrays exchanges their whole contents |
| Marbles.SwapPermutes | src/puzzle/spin_marble.h:62-68 | since marbles can only be moved, a swap keeps the multiset of marbles |
| Angles.FMod | src/puzzle/spin_puzzle_side.h:718-719 | C `fmod`: the remainder has the dividend's sign and a magnitude below the divisor, and a dividend already in [0, m) is returned unchanged |
| Angles.FModSteps | src/puzzle/spin_puzzle_side.h:121 | a dividend in [k·m, (k+1)·m) loses exactly k divisors |
| Angles.FloorStepsBounds | src/puzzle/spin_puzzle_side.h:427 | `floor(t / DTHETA)` is the largest whole number of steps that fits in t: q steps fit and q + 1 do not, also for negative t |
| Angles.CRem | src/puzzle/spin_puzzle_side.h:277 | C `%` on integers: Euclidean for non-negative dividends, and in (-n, 0] for negative ones |
| SideStatus.InitialStatus | src/puzzle/spin_puzzle_side.h:101-110 | a fresh Status: all phases 0, leaves OK, TREFOIL slot INVALID, history (INVALID, LEAF_ROTATION) |
| SideStatus.UpdateShift | src/puzzle/spin_puzzle_side.h:118-123 | only the given leaf's phase changes; it lands in [0, 360) whenever old + angle + 360 is non-negative |
| SideStatus.SetShift | src/puzzle/spin_puzzle_side.h:125-130 | only the given leaf's phase changes; it lands in [0, 360) whenever angle + 360 is non-negative, and setting 0 stores 0 |
| SideStatus.SetFlag | src/puzzle/spin_puzzle_side.h:132-136 | the given flag takes the new value and every other flag and field is unchanged |
| SideStatus.PushMode | src/puzzle/spin_puzzle_side.h:180-185 | the new mode becomes CURRENT and the old CURRENT becomes PREVIOUS; phases and flags are untouched |
| SideStatus.UpdateShiftCompose | src/puzzle/spin_puzzle_side.h:118-123 | two phase updates by a and b that stay inside [0, 360) equal one update by a + b |
| PuzzleSide.Status.constructor | src/puzzle/spin_puzzle_side.h:101-110 | a new Status is the initial status |
| PuzzleSide.Status.UpdateShiftForLeaf | src/puzzle/spin_puzzle_side.h:118-123 | updates the arrays as UpdateShift says and returns the stored phase |
| PuzzleSide.Status.SetShiftForLeaf | src/puzzle/spin_puzzle_side.h:125-130 | updates the arrays as SetShift says and returns the stored phase |
| PuzzleSide.Status.SetRotationStatus | src/puzzle/spin_puzzle_side.h:132-136 | sets one flag as SetFlag says and returns true |
| PuzzleSide.Status.SetCentralDiskShift | src/puzzle/spin_puzzle_side.h:156 | replaces the disk phase and nothing else |
| PuzzleSide.Status.SetTrefoilStatus | src/puzzle/spin_puzzle_side.h:180-185 | shifts the two-entry history as PushMode says |
| SideIterator.Iterator.Slot | src/puzzle/spin_puzzle_side.h:303-305 | the marble an iterator points at always lies inside its range [lo, lo + len) |
| SideIterator.Iterator.Plus | src/puzzle/spin_puzzle_side.h:246-290 | `+`/`+=` by any offset, negative included, moves the cursor to (cur + offset) mod len and stays in range; offset 0 or LEAF_SPINNING leave it where it is; range, mode and angle never change |
| SideIterator.StepCursor | src/puzzle/spin_puzzle_side.h:271-290 | the C++ branch sequence (normalise a negative offset with C `%`, reduce, then step or wrap past the end) lands on (cur + offset) mod n |
| SideIterator.PlusOffset | src/puzzle/spin_puzzle_side.h:276-288 | the normalised offset equals offset mod n and both branches (step inside the range or wrap past its end) give (cur + offset) mod n |
| SideIterator.ModShift | src/puzzle/spin_puzzle_side.h:242-256 | wrapping before adding a further offset changes nothing, so successive `+=` compose |
| SideIterator.RangeStart | src/puzzle/spin_puzzle_side.h:231-235 | a leaf iterator starts at leaf·N, a TREFOIL iterator at 0 |
| SideIterator.RangeLength | src/puzzle/spin_puzzle_side.h:223-235 | a leaf iterator covers N slots, a TREFOIL iterator all 3N |
| SideIterator.MakeIterator | src/puzzle/spin_puzzle_side.h:223-238 | the constructor fixes leaf, range, mode and angle and applies `+= pos` (no move in LEAF_SPINNING) |
| SideIterator.AdvanceCursor | src/puzzle/spin_puzzle_side.h:242 | k applications of `++` move the cursor k places mod len (none in LEAF_SPINNING) |
| SideIterator.RetreatCursor | src/puzzle/spin_puzzle_side.h:244 | k applications of `--` move the cursor k places back mod len |
| SideIterator.WalkAt | src/puzzle/spin_puzzle_side.h:242-305 | the j-th marble read by repeated `++` is the marble at the slot of the iterator advanced j times |
| SideIterator.WalkRotates | src/puzzle/spin_puzzle_side.h:271-290 | a full walk over a range reads the range rotated to start at the cursor |
| SideIterator.WalkPermutes | src/puzzle/spin_puzzle_side.h:271-290 | a full walk reads each marble of the range exactly once |
| SideIterator.WalkFromStart | src/puzzle/spin_puzzle_side.h:231-238 | from cursor 0 a full walk reads the range in storage order |
| SideIterator.StepFor | src/puzzle/spin_puzzle_side.h:422-437 | the step begin uses is DTHETA = 36 outside border rotation and DTHETA/12 in BORDER_ROTATION |
| SideIterator.BeginAngleBounds | src/puzzle/spin_puzzle_side.h:418-439 | for a phase in [0, 360) begin's residual angle lies in [-step/2, step/2) except in the last half step, and its position offset lies in (-360/step, 0] |
| SideWalks.AdvanceAdd | src/puzzle/spin_puzzle_side.h:242 | advancing by a then by b is advancing by a + b |
| SideWalks.AdvanceDistinct | src/puzzle/spin_puzzle_side.h:271-290 | within one lap distinct step counts reach distinct slots |
| SideWalks.WalkSplit | src/puzzle/spin_puzzle_side.h:242-305 | a walk of a + b marbles is the walk of a followed by the walk of b from where it stopped |
| SideWalks.LeafSlots | src/puzzle/spin_puzzle_side.h:869-877 | the NORTH, EAST and WEST cursors read slots of their own leaf block only |
| SideWalks.ResetStep | src/puzzle/spin_puzzle_side.h:873-877 | one pass of the scratch-buffer loop extends all three copied leaf walks by one marble and leaves every unvisited slot of the source untouched |
| SideSpec.NewSide | src/puzzle/spin_puzzle_side.h:668-674 | a new side holds the given thirty marbles and the initial status |
| SideSpec.Begin | src/puzzle/spin_puzzle_side.h:418-463 | begin(leaf) and begin() give an iterator over the leaf (or ring) range in the side's current mode |
| SideSpec.UpdateRotationStatus | src/puzzle/spin_puzzle_side.h:715-730 | only the leaf's flag changes, to the flag computed from its phase and the current mode |
| SideScenarios.LeafBlockedNearBorder | src/puzzle/spin_puzzle_side.h:715-730 | outside border rotation a leaf is flagged INVALID iff its phase lies strictly within the tolerance of a sector border 36k + 18 |
| SideSpec.RotateLeaf | src/puzzle/spin_puzzle_side.h:732-737 | turning a leaf moves no marble and keeps the mode |
| SideSpec.RotateBorder | src/puzzle/spin_puzzle_side.h:642-651 | turning the border moves no marble and keeps the mode |
| SideSpec.SetAllShifts | src/puzzle/spin_puzzle_side.h:810-812 | the three leaf phases are all set as set_shift_for_leaf would, nothing else changes |
| SideSpec.ResetForBorder | src/puzzle/spin_puzzle_side.h:865-882 | reset_marbles_for_border_rotation zeroes the three phases and only permutes the marbles |
| SideSpec.LeavesPermute | src/puzzle/spin_puzzle_side.h:865-882 | reading the three leaves into the scratch buffer one after the other loses and duplicates no marble |
| SideSpec.ResetFromBorder | src/puzzle/spin_puzzle_side.h:800-813 | reset_marbles_from_border_rotation zeroes the three phases and only permutes the marbles |
| SideSpec.BorderExchangePermutes | src/puzzle/spin_puzzle_side.h:825-841 | the seam swaps after a border reset, at 60 or at 300 degrees, permute the marbles |
| SideSpec.Reorder | src/puzzle/spin_puzzle_side.h:815-857 | reorder_marbles_after_border_reset keeps the mode history and only permutes the marbles |
| SideSpec.ReorderExchange | src/puzzle/spin_puzzle_side.h:819-846 | the seam swaps and the +120 disk correction keep the mode history and only permute the marbles |
| SideSpec.PrepareForBorder | src/puzzle/spin_puzzle_side.h:884-888 | preparing for border rotation keeps the mode and only permutes the marbles |
| SideSpec.PrepareFromBorder | src/puzzle/spin_puzzle_side.h:859-863 | preparing to leave border rotation keeps the mode and only permutes the marbles |
| SideSpec.RotateMarbles | src/puzzle/spin_puzzle_side.h:693-713 | rotate_marbles fails, changing nothing, exactly when no border entry is possible and the mode is INVALID or LEAF_SPINNING; the marbles are only permuted; the new mode is BORDER_ROTATION when a border entry was possible and the old mode otherwise |
| SideSpec.RotateByMode | src/puzzle/spin_puzzle_side.h:705-712 | the mode dispatch succeeds iff the mode is LEAF_ROTATION or BORDER_ROTATION, never moves a marble and never changes the mode |
| SideSpec.EnterBorder | src/puzzle/spin_puzzle_side.h:699-703 | entering the border re-indexes (a permutation) and pushes BORDER_ROTATION over INVALID |
| SideSpec.RotateMarblesInLeafMode | src/puzzle/spin_puzzle_side.h:705-708 | in LEAF_ROTATION only the given leaf's phase moves, to fmod(old + angle + 360, 360); marbles, disk and mode stay |
| SideSpec.RotateMarblesInBorderMode | src/puzzle/spin_puzzle_side.h:709-711 | in BORDER_ROTATION all three phases move by angle/12, whatever leaf is named; marbles, disk and mode stay |
| SideSpec.RotateMarblesEntersBorder | src/puzzle/spin_puzzle_side.h:699-711 | when a border entry is possible, rotate_marbles is the border turn by angle/12 of the re-indexed side |
| SideSpec.CycleSwapsPermutes | src/puzzle/spin_puzzle_side.h:767-768 | the two swaps of one disk-loop pass permute the marbles |
| SideSpec.DiskCyclePermutes | src/puzzle/spin_puzzle_side.h:763-781 | the coupling-marble loop of the disk rotation permutes the marbles |
| SideSpec.TurnDisk | src/puzzle/spin_puzzle_side.h:763-781 | one disk turn leaves the status alone and only permutes the marbles |
| SideSpec.RotateInternalDisk | src/puzzle/spin_puzzle_side.h:739-799 | rotate_internal_disk succeeds iff all three leaves are OK, changes nothing when it fails, only permutes the marbles, and ends in LEAF_ROTATION iff the normalised new phase is within 5 degrees of 0, 120, 240 or 360 (INVALID otherwise) |
| SideSpec.LeaveBorder | src/puzzle/spin_puzzle_side.h:750-755 | leaving the border keeps the mode and only permutes the marbles |
| SideSpec.TurnInternalDisk | src/puzzle/spin_puzzle_side.h:757-796 | after the disk update the mode is LEAF_ROTATION iff the new phase is aligned, else INVALID, and the marbles are only permuted |
| SideSpec.ShiftDisk | src/puzzle/spin_puzzle_side.h:757-796 | the coupling-marble update changes only the disk phase of the status and only permutes the marbles |
| SideSpec.StartSpinningLeaf | src/puzzle/spin_puzzle_side.h:528-534 | starting a spin succeeds iff the leaf is OK; on success LEAF_SPINNING is pushed over the old mode; marbles never move |
| SideSpec.EndSpinningLeaf | src/puzzle/spin_puzzle_side.h:545-551 | ending a spin succeeds iff the mode is LEAF_SPINNING and then restores the previous mode |
| SideSpec.SpinningRoundTrip | src/puzzle/spin_puzzle_side.h:528-551 | start then end of a spin on a free leaf restores the mode and the marbles |
| SideSpec.SideCells | src/puzzle/spin_puzzle_side.h:890-920 | a side's snapshot covers 39 cells in BORDER_ROTATION and 36 otherwise |
| SideBorder.BeginAtZero | src/puzzle/spin_puzzle_side.h:418-463 | with all phases 0, begin starts at offset 0 with residual 0 |
| SideBorder.ResetAtZero | src/puzzle/spin_puzzle_side.h:800-882 | with all phases 0 the two border resets leave the side unchanged |
| SideBorder.Swap60Twice | src/puzzle/spin_puzzle_side.h:827-829 | the +60 seam swaps undo themselves |
| SideBorder.FlagsAtZero | src/puzzle/spin_puzzle_side.h:854-856 | recomputing the flags of an aligned side changes nothing |
| SideBorder.ReorderAt60 | src/puzzle/spin_puzzle_side.h:825-829 | at disk phase 60 with aligned leaves the reorder is exactly the three seam swaps |
| SideBorder.DiskTo60 | src/puzzle/spin_puzzle_side.h:739-799 | turning a new side's disk by 60 only sets the disk phase and leaves the side INVALID |
| SideBorder.EnterAt60 | src/puzzle/spin_puzzle_side.h:676-703 | at disk phase 60 in INVALID a border entry is possible and performs the seam swaps |
| SideBorder.BorderTurnAndBack | src/puzzle/spin_puzzle_side.h:642-651 | a border turn by 10/12 and back restores the side |
| SideBorder.LeaveAt60 | src/puzzle/spin_puzzle_side.h:750-796 | turning the disk back by 60 from the border undoes the seam swaps and returns to LEAF_ROTATION |
| SideBorder.BorderRoundTripEast | tests/t_puzzle_side.cpp:520-548 | disk +60, border turn by 10 and back, disk -60 returns a new side to its starting state, and in between the border is active with the seams swapped |
| SideDisk.DiskCycleAt | src/puzzle/spin_puzzle_side.h:763-781 | after k passes of the disk loop each slot holds the marble from the slot TurnSource names |
| SideDisk.TurnSourcesCancel | src/puzzle/spin_puzzle_side.h:763-781 | the forward and backward source maps are inverse |
| SideDisk.TurnSourceThrice | src/puzzle/spin_puzzle_side.h:763-768 | the forward source map applied three times is the identity |
| SideDisk.DiskCycleInverse | src/puzzle/spin_puzzle_side.h:763-781 | the NORTH->EAST->WEST loop and the WEST->EAST->NORTH loop undo each other |
| SideDisk.DiskCycleThrice | src/puzzle/spin_puzzle_side.h:763-768 | three forward disk loops restore the marbles |
| SideScenarios.NewSideAtRest | src/puzzle/spin_puzzle_side.h:668-674 | a new side is in LEAF_ROTATION with the disk at 0 and every leaf free |
| SideScenarios.TurnForwardFromRest | tests/t_puzzle_side.cpp:404-416 | a +120 disk turn from rest moves the coupling marbles one leaf on and leaves the side at rest |
| SideScenarios.TurnBackwardFromRest | tests/t_puzzle_side.cpp:432-444 | a -120 disk turn from rest moves them one leaf back and leaves the side at rest |
| SideScenarios.TurnRoundTrip | tests/t_puzzle_side.cpp:460-488 | +120 then -120 returns to the start |
| SideScenarios.TurnThrice | src/puzzle/spin_puzzle_side.h:760-772 | three +120 turns return to the start |
| SideScenarios.BeginTable | tests/t_puzzle_side.cpp:221-273 | leaf phase 9 starts at slot 0 with residual 9, phase 27 at slot 9 with residual -9, phase 36 at slot 9 with residual 0 |
| SideScenarios.NegativeDiskPhase | tests/t_puzzle_side.cpp:418-430 | disk +60 then +179 cycles the coupling marbles backwards and stores the negative phase -1 in LEAF_ROTATION |
| PuzzleSide.MoveLeavesOut | src/puzzle/spin_puzzle_side.h:865-877 | the scratch buffer receives the NORTH, EAST and WEST walks in ring order |
| PuzzleSide.MoveRingOut | src/puzzle/spin_puzzle_side.h:800-809 | the scratch buffer receives the ring walk |
| PuzzleSide.CycleMarbles | src/puzzle/spin_puzzle_side.h:763-781 | the in-place swap loop computes DiskCycle of the old array |
| PuzzleSide.WriteColors | src/puzzle/spin_puzzle_side.h:905-918 | writing count colours from an iterator overlays them from start and returns the iterator advanced count times |
| PuzzleSide.WriteRing | src/puzzle/spin_puzzle_side.h:893-903 | the border snapshot writes seven and three colours per leaf with a three-cell gap |
| PuzzleSide.LeafOfRing | src/puzzle/spin_puzzle_side.h:895-903 | leaf k of the ring walk is its N-M free marbles followed by its M coupling marbles |
| PuzzleSide.SpinPuzzleSide.constructor | src/puzzle/spin_puzzle_side.h:668-674 | a side built from thirty marbles is NewSide of them |
| PuzzleSide.SpinPuzzleSide.Assign | src/puzzle/spin_puzzle_game.cpp:339-340 | assigning a freshly built side replaces marbles and status |
| PuzzleSide.SpinPuzzleSide.IsRotationPossible | src/puzzle/spin_puzzle_side.h:558-560 | a leaf may rotate or spin iff its flag is OK |
| PuzzleSide.SpinPuzzleSide.Mode | src/puzzle/spin_puzzle_side.h:491-493 | the trefoil status is the current entry of the history |
| PuzzleSide.SpinPuzzleSide.UpdateRotationStatus | src/puzzle/spin_puzzle_side.h:715-730 | performs SideSpec.UpdateRotationStatus in place |
| PuzzleSide.SpinPuzzleSide.RotateLeaf | src/puzzle/spin_puzzle_side.h:732-737 | performs SideSpec.RotateLeaf and returns true |
| PuzzleSide.SpinPuzzleSide.RotateBorder | src/puzzle/spin_puzzle_side.h:642-651 | performs SideSpec.RotateBorder and returns true |
| PuzzleSide.SpinPuzzleSide.StartSpinningLeaf | src/puzzle/spin_puzzle_side.h:528-534 | performs SideSpec.StartSpinningLeaf, result included |
| PuzzleSide.SpinPuzzleSide.EndSpinningLeaf | src/puzzle/spin_puzzle_side.h:545-551 | performs SideSpec.EndSpinningLeaf, result included |
| PuzzleSide.SpinPuzzleSide.ResetForBorder | src/puzzle/spin_puzzle_side.h:865-882 | the scratch-buffer copy performs SideSpec.ResetForBorder |
| PuzzleSide.SpinPuzzleSide.ResetFromBorder | src/puzzle/spin_puzzle_side.h:800-813 | the scratch-buffer copy performs SideSpec.ResetFromBorder |
| PuzzleSide.SpinPuzzleSide.Reorder | src/puzzle/spin_puzzle_side.h:815-857 | performs SideSpec.Reorder in place |
| PuzzleSide.SpinPuzzleSide.ReorderExchange | src/puzzle/spin_puzzle_side.h:819-846 | the seam `iter_swap`s perform SideSpec.ReorderExchange |
| PuzzleSide.SpinPuzzleSide.PrepareForBorder | src/puzzle/spin_puzzle_side.h:884-888 | performs SideSpec.PrepareForBorder |
| PuzzleSide.SpinPuzzleSide.PrepareFromBorder | src/puzzle/spin_puzzle_side.h:859-863 | performs SideSpec.PrepareFromBorder |
| PuzzleSide.SpinPuzzleSide.EnterBorder | src/puzzle/spin_puzzle_side.h:699-703 | performs SideSpec.EnterBorder |
| PuzzleSide.SpinPuzzleSide.RotateMarbles | src/puzzle/spin_puzzle_side.h:693-713 | performs SideSpec.RotateMarbles, result included |
| PuzzleSide.SpinPuzzleSide.RotateByMode | src/puzzle/spin_puzzle_side.h:705-712 | performs SideSpec.RotateByMode, result included |
| PuzzleSide.SpinPuzzleSide.CycleCouplingMarbles | src/puzzle/spin_puzzle_side.h:763-781 | the swap loop performs SideSpec.TurnDisk |
| PuzzleSide.SpinPuzzleSide.LeaveBorder | src/puzzle/spin_puzzle_side.h:750-755 | performs SideSpec.LeaveBorder |
| PuzzleSide.SpinPuzzleSide.TurnInternalDisk | src/puzzle/spin_puzzle_side.h:757-796 | performs SideSpec.TurnInternalDisk |
| PuzzleSide.SpinPuzzleSide.ShiftDiskTo | src/puzzle/spin_puzzle_side.h:757-796 | the branch on the new phase (cycle forward and take 120 off, cycle backward and take 240 off, or keep) performs SideSpec.ShiftDisk |
| PuzzleSide.SpinPuzzleSide.TurnDiskBy | src/puzzle/spin_puzzle_side.h:739-799 | once every leaf is free, rotate_internal_disk leaves the border and turns the disk to the normalised phase disk + angle |
| PuzzleSide.BorderSwaps | src/puzzle/spin_puzzle_side.h:825-841 | the seam `iter_swap`s at 60 or at 300 degrees compute BorderExchange, which SideSpec.BorderExchangePermutes shows to be a permutation |
| PuzzleSide.MoveLeavesPass | src/puzzle/spin_puzzle_side.h:865-877 | one pass of the copy loop extends each of the three leaf walks in the scratch buffer by one marble and touches no unvisited slot of the side |
| PuzzleSide.SpinPuzzleSide.RotateInternalDisk | src/puzzle/spin_puzzle_side.h:739-799 | performs SideSpec.RotateInternalDisk, result included |
| PuzzleSide.SpinPuzzleSide.CurrentTimeStep | src/puzzle/spin_puzzle_side.h:890-920 | the side's colours are overlaid on the output array from start as SideCells lays them out; no other cell changes |
| Cells.OverlayAt | src/puzzle/spin_puzzle_side.h:890-920 | an overlay changes only the cells it paints, and those to the painted colours |
| Cells.OverlayConcat | src/puzzle/spin_puzzle_side.h:906-917 | painting a then b right after it is painting a + b |
| Cells.Painted | src/puzzle/spin_puzzle_side.h:897 | each marble paints its own colour, one cell per marble |
| GameSpec.GameState.WithSide | src/puzzle/spin_puzzle_game.h:125-128 | replacing one side leaves the other side and all other fields alone |
| GameSpec.NewGame | src/puzzle/spin_puzzle_game.cpp:9-12 | a game built from two 30-marble arrays is well formed (FRONT active, angles 0, nothing selected); GameProps.NewSideConsistent and GameProps.UniformLeaf say when it is consistent and solved |
| GameSpec.DefaultGame | src/puzzle/spin_puzzle_game.h:35-37 | the default game is well formed; GameProps.DefaultSolved and GameProps.DefaultConsistent show it solved and consistent |
| GameSpec.RotateMarbles | src/puzzle/spin_puzzle_game.cpp:14-19 | the game's rotate_marbles keeps the game well formed; GameInvariants.GameRotateMarblesKeeps shows it touches only the active side |
| GameSpec.RotateInternalDisk | src/puzzle/spin_puzzle_game.cpp:21-26 | the game's rotate_internal_disk keeps the game well formed; GameInvariants.GameRotateDiskKeeps shows it touches only the active side |
| GameSpec.OppositeLeaf | src/puzzle/spin_puzzle_game.cpp:228-240 | the opposite leaf is a section and is NORTH exactly for NORTH |
| GameSpec.OppositeLeafInvolution | src/puzzle/spin_puzzle_game.cpp:228-240 | NORTH maps to itself and EAST and WEST to each other, so the map is an involution |
| GameSpec.Fold | src/puzzle/spin_puzzle_game.cpp:216-226 | the spin fold; GameSpec.FoldInvolution shows it maps (-90, 270] to itself and undoes itself there |
| GameSpec.FoldInvolution | src/puzzle/spin_puzzle_game.cpp:216-226 | the spin fold (a > 90 gives a - 180, else a + 180) maps (-90, 270] to itself and is an involution there |
| GameSpec.SwapSide | src/puzzle/spin_puzzle_game.cpp:105-112 | swap_side flips the active side and folds each spin angle; both sides' marbles and status stay |
| GameSpec.SwapSideTwice | src/puzzle/spin_puzzle_game.cpp:105-112 | two swap_side calls restore the game when the angles lie in (-90, 270] |
| GameSpec.SpinExchange | src/puzzle/spin_puzzle_game.cpp:56-88 | the five-marble exchange changes no status, angle or active side |
| GameSpec.SpinExchangePermutes | src/puzzle/spin_puzzle_game.cpp:86-88 | the exchange permutes the sixty marbles of the two sides |
| GameSpec.SpinLeaf | src/puzzle/spin_puzzle_game.cpp:35-91 | spin_leaf succeeds iff the leaf is free and old progress + fmod(angle, 360) leaves [-90, 90); a blocked leaf changes nothing; a short spin moves no marble; other leaves' angles stay; marbles are only permuted across the sides |
| GameSpec.Reset | src/puzzle/spin_puzzle_game.cpp:335-341 | reset restores both default sides and FRONT but keeps spin angles and keyboard section |
| GameSpec.ProcessKey | src/puzzle/spin_puzzle_game.cpp:408-464 | process_key returns true for every handled key and false, changing nothing, for an unknown key |
| GameSpec.TurnSelected | src/puzzle/spin_puzzle_game.cpp:433-449 | Left/Right touch only the active side, never angles or selection, and do nothing without a leaf or disk selected |
| GameSpec.SpinSelected | src/puzzle/spin_puzzle_game.cpp:450-457 | PageUp/PageDown do nothing unless a leaf is selected |
| GameSpec.ProcessCommand | src/puzzle/spin_puzzle_game.cpp:343-406 | process_command returns true for every listed command and false, changing nothing, otherwise |
| GameSpec.Shuffle | src/puzzle/spin_puzzle_game.cpp:466-485 | playing a list of keys with fraction 1 keeps the game well formed; GameInvariants.ShuffleKeeps and GameInvariants.ShuffleConsistent give the invariants it keeps |
| GameSpec.LeafComplete | src/puzzle/spin_puzzle_game.cpp:133-149 | a leaf is complete when the ten marbles read from begin(leaf) share the first one's colour; GameProps.UniformLeaf gives a complete leaf and PuzzleGame.IsLeafComplete computes it |
| GameSpec.GameSolved | src/puzzle/spin_puzzle_game.cpp:151-171 | solved means both sides in LEAF_ROTATION and all six leaves complete; GameProps.DefaultSolved and GameProps.ResetSolved show the default and every reset game solved |
| GameSpec.ConsistentSide | src/puzzle/spin_puzzle_game.cpp:173-207 | a side is consistent when no id read from it is bad and no id below 60 occurs twice; GameProps.ConsistentSideIff restates this as ids in 0..60 without repeats below 60 |
| GameSpec.Consistent | src/puzzle/spin_puzzle_game.cpp:114-119 | both sides are consistent, each on its own; GameInvariants.PermutedDefaultConsistent shows every permutation of the default marbles consistent |
| GameSpec.GameCells | src/puzzle/spin_puzzle_game.cpp:487-498 | the snapshot has SIZE_STEP_ARRAY cells |
| GameExchange.ExchangePermutes | src/puzzle/spin_puzzle_game.cpp:86-88 | the cross-array swap loop permutes the union of the two arrays |
| GameExchange.ExchangeFrame | src/puzzle/spin_puzzle_game.cpp:86-88 | slots outside the two windows are neither read nor written |
| GameExchange.ExchangeTwice | src/puzzle/spin_puzzle_game.cpp:86-88 | over windows of distinct slots the exchange undoes itself |
| GameExchange.PassDistinct | src/puzzle/spin_puzzle_game.cpp:86 | outside LEAF_SPINNING, up to a full lap of cursor steps visit pairwise distinct slots, so the five-marble loop never swaps a slot twice |
| GameProps.SpinTwiceRestores | tests/t_puzzle_game.cpp:27-86 | two default 180-degree spins of a free leaf both succeed and restore the game |
| GameProps.ExchangeBack | src/puzzle/spin_puzzle_game.cpp:56-88 | the five-marble exchange undoes itself |
| GameProps.SpinInSteps | tests/t_puzzle_game.cpp:103-124 | spins of 45 and 44 only accumulate (89), a further 90 crosses and stores -1, a further 100 crosses back and stores -81 |
| GameProps.SpinShort | src/puzzle/spin_puzzle_game.cpp:43-53 | a spin that stays in [-90, 90) stores the sum and returns false |
| GameProps.SpinOver | src/puzzle/spin_puzzle_game.cpp:54-90 | a spin that leaves [-90, 90) exchanges the marbles, stores the folded angle and returns true |
| GameProps.NewSideLeaf | src/puzzle/spin_puzzle_side.h:418-463 | on a new side each leaf iterator reads its block in storage order |
| GameProps.UniformLeaf | src/puzzle/spin_puzzle_game.cpp:133-149 | a leaf block of one colour on a new side is complete |
| GameProps.DefaultSolved | tests/t_puzzle_game.cpp:88-101 | the default game is solved |
| GameProps.ResetSolved | src/puzzle/spin_puzzle_game.cpp:335-341 | after reset the game is solved and consistent |
| GameProps.CountAtMostOne | src/puzzle/spin_puzzle_game.cpp:194-198 | an id counted at most once iff it does not occur twice |
| GameProps.CountPresent | src/puzzle/spin_puzzle_game.cpp:194-196 | an id is counted iff it occurs |
| GameProps.ConsistentSideIff | src/puzzle/spin_puzzle_game.cpp:173-207 | a side is consistent iff every id lies in 0..60 and no id below 60 occurs twice |
| GameProps.NewSideConsistent | src/puzzle/spin_puzzle_game.cpp:173-207 | a new side with distinct ids in 0..59 is consistent |
| GameProps.DefaultConsistent | src/puzzle/spin_puzzle_game.cpp:255-333 | the default game is consistent |
| GameProps.SwapKeyTwice | src/puzzle/spin_puzzle_game.cpp:458-460 | pressing P twice restores the game |
| GameProps.InternalCommandsAgree | src/puzzle/spin_puzzle_game.cpp:388-395 | INTERNAL_LEFT and INTERNAL_RIGHT both select the disk and turn it by 0 |
| GameProps.TurnWithoutSelection | src/puzzle/spin_puzzle_game.cpp:433-457 | without a leaf or disk selected, Left, Right, PageUp and PageDown return true and change nothing |
| GameInvariants.WithSidePermutes | src/puzzle/spin_puzzle_game.h:150-153 | replacing a side by a permutation of it permutes all sixty marbles |
| GameInvariants.SideMovesNotSpinning | src/puzzle/spin_puzzle_side.h:693-799 | leaf and disk rotations never enter LEAF_SPINNING |
| GameInvariants.GameRotateMarblesKeeps | src/puzzle/spin_puzzle_game.cpp:14-19 | the game's rotate_marbles changes nothing when refused, and always keeps the other side, the spin progress, the active side and the selection, keeps the sixty marbles and starts no spin |
| GameInvariants.GameRotateDiskKeeps | src/puzzle/spin_puzzle_game.cpp:21-26 | the same for the game's rotate_internal_disk |
| GameInvariants.TurnSelectedKeeps | src/puzzle/spin_puzzle_game.cpp:433-449 | Left/Right permute the sixty marbles and never enter LEAF_SPINNING |
| GameInvariants.ProcessKeyKeeps | src/puzzle/spin_puzzle_game.cpp:408-464 | every key permutes the sixty marbles and never enters LEAF_SPINNING |
| GameInvariants.ShuffleKeeps | src/puzzle/spin_puzzle_game.cpp:466-485 | a shuffle permutes the sixty marbles and never enters LEAF_SPINNING |
| GameInvariants.CountIdPermutation | src/puzzle/spin_puzzle_game.cpp:194-196 | id counts depend only on the multiset of marbles |
| GameInvariants.DefaultIds | src/puzzle/spin_puzzle_game.cpp:255-333 | the default marbles carry each id in 0..59 at most once |
| GameInvariants.SideConsistent | src/puzzle/spin_puzzle_game.cpp:173-207 | a side whose marbles carry distinct ids in 0..59 passes `check_consistency_side` |
| GameInvariants.PermutedDefaultConsistent | src/puzzle/spin_puzzle_game.cpp:114-119 | any game whose sixty marbles permute the default ones is consistent |
| GameInvariants.ShuffleConsistent | src/puzzle/spin_puzzle_game.cpp:466-485 | whatever key sequence shuffle plays from the default game, the consistency check passes |
| GameLayout.SideCellsLeaf | src/puzzle/spin_puzzle_side.h:904-919 | outside border rotation leaf k's ten colours sit at 13k..13k+9 of the side's cells, followed by three unpainted cells |
| GameLayout.ActiveCell | src/puzzle/spin_puzzle_game.cpp:493 | cell 0 holds the active side's code |
| GameLayout.FrontCell | src/puzzle/spin_puzzle_game.cpp:491-494 | front leaf k's colours sit at 1 + 13k + i, the gaps stay INVALID_COLOR |
| GameLayout.BackCell | src/puzzle/spin_puzzle_game.cpp:495-496 | back leaf k's colours sit at (SIZE_STEP_ARRAY - 1)/2 + 13k + i, the gaps stay INVALID_COLOR |
| GameLayout.TailCells | src/puzzle/spin_puzzle_game.cpp:491-492 | cells after the back side stay INVALID_COLOR |
| GameLayout.BorderFrontOverwritten | src/puzzle/spin_puzzle_game.cpp:494-496 | a front side in BORDER_ROTATION paints cell (SIZE_STEP_ARRAY - 1)/2, and the back side's first colour overwrites it |
| PuzzleGame.ExchangeMarbles | src/puzzle/spin_puzzle_game.cpp:86-88 | the swap loop across the two arrays computes Exchange |
| PuzzleGame.IsLeafComplete | src/puzzle/spin_puzzle_game.cpp:133-149 | the loop returns true iff all ten marbles read from begin(leaf) share the first one's colour |
| PuzzleGame.ScanForId | src/puzzle/spin_puzzle_game.cpp:184-197 | one scan reports an error iff some id is -1, negative or above 60, and counts the marbles with the given id |
| PuzzleGame.CheckConsistencySide | src/puzzle/spin_puzzle_game.cpp:173-207 | the nested loop returns the consistency predicate of the side |
| PuzzleGame.SpinPuzzleGame.constructor | src/puzzle/spin_puzzle_game.cpp:9-12 | the game is built from the two marble arrays, FRONT active, angles 0 |
| PuzzleGame.SpinPuzzleGame.Default | src/puzzle/spin_puzzle_game.h:35-37 | the default game is built from the canonical arrays |
| PuzzleGame.SpinPuzzleGame.GetSide | src/puzzle/spin_puzzle_game.h:125-128 | get_side(FRONT) is the front side and get_side(BACK) the back side |
| PuzzleGame.SpinPuzzleGame.GetActiveSide | src/puzzle/spin_puzzle_game.h:74 | returns the active side |
| PuzzleGame.SpinPuzzleGame.SetActiveSide | src/puzzle/spin_puzzle_game.h:68 | only the active side changes; the angles are not folded |
| PuzzleGame.SpinPuzzleGame.GetKeyboardState | src/puzzle/spin_puzzle_game.h:134 | returns the selected section |
| PuzzleGame.SpinPuzzleGame.RotateMarbles | src/puzzle/spin_puzzle_game.cpp:14-19 | performs GameSpec.RotateMarbles on the active side |
| PuzzleGame.SpinPuzzleGame.RotateInternalDisk | src/puzzle/spin_puzzle_game.cpp:21-26 | performs GameSpec.RotateInternalDisk on the active side |
| PuzzleGame.SpinPuzzleGame.UpdateSpinRotationAngle | src/puzzle/spin_puzzle_game.cpp:216-226 | stores the folded angle for the leaf and changes nothing else |
| PuzzleGame.SpinPuzzleGame.ExchangeWindows | src/puzzle/spin_puzzle_game.cpp:56-88 | the cursors and swap loop perform GameSpec.SpinExchange |
| PuzzleGame.SpinPuzzleGame.SpinLeaf | src/puzzle/spin_puzzle_game.cpp:35-91 | performs GameSpec.SpinLeaf, result included |
| PuzzleGame.SpinPuzzleGame.SpinLeafDefault | src/puzzle/spin_puzzle_game.cpp:28-32 | spin_leaf(leaf) is spin_leaf(leaf, 180) |
| PuzzleGame.SpinPuzzleGame.SwapSide | src/puzzle/spin_puzzle_game.cpp:105-112 | performs GameSpec.SwapSide |
| PuzzleGame.SpinPuzzleGame.IsGameSolved | src/puzzle/spin_puzzle_game.cpp:151-171 | returns true iff both sides are in LEAF_ROTATION and all six leaves are complete |
| PuzzleGame.SpinPuzzleGame.CheckConsistency | src/puzzle/spin_puzzle_game.cpp:114-119 | returns true iff both sides are consistent |
| PuzzleGame.SpinPuzzleGame.Reset | src/puzzle/spin_puzzle_game.cpp:335-341 | performs GameSpec.Reset |
| PuzzleGame.SpinPuzzleGame.ProcessKey | src/puzzle/spin_puzzle_game.cpp:408-464 | performs GameSpec.ProcessKey, result included |
| PuzzleGame.SpinPuzzleGame.TurnSelected | src/puzzle/spin_puzzle_game.cpp:436-449 | performs GameSpec.TurnSelected |
| PuzzleGame.SpinPuzzleGame.SpinSelected | src/puzzle/spin_puzzle_game.cpp:450-457 | performs GameSpec.SpinSelected |
| PuzzleGame.SpinPuzzleGame.ProcessCommand | src/puzzle/spin_puzzle_game.cpp:343-406 | performs GameSpec.ProcessCommand, result included |
| PuzzleGame.SpinPuzzleGame.Shuffle | src/puzzle/spin_puzzle_game.cpp:466-485 | plays the key sequence through process_key with fraction 1 |
| PuzzleGame.SpinPuzzleGame.CurrentTimeStep | src/puzzle/spin_puzzle_game.cpp:487-498 | returns a fresh array holding GameCells of the game |
| Metric.ColorIndex | src/puzzle/spin_metrics.cpp:19-35 | the five named colours get classes 0..4 and every other colour class 5 |
| Metric.WindowsOnLeaves | src/puzzle/spin_metrics.cpp:54 | window t starts at 1 + 13t for the front and at (SIZE_STEP_ARRAY - 1)/2 + 13(t - 3) for the back, inside the snapshot |
| Metric.Window | src/puzzle/spin_metrics.cpp:52-58 | window t is the ten snapshot cells the metric reads for leaf t; Metric.WindowReadsFront and Metric.WindowReadsBack tie them to the leaves' colours |
| Metric.Count | src/puzzle/spin_metrics.cpp:55-57 | the number of cells of a window in one colour class is at most its length; Metric.CountsCover and Metric.CountUniform give the rest |
| Metric.MaxCount | src/puzzle/spin_metrics.cpp:74-81 | the running maximum of a class's counts over the windows; Metric.MaxCountBounds bounds it |
| Metric.Numerator | src/puzzle/spin_metrics.cpp:82-84 | the summed best counts; Metric.NumeratorBounds puts them in [10, 60] and Metric.FullScore gives 60 |
| Metric.CountsCover | src/puzzle/spin_metrics.cpp:55-57 | the class counts of a window add up to its length, so each window contributes ten |
| Metric.MaxCountBounds | src/puzzle/spin_metrics.cpp:74-81 | the best count of a class is at most ten and at least each window's count |
| Metric.NumeratorBounds | src/puzzle/spin_metrics.cpp:82-84 | the summed best counts lie between 10 and 60, so the score lies in [1/6, 1] |
| Metric.CountUniform | src/puzzle/spin_metrics.cpp:55-57 | a window of one colour counts fully in that colour's class and nowhere else |
| Metric.WindowReadsFront | src/puzzle/spin_metrics.cpp:52-58 | outside border rotation window k reads the front leaf k's colours |
| Metric.WindowReadsBack | src/puzzle/spin_metrics.cpp:52-58 | outside border rotation window 3 + k reads the back leaf k's colours |
| Metric.DefaultCount | tests/t_puzzle_metric.cpp:10-18 | in the default game window t counts ten in class t and nothing elsewhere |
| Metric.FullScore | src/puzzle/spin_metrics.cpp:82-95 | if every class reaches ten somewhere the score is 60/60 |
| Metric.DefaultScore | tests/t_puzzle_metric.cpp:10-18 | the default game and every reset game score 60/60 |
| Metric.CountWindows | src/puzzle/spin_metrics.cpp:12-58 | the counting loops fill the six-by-six table with each window's class counts |
| Metric.CountWindow | src/puzzle/spin_metrics.cpp:52-58 | the inner loops fill one row of the table with that window's class counts and leave the other rows alone |
| Metric.MaxColors | src/puzzle/spin_metrics.cpp:74-81 | the running-maximum loops compute each class's best count |
| Metric.SumColors | src/puzzle/spin_metrics.cpp:82-84 | the last loop adds the best counts |
| Metric.NaiveDisorder | src/puzzle/spin_metrics.cpp:6-96 | naive_disorder only reads the game and returns the summed best counts over 60, a value in (0, 1] |
| Text.IndexOf | src/puzzle/spin_configuration.cpp:62 | the first newline position, or the end, with no newline before it |
| Text.Getline | src/puzzle/spin_configuration.cpp:62 | `std::getline` yields a line without newline iff the stream was not at its end, and consumes input |
| Text.ReadInto | src/puzzle/spin_configuration.cpp:71 | `getline` into a field stores the line, or keeps the field at end of stream |
| Text.GetlineLine | src/puzzle/spin_configuration.cpp:62 | reading a written line gives it back and leaves the rest |
| Text.SkipSpace | src/puzzle/spin_game_recorder.h:79 | `operator>>` skips a white-space prefix |
| Text.TakeWord | src/puzzle/spin_game_recorder.h:79 | a word is the longest non-space prefix |
| Text.ReadWord | src/puzzle/spin_game_recorder.h:79-82 | a word read by `>>` has no white space |
| Text.ReadWordBack | src/puzzle/spin_game_recorder.h:62-64 | a word written between separators is read back by `>>` |
| Text.NatToString | src/puzzle/spin_game_recorder.h:143 | a non-negative integer prints as one or more digits |
| Text.IntToString | src/puzzle/spin_game_recorder.h:62 | an integer prints as one word |
| Text.NatToStringValue | src/puzzle/spin_game_recorder.h:143 | the printed digits denote the number |
| Text.AtoiIntToString | src/puzzle/spin_configuration.cpp:67 | `atoi` of a printed integer gives it back |
| Text.ParseIntToString | src/puzzle/spin_game_recorder.h:79 | `>>` into an integer reads a printed integer back |
| Text.ParseNatToString | src/puzzle/spin_game_recorder.h:161 | `>>` into a size reads a printed size back |
| PuzzleCipher.Version.Code | src/puzzle/spin_puzzle_cipher.h:11-16 | VERSION codes lie in 0..2 |
| PuzzleCipher.Alphabet | src/puzzle/spin_puzzle_cipher.h:29-33 | slot i of the alphabet is ' ' + i for i < 95 and slot 95 is the terminating '\0' |
| PuzzleCipher.EncryptChar | src/puzzle/spin_puzzle_cipher.cpp:29-35 | the encryption of a character is ASCII, and newline is the only character mapped to newline |
| PuzzleCipher.DecryptChar | src/puzzle/spin_puzzle_cipher.cpp:44-50 | the decryption of a character is ASCII, and newline is the only character mapped to newline |
| PuzzleCipher.Encrypted | src/puzzle/spin_puzzle_cipher.cpp:23-38 | one output character per input character |
| PuzzleCipher.Decrypted | src/puzzle/spin_puzzle_cipher.cpp:39-53 | one output character per input character |
| PuzzleCipher.EncryptIsDecrypt | src/puzzle/spin_puzzle_cipher.cpp:32-34 | with key 48 = 96/2 encryption and decryption are the same map, ALPHABET[(p + 48) mod 96] on printable characters |
| PuzzleCipher.CharRoundTrip | src/puzzle/spin_puzzle_cipher.cpp:32-49 | decrypt undoes encrypt (and the reverse) on newline and every printable character except 'O' |
| PuzzleCipher.StringRoundTrip | src/puzzle/spin_puzzle_cipher.cpp:23-53 | decrypt(encrypt(s)) == s for text without 'O', and fails for every text containing 'O' |
| PuzzleCipher.Cipher.constructor | src/puzzle/spin_puzzle_cipher.h:18-20 | the version is fixed at construction |
| PuzzleCipher.Cipher.Encrypt | src/puzzle/spin_puzzle_cipher.cpp:5-12 | v0 encrypts, any other version returns the input |
| PuzzleCipher.Cipher.Decrypt | src/puzzle/spin_puzzle_cipher.cpp:14-21 | v0 decrypts, any other version returns the input |
| PuzzleCipher.CaesarEncrypt | src/puzzle/spin_puzzle_cipher.cpp:23-38 | the loop maps each character by the encryption map, length kept |
| PuzzleCipher.CaesarDecrypt | src/puzzle/spin_puzzle_cipher.cpp:39-53 | the loop maps each character by the decryption map, length kept |
| PuzzleCipher.CipherRoundTrip | src/puzzle/spin_puzzle_cipher.cpp:5-21 | decrypt(encrypt(s)) == s for every version on restorable text |
| PuzzleConfiguration.DefaultConfig | src/puzzle/spin_configuration.h:29-34 | the default configuration has version 1 |
| PuzzleConfiguration.LoadSpec | src/puzzle/spin_configuration.cpp:58-82 | a failed load changes at most the version; a successful one has version 1 |
| PuzzleConfiguration.DumpLines | src/puzzle/spin_configuration.cpp:47-56 | dump writes six lines: header, version, name, level, speed, realism |
| PuzzleConfiguration.DumpLoad | src/puzzle/spin_configuration.cpp:47-82 | load of a dump restores name, level and realism (speed through the number format); loading a dump of another version fails and changes only the target's version, to the dumped one |
| PuzzleConfiguration.WrongHeader | src/puzzle/spin_configuration.cpp:61-65 | a wrong first line fails and changes nothing |
| PuzzleConfiguration.WrongVersion | src/puzzle/spin_configuration.cpp:66-70 | a version other than 1 fails after overwriting the version |
| PuzzleConfiguration.Configuration.constructor | src/puzzle/spin_configuration.h:30-34 | a new configuration holds the defaults |
| PuzzleConfiguration.Configuration.Copy | src/puzzle/spin_configuration.h:14 | the copy holds the same fields |
| PuzzleConfiguration.Configuration.SetName | src/puzzle/spin_configuration.cpp:5-9 | changes the name only |
| PuzzleConfiguration.Configuration.SetLevel | src/puzzle/spin_configuration.cpp:10-14 | changes the level only |
| PuzzleConfiguration.Configuration.SetSpeed | src/puzzle/spin_configuration.cpp:15-19 | changes the speed only |
| PuzzleConfiguration.Configuration.SetRealism | src/puzzle/spin_configuration.cpp:20-24 | changes the realism only |
| PuzzleConfiguration.Configuration.Name | src/puzzle/spin_configuration.cpp:26-30 | returns the stored name |
| PuzzleConfiguration.Configuration.Level | src/puzzle/spin_configuration.cpp:31-35 | returns the stored level |
| PuzzleConfiguration.Configuration.Speed | src/puzzle/spin_configuration.cpp:36-40 | returns the stored speed |
| PuzzleConfiguration.Configuration.Realism | src/puzzle/spin_configuration.cpp:41-45 | returns the stored realism |
| PuzzleConfiguration.Configuration.Dump | src/puzzle/spin_configuration.cpp:47-56 | appends DumpText to the stream |
| PuzzleConfiguration.Configuration.Load | src/puzzle/spin_configuration.cpp:58-82 | performs LoadSpec, result included |
| PuzzleRecord.DefaultRecord | src/puzzle/spin_puzzle_record.h:37-40 | a default record: username "", time 0, level -1, default game |
| PuzzleRecord.SkipLines | src/puzzle/spin_puzzle_record.cpp:68-74 | lines other than "record" are skipped |
| PuzzleRecord.SkipMarker | src/puzzle/spin_puzzle_record.cpp:68-74 | the scan stops right after the "record" line |
| PuzzleRecord.SkipPastMarker | src/puzzle/spin_puzzle_record.cpp:68-74 | the line-skipping loop stops right after the "record" line, or at the end of the text |
| PuzzleRecord.FieldsBack | src/puzzle/spin_puzzle_record.cpp:75-81 | username, time and level lines are read back |
| PuzzleRecord.SerializeLoad | src/puzzle/spin_puzzle_record.cpp:42-106 | load after any leading lines restores username, time and level, and the game's load reads exactly the game's text |
| PuzzleRecord.NoMarker | src/puzzle/spin_puzzle_record.cpp:64-84 | without a "record" line load still succeeds, keeps the username, reads time and level as 0 and hands the game's load a stream at its end |
| PuzzleRecord.EmptyLoad | src/puzzle/spin_puzzle_record.cpp:64-84 | loading an empty text: every getline fails, time and level are 0 and the game's load gets a stream at its end |
| PuzzleRecord.RecordRoundTrip | tests/t_puzzle_records.cpp:9-30 | when the game's load reads the saved game back from its text, load of serialize restores the whole record: username, time, level and game |
| PuzzleRecord.SpinPuzzleRecord.Default | src/puzzle/spin_puzzle_record.h:14 | the default record |
| PuzzleRecord.SpinPuzzleRecord.constructor | src/puzzle/spin_puzzle_record.cpp:4-13 | stores the four fields verbatim |
| PuzzleRecord.SpinPuzzleRecord.Copy | src/puzzle/spin_puzzle_record.h:21 | a field-wise copy |
| PuzzleRecord.SpinPuzzleRecord.Username | src/puzzle/spin_puzzle_record.cpp:15-19 | returns the stored username |
| PuzzleRecord.SpinPuzzleRecord.Time | src/puzzle/spin_puzzle_record.cpp:20-24 | returns the stored time |
| PuzzleRecord.SpinPuzzleRecord.Level | src/puzzle/spin_puzzle_record.cpp:25-29 | returns the stored level |
| PuzzleRecord.SpinPuzzleRecord.Game | src/puzzle/spin_puzzle_record.cpp:30-34 | returns the stored game |
| PuzzleRecord.SpinPuzzleRecord.UpdateTime | src/puzzle/spin_puzzle_record.cpp:36-40 | changes the time only |
| PuzzleRecord.SpinPuzzleRecord.Serialize | src/puzzle/spin_puzzle_record.cpp:53-62 | appends the record text and returns true |
| PuzzleRecord.SpinPuzzleRecord.Load | src/puzzle/spin_puzzle_record.cpp:86-106 | performs LoadSpec, ending with m_game.load through gameLoad, returns the stream the game's load read from, and returns true |
| GameRecorder.NewEvent | src/puzzle/spin_game_recorder.h:40-52 | a new event stores its type, angle and leaf code, with time 0 |
| GameRecorder.EventText | src/puzzle/spin_game_recorder.h:59-72 | the line Event::serialize writes (type, angle, leaf, time or 0, newline); GameRecorder.EventBack reads it back |
| GameRecorder.ReadWords | src/puzzle/spin_game_recorder.h:79-82 | reading n words yields n words |
| GameRecorder.ReadSize | src/puzzle/spin_game_recorder.h:161 | a size read by `>>` fits in size_t |
| GameRecorder.LoadEvent | src/puzzle/spin_game_recorder.h:74-85 | a loaded event fits the field widths (int32 type and leaf, size_t time) |
| GameRecorder.SizeBack | src/puzzle/spin_game_recorder.h:143 | the written event count is read back |
| GameRecorder.LineBack | src/puzzle/spin_game_recorder.h:62-70 | the words of a written event line are read back, up to its newline |
| GameRecorder.EventBack | src/puzzle/spin_game_recorder.h:59-85 | Event::load of Event::serialize restores type, leaf and (with times) time, and the angle through the number format |
| GameRecorder.JoinedSnoc | src/puzzle/spin_game_recorder.h:144-146 | writing one more event appends its line |
| GameRecorder.LoadEvents | src/puzzle/spin_game_recorder.h:163-167 | reading n events yields n more |
| GameRecorder.JoinedBack | src/puzzle/spin_game_recorder.h:144-167 | events written one after another are read back in order when each is |
| GameRecorder.EventsBack | src/puzzle/spin_game_recorder.h:144-167 | the written event list is read back |
| GameRecorder.SerializeLoad | src/puzzle/spin_game_recorder.h:139-168 | load of serialize gives back the start line and the events |
| GameRecorder.RecorderLoad | src/puzzle/spin_game_recorder.h:152-168 | what load reads: the start line, the count and that many events; GameRecorder.SerializeLoad shows it reads back what serialize writes |
| GameRecorder.LoadKeepsStaleStart | src/puzzle/spin_game_recorder.h:158-160 | see Findings: loading into a recorder with a start text appends to it |
| GameRecorder.EventLeaf | src/puzzle/spin_game_recorder.h:84 | the stored leaf code casts back to that leaf |
| GameRecorder.ApplyAllStep | src/puzzle/spin_game_recorder.cpp:57-78 | applying one more event of the slice is one more loop pass |
| GameRecorder.ApplyAllSplit | src/puzzle/spin_game_recorder.cpp:54-84 | playing a + b is playing a then b |
| GameRecorder.LoggedEvent | src/puzzle/spin_game_recorder.cpp:6-34 | each recording method logs a playable, storable event |
| GameRecorder.IntendedEventReplays | src/puzzle/spin_game_recorder.cpp:66-68 | see Findings: the SPIN_LEAF_ANGLE event replays the move it records |
| GameRecorder.LoggedEventReplays | src/puzzle/spin_game_recorder.cpp:6-34 | every logged move replays as itself, except that an angled spin replays as a 180-degree spin |
| GameRecorder.SpinAngleLost | src/puzzle/spin_game_recorder.cpp:18-22 | see Findings: an angled spin of 45 degrees replays differently |
| GameRecorder.IntendedSessionReplays | src/puzzle/spin_game_recorder.cpp:46-79 | see Findings: a corrected log replays the whole session |
| GameRecorder.Dispatch | src/puzzle/spin_game_recorder.cpp:59-77 | the switch applies one event to the game |
| GameRecorder.ApplyEvent | src/puzzle/spin_game_recorder.cpp:59-77 | the replay switch on one event keeps the game well formed; GameRecorder.LoggedEventReplays and GameRecorder.SpinAngleLost compare it with the move that was logged |
| GameRecorder.PlayMove | src/puzzle/spin_game_recorder.cpp:6-34 | the game call behind each recording method keeps the game well formed; it is what GameRecorder.LoggedEventReplays compares the replay with |
| GameRecorder.Recorder.constructor | src/puzzle/spin_game_recorder.h:27 | a new recorder is empty and not recording |
| GameRecorder.Recorder.Copy | src/puzzle/spin_game_recorder.h:28-35 | the copy has the events, cursor and start text, and is not recording |
| GameRecorder.Recorder.RotateMarbles | src/puzzle/spin_game_recorder.cpp:6-10 | appends one ROTATE_MARBLES event |
| GameRecorder.Recorder.RotateInternalDisk | src/puzzle/spin_game_recorder.cpp:12-16 | appends one ROTATE_INTERNAL_DISK event with leaf INVALID |
| GameRecorder.Recorder.SpinLeafAngle | src/puzzle/spin_game_recorder.cpp:18-22 | appends one SPIN_LEAF event with the angle |
| GameRecorder.Recorder.SpinLeaf | src/puzzle/spin_game_recorder.cpp:24-28 | appends one SPIN_LEAF event with angle 180 |
| GameRecorder.Recorder.SwapSide | src/puzzle/spin_game_recorder.cpp:30-34 | appends one SWAP_SIDE event with angle 0 and leaf INVALID |
| GameRecorder.Recorder.Reset | src/puzzle/spin_game_recorder.cpp:35-39 | clears the events and puts the cursor at the (empty) end |
| GameRecorder.Recorder.Rec | src/puzzle/spin_game_recorder.cpp:41-44 | appends the game text to the start buffer and starts recording |
| GameRecorder.Recorder.Stop | src/puzzle/spin_game_recorder.h:109-116 | clears the recording flag, changing nothing else |
| GameRecorder.Recorder.Size | src/puzzle/spin_game_recorder.h:119-122 | the number of events |
| GameRecorder.Recorder.Current | src/puzzle/spin_game_recorder.h:123-126 | the cursor index |
| GameRecorder.Recorder.IsEnd | src/puzzle/spin_game_recorder.h:134-137 | true iff the cursor is past the last event |
| GameRecorder.Recorder.CurrentTime | src/puzzle/spin_game_recorder.h:100-106 | time of the current (or last) event minus the first, as a size_t |
| GameRecorder.Recorder.PlayTo | src/puzzle/spin_game_recorder.cpp:54-79 | play applies the events from the cursor up to the stop or the end, in order, and leaves the cursor there |
| GameRecorder.Recorder.StepForward | src/puzzle/spin_game_recorder.cpp:81-84 | moves the cursor to min(cursor + steps, size), applying those events, and returns whether events remain |
| GameRecorder.Recorder.Rewind | src/puzzle/spin_game_recorder.cpp:86-88 | sets the cursor to 0 |
| GameRecorder.Recorder.Replay | src/puzzle/spin_game_recorder.cpp:46-52 | applies every event in order and leaves the cursor at the end |
| GameRecorder.Recorder.Serialize | src/puzzle/spin_game_recorder.h:139-148 | appends the start text, the count and each event line |
| GameRecorder.Recorder.Load | src/puzzle/spin_game_recorder.h:152-168 | see Findings: appends the read line and a newline to the start text, replaces the events by those read, rewinds the cursor and keeps the recording flag |
| GameRecorder.Recorder.LoadReplacing | src/puzzle/spin_game_recorder.h:152-168 | see Findings: replaces the start text by the read line and a newline, and the events by those read |
| GameRecorder.LoadEventsInto | src/puzzle/spin_game_recorder.h:163-167 | the load loop collects the events LoadEvents reads |
| GameRecorder.WriteEvents | src/puzzle/spin_game_recorder.h:144-146 | the serialize loop writes the event lines in order |
| PuzzleCipher.LetterOLost | src/puzzle/spin_puzzle_cipher.cpp:32-34 | see Findings |
| PuzzleCipher.CorrectedEncryptChar | src/puzzle/spin_puzzle_cipher.cpp:32-34 | see Findings |
| PuzzleCipher.CorrectedDecryptChar | src/puzzle/spin_puzzle_cipher.cpp:47-49 | see Findings |
| PuzzleCipher.CorrectedRoundTrip | src/puzzle/spin_puzzle_cipher.cpp:23-53 | see Findings: the corrected maps are inverse on newline and all 95 printable characters |
| Angles.FModTurns | src/puzzle/spin_puzzle_side.h:121 | a phase sum in [360k, 360(k+1)) is brought back by exactly k turns |
| SideIterator.WalkWraps | src/puzzle/spin_puzzle_side.h:282-287 | the j-th marble of a full walk is read before the wrap at lo + cur + j and after it at lo + cur + j - len |
| SideWalks.WalkSlice | src/puzzle/spin_puzzle_side.h:242-305 | any stretch of a walk is the walk from the iterator advanced to its start |
| SideWalks.NextUnvisited | src/puzzle/spin_puzzle_side.h:873-877 | after k passes of the scratch-buffer loop the slots the three cursors read next have not yet been moved out |
| SideBorder.ZeroPhaseFree | src/puzzle/spin_puzzle_side.h:715-730 | a phase of 0 leaves a leaf free in every mode |
| SideBorder.FromEndAtOrigin | src/puzzle/spin_puzzle_side.h:827-841 | counting back k marbles from an iterator at its origin reaches slot lo + 10 - k |
| SideBorder.ExchangeAtOrigins | src/puzzle/spin_puzzle_side.h:827-829 | with the three leaf iterators at their origins the +60 seam exchange is the fixed swap of the three seams |
| SideBorder.BeginsAtOrigins | src/puzzle/spin_puzzle_side.h:418-439 | a side whose phases are all 0 starts every leaf iterator at its origin |
| SideBorder.StartAngles | src/puzzle/spin_puzzle_side.h:739-755 | a new side's disk is at 0, leaving the border changes nothing, and a +60 turn normalises to 60 |
| SideBorder.TurnTo60 | src/puzzle/spin_puzzle_side.h:757-796 | a +60 disk turn on a new side only sets the disk phase and pushes INVALID over LEAF_ROTATION |
| SideScenarios.TurnFromRest | src/puzzle/spin_puzzle_side.h:757-796 | a disk turn to 120 (forward) or to 240 (backward) from rest moves exactly the coupling marbles one leaf on or back |
| SideScenarios.BeginPositions | tests/t_puzzle_side.cpp:221-273 | begin's position offsets for phases 9, 27 and 36 are 0, -1 and -1 |
| GameExchange.MissesAhead | src/puzzle/spin_puzzle_game.cpp:86-88 | a cursor slot the loop has passed is not visited again within the same lap |
| GameExchange.DistinctAhead | src/puzzle/spin_puzzle_game.cpp:86-88 | the slots a cursor visits in less than a lap are pairwise distinct |
| GameProps.ExchangeSides | src/puzzle/spin_puzzle_game.cpp:56-88 | the exchange writes the active side's new marbles to the active side and the other's to the opposite side, FRONT or BACK alike |
| GameInvariants.CountIdConcat | src/puzzle/spin_puzzle_game.cpp:194-196 | counting an id over two sequences back to back adds the two counts |
| GameLayout.FirstCellPainted | src/puzzle/spin_puzzle_side.h:890-920 | the first cell of a side's snapshot is always painted |
| Metric.MaxSumBounds | src/puzzle/spin_metrics.cpp:74-84 | the sum of the best counts lies between the first window's total and ten per class |
| Metric.DefaultMax | tests/t_puzzle_metric.cpp:10-18 | in the default layout every class reaches ten |
| Metric.DefaultSidesScore | tests/t_puzzle_metric.cpp:10-18 | in the default layout the numerator is 60 |
| Text.TakeWordPrefix | src/puzzle/spin_game_recorder.h:79-82 | a word followed by a separator is taken whole |
| GameRecorder.Int32Value | src/puzzle/spin_game_recorder.h:79-84 | an integer read by `>>` fits in int32 |
| GameRecorder.SizeValue | src/puzzle/spin_game_recorder.h:161 | a size read by `>>` fits in size_t |
| GameRecorder.ReadWordsStep | src/puzzle/spin_game_recorder.h:79-82 | leading white space and one more word before a separator add that word in front of the words read |
| GameRecorder.DefaultNorthFree | src/puzzle/spin_game_recorder.cpp:18-28 | in the default game NORTH is free and has spin progress 0 |
| GameRecorder.Recorder.LoadEventList | src/puzzle/spin_game_recorder.h:161-167 | the loop replaces the events by those read after the count, rewinds the cursor and keeps the start text |
| PuzzleGame.SpinPuzzleGame.Keys | src/puzzle/spin_puzzle_game.cpp:343-406 | a command is a selection key with fraction 1 followed by an action key, as GameSpec.Keys says |
| PuzzleConfiguration.ReadVersion | src/puzzle/spin_configuration.cpp:66-70 | the version line either fails, changing only the version, or leaves version 1 |
| PuzzleConfiguration.ReadFields | src/puzzle/spin_configuration.cpp:71-81 | reading the four fields never touches the version |
| PuzzleConfiguration.Configuration.ReadVersionInto | src/puzzle/spin_configuration.cpp:66-70 | performs ReadVersion in place |
| PuzzleConfiguration.Configuration.ReadFieldsInto | src/puzzle/spin_configuration.cpp:71-81 | performs ReadFields in place |
| PuzzleRecord.LoadSpec | src/puzzle/spin_puzzle_record.cpp:64-106 | after the marker search and the three field reads, the game is whatever the game's load (the parameter gameLoad) makes of the old game and the stream left after the fields |

## Left out

- The Qt widgets, main program, pybind11 bindings and Python packages are not part of this model: they are display and glue.
- File streams and the file system are not modelled; streams are strings read through a cursor.
- The game's own serialize and load are not shown in the source. The game text is an opaque string in the recorder and the record: the record's `Serialize` takes it as `gameText`, and `PuzzleRecord.LoadSpec` and `PuzzleRecord.SpinPuzzleRecord.Load` take the game's load as the parameter `gameLoad`.
- GameRecorder.Recorder.Replay: reloading the start game from the start text is left out for the same reason. The method plays the events on the game it is given.
- GameRecorder.Recorder.Copy: the copy's cursor is an index into its own event list. The C++ copy constructor copies `m_current`, an iterator into the source recorder's vector, so `isEnd()` and `current()` on a copy refer to the other container; that aliasing is not modelled.
- `rewind(game)` is left out for the same reason; `rewind()` is modelled.
- The random key sequence of `shuffle` (ActionProvider) is a parameter: `Shuffle` plays a given list of keys. Its debug check and `to_string` dumps are left out.
- `to_string`, `start_rotating_central_disk` and the verbose printing of the consistency check are left out. They are debug output or never instantiated.
- The `assert(false)` branch of `reorder_marbles_after_border_reset` is a precondition of `Reorder`: the disk is within tolerance of 60 or 300.
- The metric's `int8_t` counters hold at most 60, so their width is not modelled.
- Floating point is modelled as exact `real` arithmetic; rounding is not modelled.
- The number formatting of doubles (`setprecision`) and `atof` are parameters `fmt` and `parse`/`atof`. Angle and speed round trips hold through whatever these functions do.
- `atoi` and `>>` on out-of-range text are not modelled beyond the int32/size_t bounds that `Int32Value` and `SizeValue` impose.
- Event::load on malformed text: the C++ leaves fields unread and carries on. The model stops and reports the load as failed.
- Recorder timestamps (`std::chrono`) are not modelled; new events carry time 0, as without `QSPIN_PUZZLE_RECORD_TIMES`.
- GameRecorder.Recorder.Reset: clearing the vector in C++ leaves the cursor iterator dangling. The model puts the cursor at 0, which is the end of the empty list.
- GameRecorder.Recorder.Load: the C++ clears the event vector and leaves `m_current` pointing into it; the model rewinds the cursor to 0. When an event fails to parse, the model does not say which events remain.
- `isRecording()` is a plain getter of the recording flag and has no member of its own; the flag is part of `GameRecorder.Recorder.State()`.
- `play(game, time)` and `update_username` are declared but never defined in the source, so they are not modelled.
- The `Key_*` codes, the `COMMANDS` enum, the puzzle colour constants and `SIZE_STEP_ARRAY` are not shown. They are datatypes and constants here:
  - `SIZE_STEP_ARRAY` is 79, so that the back side starts at cell 39, where the metric reads it;
  - the colour codes follow the Qt mock for black, red and green, and other values are assumed.
- Characters outside ASCII in the cipher are excluded by precondition: the C++ indexes out of the alphabet for them.
- `SpinMarble` equality and `!=` are Dafny's structural datatype equality on id and colour.
- `get_angle_for_origin` divides DTHETA by 1, not 12, and is modelled as written.
- Rotation flags: the leaf flag takes `fmod(phase, DTHETA)` with DTHETA = 36 even in BORDER_ROTATION; only the centre and the tolerance it is compared with are divided by 12. The model computes it that way.
- Phase ranges: a disk turn can store a negative disk phase (`SideScenarios.NegativeDiskPhase` ends at -1), and a leaf phase goes negative after a large negative turn. The model claims no [0, 360) range for stored phases.

## Findings

| source | as written | input that shows it | evidently intended | confidence | as-written member | corrected member |
|---|---|---|---|---|---|---|
| src/puzzle/spin_puzzle_cipher.cpp:32-34 | the 96-slot alphabet has only 95 characters, so slot 95 is the string terminator '\0' and 'O' (position 47, 47 + 48 = 95) encrypts to '\0', which decrypts to '0' | "O" | a 95-character alphabet (or a table without the terminator slot) so that decrypt(encrypt(c)) == c for every printable c | not executed | PuzzleCipher.LetterOLost | PuzzleCipher.CorrectedRoundTrip |
| src/puzzle/spin_game_recorder.cpp:18-22 | `spin_leaf(leaf, angle)` logs type SPIN_LEAF, whose replay calls `spin_leaf(leaf)` and spins by 180 whatever the angle was | a 45-degree spin of NORTH on the default game: played it only stores progress 45, replayed it swaps marbles | log SPIN_LEAF_ANGLE, which replay dispatches to `spin_leaf(leaf, angle)` | not executed | GameRecorder.SpinAngleLost | GameRecorder.IntendedSessionReplays |
| src/puzzle/spin_game_recorder.h:158-160 | `load` calls `m_start_game.clear()`, which only resets the stream's error flags, then appends the read line, so a recorder that already held a start game keeps it in front | load into a recorder whose start text is non-empty | replace the start text (`m_start_game.str("")` before writing) | not executed | GameRecorder.LoadKeepsStaleStart | GameRecorder.Recorder.LoadReplacing |
