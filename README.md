# Deductive Sudoku solver — a Dafny model

This project models the solving engine of the `sudoku` package: the 81-tile
grid with its candidate sets, occurrence index and sticky `violated` flag; the
remover `RemoveAndUpdate`, the only code that takes candidates away and that
cascades into "only place left for a digit" and "tile fixed, so clear its
peers"; the deduction rules `NTilesNOptions` (naked singles, pairs, triples),
`ScaledXWing` (X-Wing and Swordfish on rows and columns) and `YWing`; the
trial-and-error rule `Bifurcation`, which works on deep copies; and
`generate_solver`, which chains the rules by `advance` and `fall_back` links.

Layout, one Dafny module per file:

- `wrappers.dfy` — `Option`, `Result` and the Python exceptions that matter (`ValueError`, `IndexError`, `RuntimeError`).
- `positions.dfy` — tile indices, rows, columns and boxes, and the container lists.
- `state.dfy` — a snapshot `State` of a grid, the invariants every grid keeps and the total candidate count, which is the termination measure of every recursion.
- `structure.dfy` — the `Sudoku` grid as the class `Grid`, its constructor and queries, and the step counter `Stepper`.
- `propagation.dfy` — `RemoveAndUpdate` as mutually recursive methods.
- `ntiles.dfy`, `fish.dfy`, `ywing.dfy` — the three deduction rules.
- `solver.dfy` — parameter checks, `generate_solver`, and the `launch` cascade including `Bifurcation` and `_SolvingFail`.

The grid is a class whose fields are sequences and a map: `cand` (the options of
the 81 tiles), `nOpts` (the cached `n_options`), `solvedAt`, `occ` (the
occurrence set of every row, column and box for every digit) and `violated`.
Every method that changes a grid keeps `Valid()`: `nOpts` matches the
candidate sets and, unless `violated` is set, every occurrence set lists only
cells that still hold its digit and no cell is empty. Each change is tied to
the one before by `Evolves`: candidate sets only shrink, `violated` is never
cleared, the step counter never goes back, and a `solvedAt` marker only
changes on a cell that has one candidate left, to a step taken during that
change.

The solver's linked method objects become an arena: a sequence of `Node`s,
each holding its method and the indices of its `advance` and `fall_back`
successors. The index just past the last node stands for `_SolvingFail`. A
`launch` ends in an `Outcome`: `Solved(grid)` (the Python `Sudoku` returned),
`Contradiction` (the Python `False`), or `SolverError` (the raised exception).
The stepper is shared by every method and every copy of the grid, as the one
stepper handed to `generate_solver` is. The model only keeps its counter.

The model follows the code on three points:

- The constructor seeds tiles and occurrence sets only. It does not run an elimination pass over the clues.
- The occurrence set of a clue's digit in each of the clue's groups is overwritten with the clue cell alone. The occurrence sets are therefore subsets of the cells holding the digit, not always equal to them.
- The entry node advances to itself, not to the first listed method.

## Model

| member | source | states |
|---|---|---|
| Positions.RowColumnToIndex | src/sudoku/structure.py:15-27 | the index of row r and column c is a tile, and it lies in row r and column c |
| Positions.IndexToPos | src/sudoku/structure.py:29-40 | row, column and box of a tile lie in 0..8; `9*row + col` gives the tile back; the box is `3*(row/3) + col/3` |
| Positions.PosRoundTrip | src/sudoku/structure.py:15-40 | `row_column_to_index` inverts `index_to_pos`, in both directions |
| Positions.ContainerIsGroup | src/sudoku/structure.py:111-119 | each container list holds exactly the nine tiles of its group, in strictly ascending order |
| Positions.FirstBox | src/sudoku/structure.py:111-119 | the first box is the list `[0, 1, 2, 9, 10, 11, 18, 19, 20]` |
| Structure.LastClue | src/sudoku/structure.py:126-134 | a clue it finds is a clue cell of the slot's group holding the slot's digit |
| Structure.LastClueIsLast | src/sudoku/structure.py:126-134 | the clue found is the last such clue in index order, the one whose overwrite survives |
| Structure.LastClueNone | src/sudoku/structure.py:126-134 | no clue is found exactly when the group holds no clue for the digit |
| Structure.AddToOccurrences | src/sudoku/structure.py:120-122 | registers a tile under each of its digits in its group of one kind and leaves every other occurrence set alone |
| Structure.SeedTiles | src/sudoku/structure.py:110-124 | after the first loop every tile holds `{v}` for a clue v and all nine digits otherwise, and every occurrence set is exactly the group's cells holding the digit |
| Structure.OverwriteClues | src/sudoku/structure.py:126-134 | after the clue loop every occurrence set is the last clue cell when the group has a clue for the digit, and is unchanged otherwise |
| Structure.InitialOccurrenceHeld | src/sudoku/structure.py:117-134 | right after construction every occurrence set lists only cells that hold its digit, and it lists all of them when the group has no clue for the digit |
| Structure.IndexFromStart | src/sudoku/structure.py:117-134 | in every grid without a violation that a run reaches from a fresh one, each occurrence set lists only cells of its group that hold its digit, and lists all of them when the digit is no clue of that group |
| Structure.Grid.constructor | src/sudoku/structure.py:99-134 | a new grid is consistent and not violated, with initial candidates, all `solved_at` at 0 and the occurrence sets above |
| Structure.Grid.Copy | src/sudoku/solvingmethods.py:592 | `deepcopy`: an independent grid with the same candidates, markers, occurrence sets and flag |
| Structure.Grid.SetOptions | src/sudoku/structure.py:77-80 | the options setter replaces one tile's set and sets its `n_options` to the new size, touching nothing else |
| Structure.Grid.SetSolvedAt | src/sudoku/solvingmethods.py:259 | the tile's `solved_at` becomes the given step and no other field of the grid changes |
| Structure.Stepper.ShowStep | src/sudoku/stepping.py:80-90 | an effective removal advances the step counter by exactly one |
| Structure.Grid.MaxOptions | src/sudoku/structure.py:137-142 | the result bounds every tile's candidate count and is reached by some tile |
| Structure.Grid.Done | src/sudoku/structure.py:144-150 | true exactly when the grid is not violated and every tile has one candidate |
| Structure.Grid.IsValid | src/sudoku/structure.py:202-228 | false when violated; otherwise true exactly when every row, column and box still offers every digit 1..9 |
| Structure.Grid.GetSolved | src/sudoku/structure.py:244-252 | raises `RuntimeError` exactly when the grid is not done; otherwise a 9 by 9 table whose entry at row r, column c is that tile's single candidate |
| Structure.Grid.ComplexityMap | src/sudoku/structure.py:254-259 | a 9 by 9 table whose entry at row r, column c is that tile's `solved_at` |
| Structure.UnionOver | src/sudoku/structure.py:217-221 | a digit is in the union exactly when some listed tile holds it |
| GridState.TotalShrinks | src/sudoku/solvingmethods.py:299-313 | when no candidate set grows, the total candidate count does not grow, and it drops when some set loses a digit |
| GridState.RemovalEvolves | src/sudoku/solvingmethods.py:266-306 | taking digits out of one tile and its occurrence entries is a legal step: sets shrink, the flag stays, and the total drops by the number removed |
| GridState.RemovalConsistent | src/sudoku/solvingmethods.py:266-297 | a removal that did not empty the tile or an occurrence set keeps the grid consistent |
| GridState.EvolvesTrans | src/sudoku/solvingmethods.py:178-317 | two legal steps in a row form one legal step |
| Propagation.UpdateOccurrences | src/sudoku/solvingmethods.py:266-282 | changes only occurrence sets of the removed digits in the tile's row, column and box, and at most by dropping the tile; answers true exactly when none of those sets runs empty without the tile, and then the tile is gone from all of them and `violated` is unchanged; on false `violated` is set |
| Propagation.RemoveAndCheck | src/sudoku/solvingmethods.py:284-307 | counts one step and takes exactly the given digits out of the tile; answers true exactly when the tile keeps a candidate and no touched occurrence set runs empty, and then the tile is gone from every touched set and `violated` is unchanged; on false `violated` is set |
| Propagation.Remove | src/sudoku/solvingmethods.py:309-317 | without a shared digit: false and no change; otherwise the tile loses every requested digit, the total drops, the counter advances, and the answer is true or the grid is violated; true means no violation, every touched slot that had exactly one other place has that place fixed to the slot's digit, and a tile left with one candidate has a `solved_at` from this call and shares no candidate with its peers |
| Propagation.UpdateChainRemoval | src/sudoku/solvingmethods.py:248-263 | answers true exactly when the grid ends up not violated; then every touched slot that had one place has that place fixed to the slot's digit, and a tile left with one candidate has `solved_at` set to a step of this call and shares no candidate with any tile of its row, column or box |
| Propagation.SingleOccurrence | src/sudoku/solvingmethods.py:192-220 | answers true exactly when no violation arose; then every slot of the tile's groups for a removed digit that had exactly one place has that place down to the slot's digit |
| Propagation.RemoveFromNeighbors | src/sudoku/solvingmethods.py:222-246 | answers true exactly when no violation arose; then no other tile of the fixed tile's row, column or box shares a candidate with it, and a tile that had one candidate keeps it |
| NTiles.EquivalentTiles | src/sudoku/solvingmethods.py:338-353 | a one-candidate tile matches only itself; otherwise the matches are all group tiles with the same candidate set when there are as many as candidates, and none otherwise |
| NTiles.RemoveShared | src/sudoku/solvingmethods.py:364-375 | without a violation no unmatched tile shares a candidate with the seed; true only when candidates were removed, and then the total dropped; false without a violation means no change; when the unmatched tiles already avoid the seed, false and no change |
| NTiles.NTilesContainer | src/sudoku/solvingmethods.py:355-377 | the ghost trace holds the grid as each of the nine seeds is reached, each state narrowing the last; without a violation every seed with n matches in the state where it was reached is recorded with those matches, and the group's other tiles share no candidate with any recorded seed; true means the total dropped and no violation; false without a violation leaves the grid unchanged with every seed of n matches cleared; a group in that state always gives false and no change |
| NTiles.NTilesKind | src/sudoku/solvingmethods.py:384-390 | the groups of one kind, with a ghost trace of the grid as each group is reached: a group whose pass changed no candidate and raised no violation was cleared in that state; a violated grid gives `Violated`; progress means the total dropped; no progress and no violation means no change and every group of the kind cleared; a kind already cleared always gives no progress |
| NTiles.NTilesScan | src/sudoku/solvingmethods.py:379-396 | rows, columns, boxes, with a ghost trace of the grid as each kind is reached: a kind whose pass changed no candidate and raised no violation was cleared in that state; a violated grid gives `Violated`; progress means the total dropped; a scan without progress or violation leaves the grid unchanged and with nothing left for `NTilesNOptions(n)` in any row, column or box; a grid in that state always gives no progress and no change |
| Fish.Qualifying | src/sudoku/solvingmethods.py:415-417 | every listed line lies below the bound and has exactly n places for the digit, and the list ascends |
| Fish.QualifyingComplete | src/sudoku/solvingmethods.py:415-417 | every line below the bound with exactly n places for the digit is listed |
| Fish.FindFish | src/sudoku/solvingmethods.py:411-423 | answers the first n qualifying lines that share their cross positions, the earliest line at which such a group completes; answers none exactly when no n qualifying lines of the grid share them |
| Fish.WithCrossGrows | src/sudoku/solvingmethods.py:415-421 | looking at more lines never shrinks the group of lines sharing given cross positions |
| Fish.FishBlocksNoFish | src/sudoku/solvingmethods.py:411-423 | a found fish and "no fish anywhere" exclude each other |
| Fish.FirstFishUnique | src/sudoku/solvingmethods.py:411-423 | the first fish is unique, and there is something to clear exactly when its throw-away set is not empty |
| Fish.ThrowAway | src/sudoku/solvingmethods.py:426-436 | the places of the digit on the cross lines through the first fish line that are not places of the fish |
| Fish.ThrowAwayHeld | src/sudoku/solvingmethods.py:426-436 | in a consistent grid every throw-away tile still holds the digit |
| Fish.RemoveDigit | src/sudoku/solvingmethods.py:438-450 | removes the digit from every given tile unless a violation stops it; true exactly without a violation, and then the total dropped |
| Fish.XWingRemoval | src/sudoku/solvingmethods.py:425-452 | true exactly when the first fish of the digit has throw-away cells and no violation arose, and then the total dropped; without a violation the digit is gone from every throw-away cell; nothing to clear means false and no change; false without a violation means no change |
| Fish.XWingLines | src/sudoku/solvingmethods.py:459-465 | digits 1..9 in lines of one kind, with a ghost trace of the grid as each digit is reached: unless its search raised a violation, the digit is gone from every throw-away tile of its first fish in that state, and a digit with nothing to clear left the grid as it was; a violated grid gives `Violated`; progress means the total dropped; no progress and no violation means no change and no digit has a fish to clear in those lines; a grid in that state always gives no progress and no change |
| Fish.XWingScan | src/sudoku/solvingmethods.py:454-470 | rows, then columns, with a ghost trace per direction joined end to start and each digit cleared as for `XWingLines`; a violated grid gives `Violated`; progress means the total dropped; a scan without progress or violation leaves the grid unchanged with no fish to clear for any digit in rows or columns; a grid in that state always gives no progress and no change |
| Wings.TileRange | src/sudoku/solvingmethods.py:518-522 | the tiles that see a tile, plus the tile itself |
| Wings.NodeCandidates | src/sudoku/solvingmethods.py:490-499 | the tiles seen by the anchor with two candidates, exactly one shared with the anchor |
| Wings.CommonRange | src/sudoku/solvingmethods.py:531-532 | the tiles other than the anchor that see both nodes |
| Wings.RemoveFromEach | src/sudoku/solvingmethods.py:540-552 | true exactly when no violation arose and some given tile held one of the digits, and then the total dropped; without a violation every given tile has lost the digits; when no tile held one, no change |
| Wings.FindYWingAndRemove | src/sudoku/solvingmethods.py:524-552 | picks a valid node pair exactly when one exists, and without one answers false with no change; with a pair, true exactly when no violation arose and some tile seeing both nodes held their shared digit; without a violation that digit is gone from all such tiles; when none held it, no change |
| Wings.YWingScan | src/sudoku/solvingmethods.py:554-570 | with a ghost trace of the grid as each anchor is reached: an anchor without two candidates changes nothing, and one with two, unless its search raised a violation, had the shared digit of a valid pair of that state removed from every tile seeing both nodes, or had no valid pair and changed nothing; progress means the total dropped; a scan without progress or violation leaves the grid unchanged with every two-candidate anchor settled; a grid where no valid pair of any anchor has anything to clear always gives no progress and no change |
| Solver.NewNTiles | src/sudoku/solvingmethods.py:169-174 | a parameter below 1 raises `ValueError`; any other gives that rule with that parameter |
| Solver.NewScaledXWing | src/sudoku/solvingmethods.py:169-174 | a parameter below 2 raises `ValueError`; any other gives that rule with that parameter |
| Solver.GenerateSolver | src/sudoku/solvertools.py:16-53 | an empty order raises `IndexError`; otherwise the entry `NTilesNOptions(1)` advances to itself and falls back to the first method, and method i advances to the first method and falls back to method i + 1, the last to `_SolvingFail` |
| Solver.WiredWellFormed | src/sudoku/solvertools.py:38-51 | every link of a generated solver stays inside it and every fall-back points further down |
| Solver.FallbackOrder | src/sudoku/solvertools.py:45-51 | after i failures in a row from the entry the i-th listed method runs, and after all of them `_SolvingFail` |
| Solver.LaunchRule | src/sudoku/solvingmethods.py:379-396 | a done grid is returned unchanged; otherwise a violation seen by the scan gives `False`, and a violated grid gives it at once for the naked subsets and the fish; hand-over to `_advance` only after the total dropped, and always after a drop without a violation; hand-over to `_fall_back` leaves the grid unchanged and exhausted under the method, and a grid on which the method can find nothing always goes there |
| Solver.RunRule | src/sudoku/solvingmethods.py:393-396 | after progress the `_advance` method is launched: a grid done by then is returned as it is (unless `_advance` is `Bifurcation`) and a grid violated by then gives `False` when `_advance` is a naked-subset or fish method; after no progress the `_fall_back` method is launched on the unchanged grid, so `_SolvingFail` raises `SolverError` and a violated grid gives `False` at the naked subsets and the fish |
| Solver.Run | src/sudoku/solvingmethods.py:108-134 | `_SolvingFail` raises `SolverError`; a done grid is returned unchanged; a violated grid at the naked subsets or the fish gives `False`; the hand-over of an eliminating method is as for `RunRule`; a solved outcome is a consistent grid with one candidate per tile taken from the tile's candidates at the start |
| Solver.TryOption | src/sudoku/solvingmethods.py:592-614 | one branch on a deep copy: the removal always counts a step; the ghost copy after removal lies within the grid's candidates without the option; `_SolvingFail` as `_advance` raises `SolverError`, a copy violated by the removal gives `False` at the naked subsets and the fish, and a copy done by the removal is returned as it is; a solved outcome is done and within the copy's candidates |
| Solver.Bifurcate | src/sudoku/solvingmethods.py:585-618 | picks the first tile with two candidates and leaves the grid itself unchanged; the ghost copies are the grids each branch hands to `_advance`, each within the grid's candidates, the first without the option tried and the second holding at most that option in the tile; a first copy already done is returned as it is with no second branch, and a first copy left violated gives `False` at the naked subsets and the fish and so always brings the second branch; after the second branch, a done second copy is returned as it is and a violated one gives `False`, so its outcome is the one returned; the ghost step count after the first branch is above the count at the start and grows exactly when the second branch runs; a solved first branch lacks the option tried, a solved second branch has the tile fixed to it; `_SolvingFail` as `_advance` raises `SolverError`; without such a tile the fall-back runs, so `_SolvingFail` raises `SolverError` and a violated grid gives `False` at the naked subsets and the fish; a solved outcome is done and within the grid's candidates |
| Solver.OtherOption | src/sudoku/solvingmethods.py:590-594 | the single candidate left of a two-candidate set once the other option is gone is the option first removed |
| Solver.Solve | src/sudoku/solvertools.py:16-53 | with an empty order `IndexError`; a solution of a new puzzle has one candidate per tile, keeping every clue |

## Left out

- The stepper is reduced to its step counter. Rendering, `set_consideration` messages and the stepper classes are not part of this model.
- `load` and `save` (CSV files) and the diagnostic `print` in `is_valid` are I/O and are left out.
- `get_tiles`, `get_options`, `Tile.to_none_tile`, `Tile.pos` and the `containers` / `occurrences` accessors only expose the fields and are left out.
- `_DeadRemover`, `RemoverMissingError` and `StepperMissingError` are left out: `generate_solver` gives every method a remover and the stepper, so a generated solver never reaches them.
- Methods handed to `generate_solver` are taken as fresh, distinct objects. Links a caller set on them beforehand, and an object listed twice, are not modelled.
- The order in which Python iterates a set (the removal targets, the throw-away and common-range tiles, the node list of `YWing`, `opts.pop()` in `Bifurcation`) is a nondeterministic choice. Every contract holds for every order.
- Python's `None` and `False` results of the internal helpers are both the Dafny `false`.
- Structure.Grid.constructor: requires at least 81 entries with values 0..9. A shorter list raises `IndexError` in the source and other values break the occurrence index; neither is modelled.
- Solver.Run and Solver.Bifurcate: do not state that a solved grid is a solution of the puzzle, or that a contradiction means there is none. They state consistency, completeness and that candidates only shrink.
- Solver.Run: the termination measure needs every fall-back to point further down, which `generate_solver` guarantees, so hand-wired cycles of fall-backs are not modelled.
- Wings.YWingScan: a scan without progress shows every anchor settled for the pair it picked, not for every valid pair. The pick follows a Python set's order, which is left open, so another pair of the same anchor might have cleared something. No progress is promised only when no valid pair of any anchor has anything to clear.
- Solver.RunRule: the outcome after the hand-over is stated through the next method's own guarantees (a done grid is returned, `_SolvingFail` raises, a violated grid gives `False` at the naked subsets and the fish, after progress as after none). Beyond those, it is not stated as a function of the grid, because the next method changes the grid in place.
- Solver.Bifurcate: which branch outcome is returned is tied to the real branches through their copies' hand-over facts (a done copy, a violated copy, `_SolvingFail`). When the advance method goes on to change a copy, that outcome is stated only against the ghost first outcome, for the same reason as for Solver.RunRule.
- Deep recursion limits of Python are not modelled.
