# A verified model of the weiqi (9×9 Go) rules engine

This project models the rules engine in `weiqi/script.js`, a browser Go game on a 9×9 board.
The model is written in Dafny. It covers:

- **Connectivity** (`connectivity.dfy`, on top of the board in `board.dfy`). Orthogonal neighbours; `findGroup` and `floodFill` as breadth-first searches; `getLibertyCoords` and `countLiberties`; `getAllGroups` as a row-major scan. Each search is proved equal to `Closure`. `Closure` is the least set that contains the seed and is closed under steps onto cells of one colour.
- **Moves** (`moves.dfy`). `attemptMove` is a method that works on a value copy of the board. It places the stone, clears the neighbouring opponent groups left without liberties, and refuses occupied cells, suicide and simple ko. It is proved to compute `Attempt`, a function on values. Lemmas characterise each refusal and each accepted move.
- **The dead-stone heuristic** (`dead.dfy`). `markDeadStonesAuto` marks the groups with fewer than two liberties, except a group next to a threatened opposing group through one of its liberties (the seki test).
- **Scoring** (`scoring.dfy`). `calculateTerritory` credits each empty region, once, to the one colour that borders it. `updateFinalScore` removes the dead stones, gives one bonus point per dead stone, and adds territory, captures and komi.
- **The computer player** (`ai.dfy`). `computerPlay` selects a White move: the first legal move, in row-major order, of maximal score `captured*50 − distance to (4,4)`.
- **The game state machine** (`game.dfy`). A class `Game` whose fields are the module-level variables of lines 9-17. Its methods are `resetGame`, `applyHandicap`, `handleMove`, `processMoveResult`, `finishTurn`, `handlePass`, `endGame`, `toggleDeadStone` and `computerPlay`.

Encoding choices:

- Coordinates are `Pos(r, c)` values instead of the source's `"r,c"` strings.
- The ko reference is an `Option<Board>` compared structurally. The source compares JSON text.
- Komi is 15 half points. Scores are kept in half points.
- Where the source collects coordinates in a JavaScript `Set`, the model uses a Dafny `set`. Where the order matters, or the source returns an array, the model uses a `seq`.

In these places the model keeps what the code does:

- A second consecutive pass ends the game without switching the player. Only the first pass switches (line 235).
- The computer always plays White, whoever is to move (line 229).
- A dead-stone mark on a black stone credits White. A mark on any other cell credits Black (line 237). The model's `Credit` keeps this, and its contract states that for a stone the credited colour is the opponent's.
- `handlePass` has no game-over guard (line 235), so the model's `HandlePass` does not have one either.

## Model

| member | source | states |
|---|---|---|
| GoBoard.Opponent | weiqi/script.js:99 | the opponent of a colour is the other colour |
| GoBoard.Update | weiqi/script.js:96 | writing one cell sets that cell and leaves every other cell as it was |
| GoBoard.EmptyBoard | weiqi/script.js:21 | the reset board has no stone |
| GoBoard.Clear | weiqi/script.js:105 | clearing a set of cells empties exactly those cells |
| GoBoard.Neighbors | weiqi/script.js:230 | getNeighbors returns at most four coordinates, all different |
| GoBoard.NeighborsAdjacent | weiqi/script.js:230 | the neighbours are exactly the in-bounds cells at Manhattan distance 1 |
| GoBoard.AdjacentSymmetric | weiqi/script.js:230 | q is a neighbour of p exactly when p is a neighbour of q |
| Connectivity.ClosureProps | weiqi/script.js:231 | the closure contains the seed, is closed under same-colour neighbours, and adds only cells of that colour |
| Connectivity.ClosureLeast | weiqi/script.js:231 | the closure is contained in every closed superset of the seed |
| Connectivity.ComponentSame | weiqi/script.js:231 | every stone of a group has that same group |
| Connectivity.ComponentsDisjointOrEqual | weiqi/script.js:232 | two groups are equal or share no cell |
| Connectivity.VisitCell | weiqi/script.js:231 | one neighbour of findGroup's search: an unvisited cell of the group's colour is enqueued and marked, once |
| Connectivity.VisitNeighbors | weiqi/script.js:231 | the inner loop of findGroup: exactly the unvisited same-colour neighbours are enqueued, each once |
| Connectivity.FindGroup | weiqi/script.js:231 | findGroup lists the start cell first and every cell of its group exactly once, nothing else |
| Connectivity.OwnerOfSingle | weiqi/script.js:174-175 | a region has an owner exactly when a single colour borders it, and the owner is that colour |
| Connectivity.VisitRegionCell | weiqi/script.js:169-171 | one neighbour of floodFill's search: an unvisited empty cell is enqueued and marked; a stone adds its colour to the seen colours |
| Connectivity.VisitRegionNeighbors | weiqi/script.js:168-172 | the inner loop of floodFill: the empty neighbours are enqueued once each, and the colours of the neighbouring stones are recorded |
| Connectivity.FloodFill | weiqi/script.js:161-177 | floodFill lists the start cell and its empty region once each; size is their number; owner is the owner of the colours bordering the region |
| Connectivity.EmptyNeighbors | weiqi/script.js:234 | the inner loop of getLibertyCoords adds exactly the empty neighbours of one stone |
| Connectivity.LibertyCoords | weiqi/script.js:234 | getLibertyCoords returns exactly the empty neighbours of the group's cells |
| Connectivity.CountLiberties | weiqi/script.js:233 | countLiberties is the number of distinct liberties |
| Connectivity.ScanCell | weiqi/script.js:232 | one cell of getAllGroups' scan: an unvisited stone appends its whole group, first cell that stone, and marks it visited; any other cell changes nothing |
| Connectivity.GetAllGroups | weiqi/script.js:232 | getAllGroups returns whole groups, pairwise disjoint, whose union is exactly the set of stones |
| Moves.AttemptMove | weiqi/script.js:93-116 | attemptMove reports the outcome of `Attempt`: the same refusal, or the same board with the captured cells listed once each and counted |
| Moves.RemoveGroup | weiqi/script.js:104-108 | removing a group empties its cells, adds its size to the count and appends its cells to the list |
| Moves.CaptureNeighbor | weiqi/script.js:101-110 | one neighbour of the capture loop: an opponent group without liberties is removed and its cells listed once each |
| Moves.CaptureNeighbors | weiqi/script.js:100-111 | the capture loop leaves the board with the doomed neighbouring groups removed, and lists exactly those cells once each |
| Moves.CaptureAllIsDoomed | weiqi/script.js:100-111 | removing groups in neighbour order removes exactly the opponent groups without liberties on the placed board; the order does not matter |
| Moves.AttemptRefusals | weiqi/script.js:94 | occupied iff the cell holds a stone; suicide iff nothing is captured and the stone's group has no liberty; ko iff the result equals the previous position; never ko without a previous position |
| Moves.CapturedWereOpponents | weiqi/script.js:100-108 | every captured cell held an opponent stone, and the placed stone is never captured |
| Moves.CaptureGivesLiberty | weiqi/script.js:112-113 | a move that captures leaves its own group at least one liberty |
| Moves.AttemptPlayed | weiqi/script.js:95-115 | an accepted move puts the stone at p, empties exactly the captured opponent cells, changes no other cell and leaves its group a liberty |
| DeadStones.DeadGroupUniform | weiqi/script.js:121-136 | every stone of a group gets the same dead or alive verdict |
| DeadStones.AutoDeadFewLiberties | weiqi/script.js:136 | a stone marked dead belongs to a group with at most one liberty |
| DeadStones.AutoDeadWholeGroups | weiqi/script.js:136 | the group of a marked stone is marked whole |
| DeadStones.AutoDeadNoSeki | weiqi/script.js:124-134 | no marked group touches, through one of its liberties, an opposing group with two liberties or fewer |
| DeadStones.ScanLiberty | weiqi/script.js:128-132 | scanning a liberty's neighbours sets the seki flag exactly when an opposing neighbour's group has at most two liberties |
| DeadStones.IsSeki | weiqi/script.js:125-133 | the seki flag is set exactly when one of the group's liberties touches such a threatened opposing group |
| DeadStones.GroupIsDead | weiqi/script.js:122-136 | the verdict on a group is dead exactly when it has fewer than two liberties and is not in seki |
| DeadStones.DeadAmongGroups | weiqi/script.js:120-137 | marking the dead groups among whole groups marks exactly the dead stones they cover |
| Scoring.RegionOwnerUniform | weiqi/script.js:174-175 | every cell of an empty region has the same owner |
| Scoring.TerritoryBound | weiqi/script.js:143-158 | Black's territory plus White's territory is at most the number of empty cells |
| Scoring.OwnedSizeCount | weiqi/script.js:145-154 | summing the sizes of the owned regions found, each new when found, counts every owned cell once |
| Scoring.TerritoryCell | weiqi/script.js:145-155 | one cell of the scan: an unvisited empty cell adds its region to the visited cells and the region's size to its owner's tally; any other cell changes nothing; the scan invariant moves one cell on |
| Scoring.TerritoryRow | weiqi/script.js:144-156 | one row of the scan keeps the found regions and the tallies in step with every empty cell seen so far |
| Scoring.CalculateTerritory | weiqi/script.js:140-159 | calculateTerritory returns the number of empty cells whose region only Black borders, and the same for White |
| Scoring.Credit | weiqi/script.js:237 | a dead stone credits its opponent's colour |
| Scoring.Tally | weiqi/script.js:237 | scores in half points with komi added to White; never a tie; Black wins exactly when Black has more, White exactly when White has more |
| Scoring.BonusTotal | weiqi/script.js:237 | the bonus points of the two colours add up to the number of dead stones |
| Scoring.ScoreBound | weiqi/script.js:237 | territory and bonus together never exceed the empty cells of the scoring board plus the dead stones |
| Scoring.RemoveDead | weiqi/script.js:237 | one dead stone: the colour it credits gains a point and its cell is emptied |
| Scoring.RemoveAllDead | weiqi/script.js:237 | the dead-stone loop empties exactly the dead cells and counts the bonus of each colour |
| Scoring.FinalScore | weiqi/script.js:237 | updateFinalScore computes `ScoreOf`: territory of the board without the dead stones, plus captures, bonus and komi |
| Computer.CaptureDominates | weiqi/script.js:229 | a move that captures more stones always scores higher, wherever the two moves are |
| Computer.ConsiderCell | weiqi/script.js:229 | one candidate: a legal move that beats the best so far replaces it |
| Computer.ConsiderRow | weiqi/script.js:229 | after a row, the best move is the first maximal legal move among the cells seen |
| Computer.BestMoveUnique | weiqi/script.js:229 | at most one move is the best move: the selection is determined by the position |
| Computer.SelectMove | weiqi/script.js:229 | no move iff White has no legal move; otherwise a legal move, with attemptMove's report, whose score no legal move beats and every earlier legal move falls short of |
| GameState.HandicapPointsProps | weiqi/script.js:45-48 | a handicap of 2, 4 or 9 places that many different stones on star points; any other number places none |
| GameState.Toggled | weiqi/script.js:238 | after a toggle the group is uniformly marked, the clicked stone's mark is flipped, and nothing outside the group changes |
| GameState.ToggleTwice | weiqi/script.js:238 | toggling a uniformly marked group twice restores the dead set |
| GameState.MarkGroup | weiqi/script.js:121-137 | one group of markDeadStonesAuto adds the group when its verdict is dead |
| GameState.ToggleCell | weiqi/script.js:238 | one stone of toggleDeadStone's loop removes or adds that stone |
| GameState.Game.constructor | weiqi/script.js:20-33 | resetGame: the handicap stones on an empty board; White moves first iff the handicap is positive; no captures, passes, dead stones or ko reference |
| GameState.Game.ApplyHandicap | weiqi/script.js:44-51 | applyHandicap puts a black stone on each handicap point and changes nothing else |
| GameState.Game.FinishTurn | weiqi/script.js:82-91 | finishTurn switches the player, resets the pass count, and sets the computer thinking when White is the computer and the game goes on |
| GameState.Game.ProcessMoveResult | weiqi/script.js:65-80 | a committed move keeps the board before it as the ko reference, installs the new board, credits the captures to the mover, then finishes the turn |
| GameState.Game.UpdateFinalScore | weiqi/script.js:237 | the stored score is `ScoreOf` of the current board, dead set and captures |
| GameState.Game.MarkDeadStonesAuto | weiqi/script.js:118-138 | the dead set becomes exactly the stones the heuristic marks |
| GameState.Game.EndGame | weiqi/script.js:236 | the game is over, the dead stones are marked, the score is stored, and nothing else changes |
| GameState.Game.HandlePass | weiqi/script.js:235 | a pass increments the count; at two the game ends without a change of player; otherwise the player switches and the computer may start thinking |
| GameState.Game.FlipGroup | weiqi/script.js:238 | the loop of toggleDeadStone flips the whole group following the clicked stone's mark |
| GameState.Game.ToggleDeadStone | weiqi/script.js:238 | toggleDeadStone flips the group's marks and rescores |
| GameState.Game.HandleMove | weiqi/script.js:53-63 | after the game, a click on a stone toggles its group and rescores, and changes nothing else; other clicks after the game, and any click while the computer thinks, change nothing; otherwise a refused move changes nothing, and an accepted one is committed: ko reference, board, the mover's captures, the turn, the pass count and the thinking flag, with everything else unchanged |
| GameState.Game.ComputerPlay | weiqi/script.js:229 | nothing once the game is over; otherwise it commits White's best move, crediting its captures to the player to move, with everything else unchanged; with no legal move it passes, and the second pass ends the game while a first one switches the player |
| GameState.Game.CommitComputerMove | weiqi/script.js:229 | the move branch: the thinking flag drops and the reported move is committed as processMoveResult does |
| GameState.Game.ComputerPass | weiqi/script.js:229 | the pass branch: the thinking flag drops and handlePass's two outcomes follow |

## Left out

- Rendering and text are not modelled: `renderBoard` (lines 180-225), `updateStatus` (line 239), `showMessage` (line 240), and the result text, `toFixed` and hint display of `updateFinalScore` and `endGame` (lines 236-237). They only present state.
- The handicap and the game mode are read from the page (lines 31, 87, 235). Here they are arguments of the `Game` constructor, and the mode is a constant field.
- The 500 ms capture animation (lines 67-75) is not modelled. A move is committed at once, so `capturedSet` is always empty and the `capturedSet.size > 0` gate of `handleMove` (line 58) never fires.
- The 600 ms delay of `checkAiTurn` (line 228) is not modelled. `aiBusy` is set, and `ComputerPlay` is a separate method that the page's timer would call.
- JSON copying and comparison (lines 66, 95, 114, 237) become value copies and structural equality.
- `lastTerritoryInfo` (lines 18, 142, 150, 153) is not modelled. It only feeds the renderer.
- Komi is 15 half points, not the floating-point 7.5.
- `Moves.AttemptMove` lists the captured coordinates in the order its capture loop finds them. Its contract states them as a set, listed once each and counted, but not their order. Only the animation uses the order.
- `DeadStones.IsSeki` visits the liberties in an arbitrary order, not the insertion order of the source's `Set`. The flag does not depend on the order.
- The page that wires the pass button to `handlePass` is not part of this model. So whether a pass can arrive while the computer is thinking is not modelled.
