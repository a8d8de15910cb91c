# Amphipod burrow and virus isolation, modelled in Dafny

This project models the two puzzle solvers of the repository.

**The burrow (`run.py`).** A hallway of 11 tiles sits above four side rooms. The rooms hang below tiles 2, 4, 6 and 8 and are 2 or 4 slots deep. Tokens A, B, C and D cost 1, 10, 100 and 1000 energy per step. A token may leave its room for one of the stop tiles 0, 1, 3, 5, 7, 9 and 10, or go from the hallway into its own room. A shortest-path (Dijkstra) search over board states returns the least energy that sorts every room, or -1.

- `BurrowBoard` holds the constants, the board state, the parser and the scans of a room and of the hallway.
- `BurrowMoves` holds the two move generators, each proved equal to a declarative legality rule, and what applying a move does.
- `BurrowSearch` holds the search. It is proved sound: an answer is an energy at which the goal really is reached. It is also proved complete in one direction: "no solution" only when the goal cannot be reached at all.

**The virus (`run2.py`).** An undirected graph has lower-case nodes and upper-case gates. A virus starts at node `a`. Each turn one corridor into a gate is cut, and then the virus moves one step toward its nearest gate. The game ends when the virus stands on a gate or can no longer reach one.

- `VirusGraph` holds the graph and corridor cutting.
- `VirusSearch` holds the three breadth-first searches.
- `VirusCut` holds the choice of the corridor to cut.
- `VirusSolve` holds the game loop. The loop is proved to terminate and to cut only corridors into gates. It returns a ghost log of its turns, and every turn in the log is proved to follow the rules of one round.

A room full of a single letter is left alone whatever that letter's target room is (run.py:62-64). The model keeps this rule (`BurrowMoves.LegalExit`, `BurrowMoves.MovesFromRoom`).

## Model

| member | source | states |
|---|---|---|
| BurrowBoard.Standard | run.py:5-7 | The puzzle's configuration has entrances 2, 4, 6 and 8 and exactly the letters A-D. Every letter has a positive cost and a target room, and no entrance is a stop tile. |
| BurrowBoard.Goal | run.py:106-114 | The sorted board: an empty 11-tile hallway, and room i filled to the given depth with the i-th letter of "ABCD". |
| BurrowBoard.DepthOf | run.py:186-189 | The depth is 2 exactly when the input has five lines, and 4 otherwise. |
| BurrowBoard.ParseRooms | run.py:10-26 | There are four rooms of the depth's height. Slot k of room i is the character at column 3+2i of input line 2+k. |
| BurrowBoard.TopOccupied | run.py:48-53 | The first occupied slot from the top, with every slot above it empty. It is -1 exactly when the whole room is empty. |
| BurrowBoard.DeepestEmpty | run.py:29-33 | The deepest empty slot, with every slot below it occupied. It is -1 when no slot is empty. |
| BurrowBoard.HallwayClear | run.py:36-41 | True exactly when every tile passed between start and end is empty, counting the end tile but not the start tile. |
| BurrowMoves.ExitMoves | run.py:66-71 | A move is listed exactly when it takes the given token to a listed stop over a clear hallway, at (slot+1+distance) times the token's cost. |
| BurrowMoves.MovesFromRoom | run.py:44-73 | The generated moves are exactly the legal exits: the top token, to a reachable stop, at the walked cost. An empty room and a room full of one letter yield none. |
| BurrowMoves.ExitsLeaveTop | run.py:48-58 | Every legal exit leaves from the room's topmost occupied slot. |
| BurrowMoves.MovesToRoom | run.py:76-98 | There is at most one entry move, and it is generated exactly when it is legal. The target room holds only the token's letter or empty slots, the hallway to the entrance is clear, and the token goes to the deepest empty slot. |
| BurrowMoves.EntryShape | run.py:83-96 | A legal entry exists exactly under the three tests of the code, and its slot and cost are then determined. |
| BurrowMoves.AllMoves | run.py:131-154 | The moves the search expands from a state are exactly the legal moves from that state. |
| BurrowMoves.LegalMoveFits | run.py:67-71 | A legal move costs a positive amount. An exit moves an actual token onto an empty tile, and an entry moves a token into an empty slot. |
| BurrowMoves.Apply | run.py:135-143 | An exit puts the token on its hallway tile and empties its slot. An entry empties the tile and puts the token in its slot. The board keeps its shape, and every other tile and slot is unchanged. |
| BurrowMoves.ApplyTradesTwoCells | run.py:135-143 | Applying a move changes exactly the moved-from cell and the moved-to cell; every other tile and slot is unchanged. |
| BurrowMoves.ApplyKeepsShape | run.py:156-165 | A legal move keeps the board well-formed: 11 tiles, four rooms of the depth, and only tokens or '.' in the cells. |
| BurrowMoves.ApplyConserves | run.py:135-165 | A legal move conserves the multiset of the board's cells, so no token is created or lost. |
| BurrowSearch.ReachStep | run.py:144-148 | A legal move from a reached entry gives a reached entry whose cost is the sum of the two. |
| BurrowSearch.ClosedHoldsReplays | run.py:172 | A set of states closed under legal moves contains every state a move sequence leads to from inside it. |
| BurrowSearch.PopMin | run.py:121 | Removes one entry of least cost from the queue and keeps all the others (multiset equality). |
| BurrowSearch.Offers | run.py:143-144 | Each successor entry is the moved state at the current cost plus the move's cost. |
| BurrowSearch.Relax | run.py:146-148 | A state's recorded cost never rises, and every offer is recorded at most at its cost. Every new or lowered record is queued, and only improving offers are queued. |
| BurrowSearch.StaleKeepsInv | run.py:127-128 | Skipping a stale entry, one costlier than its state's record, keeps the search invariant. |
| BurrowSearch.ExpansionKeepsRecords | run.py:144-148 | After relaxation, every recorded cost is still the cost of a move sequence from the start. An unchanged record was one already, and a new or lowered record was just queued as one. |
| BurrowSearch.ExpansionKeepsInv | run.py:130-170 | Expanding a popped entry and relaxing its successors keeps the search invariant. |
| BurrowSearch.ExhaustedUnreachable | run.py:120-172 | When the queue runs empty under the invariant, the goal cannot be reached from the start. |
| BurrowSearch.FindSolution | run.py:101-172 | A returned energy is one at which a sequence of legal moves turns the start into the goal. "No solution" (-1) means that no sequence does. A start already sorted returns 0. |
| BurrowSearch.ParsedBoardWellFormed | run.py:10-26 | A diagram whose room cells hold letters A-D or '.' parses into a well-formed starting board. |
| BurrowSearch.Solve | run.py:175-193 | Chooses the depth from the line count, parses, and searches. The result is sound and complete in the sense of FindSolution. |
| VirusGraph.BuildGraph | run2.py:5-19 | y is a neighbour of x exactly when (x, y) or (y, x) is an input corridor. The gate set is exactly the upper-case endpoints. |
| VirusGraph.CorridorGatesAppend | run2.py:13-17 | Reading one more corridor adds exactly its upper-case endpoints to the gates. |
| VirusGraph.BuiltIsSymmetric | run2.py:9-11 | The built adjacency is symmetric. |
| VirusGraph.Cut | run2.py:144-146 | After a cut, the graph keeps every adjacency except the cut corridor, in both directions. |
| VirusGraph.CutKeepsSymmetric | run2.py:162-164 | Cutting a corridor keeps the adjacency symmetric. |
| VirusGraph.CutShrinks | run2.py:136-166 | Cutting an existing corridor strictly shrinks the set of directed edges. This bounds the number of turns. |
| VirusGraph.Least | run2.py:117 | The least name of a non-empty set. |
| VirusGraph.SortedSet | run2.py:42 | The sorted listing of a set holds exactly its elements, once each. |
| VirusGraph.SortedSetAscending | run2.py:88 | The sorted listing of a set is strictly ascending. |
| VirusGraph.WalkStaysIn | run2.py:26-36 | A walk starting inside a neighbour-closed set never leaves it. |
| VirusSearch.SettledExhausted | run2.py:36 | When the search queue is empty and every visited node had its neighbours visited, no target is reachable. |
| VirusSearch.ShortestPathToGate | run2.py:22-36 | A returned path is a walk from the start to a gate that passes no gate before its end. None is returned exactly when no gate is reachable. |
| VirusSearch.EnqueuePaths | run2.py:31-34 | The visited set grows by exactly the current node's neighbours. The old queue is kept as a prefix. The appended entries are exactly the neighbours not visited before, in ascending name order, each with the current path extended by the current node. Each queued path is a gate-free walk to its node. |
| VirusSearch.GateDistance | run2.py:43-57 | A returned distance is the length of a walk to the gate. None means that the gate is unreachable, and 0 means that the start is the gate. |
| VirusSearch.EnqueueCounts | run2.py:54-57 | The visited set grows by exactly the current node's neighbours. The old queue is kept as a prefix. The appended entries are exactly the neighbours not visited before, each with the count one more than the current node's. Each queued count is the length of a walk to its node. |
| VirusSearch.GateDistances | run2.py:41-57 | Lists in ascending name order exactly the reachable gates, each with the length of a walk to it. |
| VirusSearch.ListDistances | run2.py:42-57 | After gates 0..k of the sorted order, the list holds exactly the reachable ones among them, with walk lengths. |
| VirusSearch.MinDistance | run2.py:63 | The least distance in the list, attained by some entry. |
| VirusSearch.NearestGate | run2.py:62-65 | An entry of least distance, and among those the least gate name. |
| VirusSearch.NearestIsReachable | run2.py:59-65 | The chosen gate is a reachable gate. It is the virus's own node exactly when the virus stands on a gate. |
| VirusSearch.StepToward | run2.py:67-83 | A returned step is a neighbour of the virus from which the target can be reached. None is returned exactly when the target is the virus's node or cannot be reached. |
| VirusSearch.EnqueueSteps | run2.py:77-81 | The visited set grows by exactly the current node's neighbours. The old queue is kept as a prefix. The appended entries are exactly the neighbours not visited before, in ascending name order. Each carries the current first-step path, or the neighbour itself when the current node is the virus's. Each queued first step is a neighbour of the virus that starts a walk to the node. |
| VirusSearch.NextMove | run2.py:39-83 | A returned move is a neighbour from which a gate is still reachable. None is returned exactly when the virus stands on a gate or can reach none. |
| VirusCut.KeepAdjacent | run2.py:88-90 | Keeps exactly the listed nodes adjacent to the virus, and keeps the listing ascending. |
| VirusCut.DangerGates | run2.py:86-91 | Exactly the gates with a corridor to the virus, in strictly ascending order. |
| VirusCut.FirstDangerIsLeast | run2.py:140-141 | The first danger gate is the least-named gate adjacent to the virus. |
| VirusCut.FirstGateIndex | run2.py:100-104 | The index of the first gate on the path, or -1 when the path holds no gate. |
| VirusCut.ChooseCut | run2.py:99-117 | The cut runs from the first gate on the path to its least-named neighbour on the path. None is returned exactly when the path has no gate or the gate has no neighbour on it. |
| VirusCut.CutOnGatePath | run2.py:94-117 | On a gate search path from a non-gate in a symmetric graph, a cut always exists, and it is at the path's end gate. |
| VirusCut.GateToCut | run2.py:94-117 | The cut is a real corridor into a gate, chosen on a gate-search path from the virus. It exists whenever the virus is not on a gate and can reach one. |
| VirusSolve.Round | run2.py:137-166 | The turn obeys the rules of one round (`Obeys`). With a danger gate, the corridor from the least one to the virus is cut, and the virus moves on the cut graph. Otherwise, when the virus can move, the cut is the one `ChooseCut` picks on a gate-search path from the virus. The virus moves along a corridor that survives the cut. It heads toward a gate reachable on the graph its move was computed on: the cut graph when a danger gate was cut, the uncut graph otherwise. It stays put exactly when it is on a gate or can reach none on that graph. |
| VirusSolve.CutsOfPush | run2.py:143-161 | One more turn appends its cut, if it has one, to the end of the cut list. |
| VirusSolve.ConsecutivePush | run2.py:145-166 | A turn that starts on the graph and node the last turn left keeps the log consecutive. |
| VirusSolve.PlayTurn | run2.py:136-166 | A turn that follows the rules and starts where the game stands extends a game played from 'a' on the input graph. |
| VirusSolve.GameStep | run2.py:136-166 | After a turn that follows the rules, the game either goes on with the virus moved and at least one corridor fewer, or it is over with the log and cuts complete. |
| VirusSolve.RecordCut | run2.py:142-146 | Recording a cut keeps the invariant: the graph is the input minus the cuts, every cut joins a gate to a neighbour, and no corridor is cut twice. |
| VirusSolve.Solve | run2.py:120-168 | The loop terminates. Every cut is an input corridor from a gate, and no corridor is cut twice. The ghost log starts with the virus at 'a' on the graph of the input corridors. Every turn in it obeys the rules of one round, and each turn starts on the graph and at the node the previous one left. The returned cuts are exactly the log's cuts, in order. The last turn leaves the virus on a gate or unable to reach one. |

## Left out

- Reading standard input and printing the answers (run.py:196-203, run2.py:171-182) are not modelled. Input is a `seq<string>` of diagram lines or a sequence of corridor pairs.
- Node names are single characters, and `isupper` is modelled as 'A'..'Z'. Names of several characters, and the string order of "gate-node" labels, are not modelled. With single characters that order is the order of the node names.
- The cut label (`"G-x"`), which the code builds and then splits again, is modelled as the pair it denotes.
- BurrowSearch.Solve: requires enough lines, each long enough. It needs at least six lines unless there are exactly five. With fewer, the code fails with an IndexError at run.py:19-22, and a short line fails the same way.
- Cell characters other than '.' or A-D are excluded by `WellFormed`. For such a character the code does not always fail. A room filled with one such character is never left, so the code answers -1. A token of such a character that can be moved makes the code fail on a missing dictionary key when it prices the move (`ENERGY_COST[char]`, run.py:70).
- The global `ROOM_INFO` dictionary, which `solve` writes before the other functions read it, is modelled as the explicit `depth` of a `Config`.
- heapq's binary-heap layout and its tie-breaking on equal costs are not modelled. The queue is a sequence with a linear least-cost extraction (`BurrowSearch.PopMin`).
- BurrowSearch.FindSolution: does not prove that the returned energy is the least possible. Dijkstra optimality is not modelled. A `fuel` bound on the number of pops gives the answer `GaveUp` when it runs out; the code has no such bound.
- BurrowSearch.PopMin: which of several least-cost entries is popped is left open.
- BurrowSearch.Solve: inherits FindSolution's gap. The returned energy is proved to be reached, not proved to be the least.
- VirusSearch.ShortestPathToGate: does not prove that the path is a shortest one, or that neighbours are tried in sorted order.
- VirusSearch.GateDistance: does not prove that the distance is the least one, only that a walk of that length exists.
- VirusSearch.GateDistance: the code walks the neighbours of a set in an unspecified order. The model picks them in an arbitrary order.
- VirusSearch.GateDistances: inherits GateDistance's gap. Each listed distance is the length of some walk to the gate, not proved to be the shortest.
- VirusSearch.ListDistances: the same gap as GateDistances, for each prefix of the sorted gates.
- VirusSearch.StepToward: does not prove that the step lies on a shortest path, or which neighbour wins a tie.
- VirusSearch.NextMove: does not state which gate the step heads for. That gate is `VirusSearch.NearestGate`, whose contract states the (distance, name) choice.
- VirusCut.GateToCut: the gate-search path it cuts on is a gate-free walk to a gate, not proved to be the shortest such path. It inherits the gap of ShortestPathToGate.
- VirusSolve.Round: the virus's next node is not pinned to one value. It is a neighbour from which a gate is reachable, with the gaps of NextMove.
- VirusSolve.Round: when no gate touches the virus, the cut is `ChooseCut` on some gate-free walk from the virus to a gate, not on the sorted breadth-first path the code searches (run2.py:95, run2.py:31). For corridors a-b, a-d, b-C and d-C the code cuts (C, b); the contract also admits (C, d), taken from the walk [a, d, C]. This is the gap of GateToCut.
- VirusSolve.Solve: every turn of the log satisfies `Obeys`, so the log inherits both of Round's open choices, the virus's next node and the path the cut is chosen on. The returned cuts are therefore proved to be a valid play of the game, but are not pinned to the one list the code returns (run2.py:168).
- The code keeps searching past the virus's own node when it is the target. This case only arises when the virus stands on a gate, and the model returns None for it as the code does.
