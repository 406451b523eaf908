# Sudoku solvers and a two-phase-commit store, verified

This project models the two hard parts of the repository and proves what they
promise.

**Sudoku (lab1).** Two dancing-links solvers and three backtracking solvers.
A dancing-links solver keeps a sparse 0/1 matrix in circular doubly linked
lists and, while it searches, takes columns and rows out of those lists in
place and puts them back. The backtracking solvers share global tables; the
fastest keeps a cache of the digits still free in each cell.

- `Rings` has circular lists in two link arrays, `LinkMatrix` the matrix and
  what removing and recovering a column does to the links as values,
  `ExactCover` the covers the search looks for, `MatrixBuild` and `RowBuild`
  the two ways the matrix is built. `LinkTables` holds the link arrays as a
  class changed in place; both solvers cover and uncover columns by the same
  steps, so both use it.
- `Dlx` is the array-based solver, `SudokuEncoding` and `SudokuDlx` its
  729 by 324 Sudoku encoding and the loop that loads and solves a puzzle.
- `PointerDance` is the pointer-based solver; a pointer to a node is the
  node's number in the pool, and NULL in the table of columns is 0.
  `OpenEncoding` is its encoding: columns only for what a puzzle leaves open.
- `Choice` is the scan for a small size by which both kinds of solvers choose
  what to fill next.
- `Neighbors` has the neighbour table and the final check, `Backtracking` the
  search of the other three solvers as a function, `ArityCache` the cache, and
  `Solvers` the three solvers as methods on the shared arrays. `Driver` runs
  one puzzle through any of the four.

**Key-value store (lab3, two-phase commit).** A coordinator with timeouts,
resends and reconnects, and participants with operation and rollback logs.

- `Participant` is one participant: its fields as a class, its message handling
  as a function, and a three-line ledger that the logs implement.
- `Coordinator` has the two wait loops, `Handlers` what is done for one client.
- `TwoPhaseCommit` is the whole system as a state machine: steps of the
  coordinator and of the participants, one FIFO channel per connection,
  resends, lost connections, reconnects and crashes in any order. `FaultFree`
  is the case in which nothing goes wrong.
- `TextLines` and `MessageCodec` are the texts exchanged. The client side is
  the simplified RESP format of lab3/labDescription/README.md:110.

## Findings

- **A decision can be lost.** The second wait counts any reply. A repeated
  PREPARED, caused by a resend, that is still unread when the connection breaks
  under the decision is counted as the end: the client is told OK, the
  participant stays valid, and it stays prepared.
  `TwoPhaseCommit.LosingRunDisagrees` is such a run, for every SET.
  `TwoPhaseCommit.CountingExact` says that this is the only way in which
  counting a reply goes wrong: the invariant is kept if and only if the
  decision is not lost. Whether it is lost depends on the participant and on
  what is still on its way, which the coordinator cannot see; but the reply
  then counted is always a PREPARED (`LostMeansStale`). So a look at the kind
  of message is enough: in every run in which each reply counted in the second
  phase is a DONE, agreement holds and the replies are true
  (`TwoPhaseCommit.AgreementIfDone`). Fresh transaction ids are not needed.
- **A committed DEL can be answered with `-ERROR`.** It is answered with its
  count if and only if the first reply counted is parsed and is no PREPARED
  (`TwoPhaseCommit.CommitToldExactly`); when a client is told an error at all is
  `TwoPhaseCommit.ToldExactly`. In `TwoPhaseCommit.StaleDelIsError` nothing is
  lost, and the reply counted is the answer to a resend.
- **A GET of an empty value is answered with `-ERROR`,** although the key is
  stored and an absent key is answered `nil`. A GET that somebody answered is
  told what one map tells if and only if the value is not empty
  (`TwoPhaseCommit.GetToldExactly`). `FaultFree.EmptyValueIsError` is a run
  without any fault, and `FaultFree.AnswersAsOneMap` says that there is no
  other way in which such runs differ from one map.
- **Silence is no NO.** The description (lab3/labDescription/README.md:78) aborts
  when some participant was given up in the first phase. The code does not: who
  is given up is left out, and the others decide (`Coordinator.SilenceIsNoNo`).
  The vote is for COMMIT if and only if somebody answered and nothing but
  PREPARED was read (`Handlers.CourseMeans`). The model follows the code.
- **The backtracking solvers never compare givens with each other.** They
  succeed exactly when the empty cells can be filled, and the driver's check of
  the result then succeeds if and only if the givens were consistent
  (`Backtracking.FillsIsSolution`, `Driver.SolveOne`);
  `Backtracking.GivensUnchecked` is a board on which it fails. The
  dancing-links solvers need no such condition.
- `get_min_column` does not always return a minimum: it stops at the first
  column of size at most one. `Choice.ChosenNotLeast` has the sizes 1 and 0; the
  column returned is always the one that `Chosen` describes, and there is one
  such column (`Choice.ChosenOnce`).

## Assumptions

- `select` is an oracle: a timeout, an error, or ready participants with what
  each read gives. The wait loops end if from some call on no reconnect
  succeeds. In the state machine and for a GET it does not fail.
- A participant that stops does not come back with an empty map, and the
  coordinator is not killed between prepare and the end of the broadcast.
- A SET carries a value and a DEL a key.
- One receive yields one message.

## Model

| member | source | states |
|---|---|---|
| Rings.RelinkUndoesUnlink | lab1/src/Sudoku/DLX.h:36-49 | relinking a node that is not alone gives back both link arrays exactly when it was linked in from both sides |
| Rings.UnlinkRing | lab1/src/Sudoku/DLX.h:38-41 | after unlinking a node the links still form the ring of all the others, in order |
| LinkMatrix.RemovedRepresents | lab1/src/Sudoku/DLX.h:36-42 | removing an active column leaves links and sizes that represent the matrix without the column and without every row that meets it; the column's own ring and all row rings stay |
| LinkMatrix.RemovingStep | lab1/src/Sudoku/DLX.h:36-49 | in every state inside a removal the next node to go is linked in from both sides, and putting it back undoes its step |
| LinkMatrix.RemovingKeeps | lab1/src/Sudoku/DLX.h:39-41 | the links the removal walks along, rightwards and down column c, do not change during the removal |
| LinkTables.LinkTable.Remove | lab1/src/Sudoku/DLX.h:36-42 | from any represented state, the arrays become exactly those of the value-level removal |
| LinkTables.LinkTable.Recover | lab1/src/Sudoku/DLX.h:44-49 | after a removal, gives back every link and every size as before it |
| LinkTables.LinkTable.CoverRow | lab1/src/Sudoku/DLX.h:67 | removing the columns of a row's other nodes passes through represented states, one active column less each time |
| LinkTables.LinkTable.UncoverRow | lab1/src/Sudoku/DLX.h:69 | recovering them leftwards gives back the state before the first removal |
| ExactCover.Extend | lab1/src/Sudoku/DLX.h:65-68 | a row with a cover of the columns it leaves is a cover |
| ExactCover.Reduce | lab1/src/Sudoku/DLX.h:65-68 | a row of a cover, taken away, leaves a cover of the columns it leaves |
| ExactCover.CoveringNode | lab1/src/Sudoku/DLX.h:62-65 | every cover uses a row linked in the chosen column |
| ExactCover.AllRowsFail | lab1/src/Sudoku/DLX.h:65-72 | if no row linked in one active column is in a cover, there is no cover |
| ExactCover.RowCovered | lab1/src/Sudoku/DLX.h:66-68 | once the row's other columns are removed the state represents exactly the columns the row leaves |
| MatrixBuild.WithOneWellFormed | lab1/src/Sudoku/DLX.h:25-34 | a new one keeps rows and columns disjoint and distinct, and adds exactly one column to exactly one row |
| MatrixBuild.InsertedComplete | lab1/src/Sudoku/DLX.h:25-34 | what insert does to the links keeps the structure complete for the matrix with the new one |
| MatrixBuild.CompleteRepresents | lab1/src/Sudoku/DLX.h:14-34 | a complete structure represents the matrix with every column active |
| Dlx.DLX.Build | lab1/src/Sudoku/DLX.h:14-23 | the arrays become the complete structure of a matrix of c empty columns |
| Dlx.DLX.Insert | lab1/src/Sudoku/DLX.h:25-34 | a one in a row without one in that column: the structure is complete for the matrix with it, top of the column, second in the row |
| Dlx.DLX.SmallestColumn | lab1/src/Sudoku/DLX.h:52-63 | an active column of least size |
| Dlx.DLX.WriteAnswer | lab1/src/Sudoku/DLX.h:54-59 | the answer block is the old one with the cells of the stacked identifiers written in order |
| Dlx.DLX.Dance | lab1/src/Sudoku/DLX.h:51-73 | ends; on 1 the stacked rows exactly cover the active columns and are decoded into ans; on 0 there is no exact cover, and every link, every size and ans are as before |
| SudokuEncoding.IdRoundTrip | lab1/src/Sudoku/DLX.h:76-78 | GetId maps cells and digits into 1..729 and the decoding inverts it |
| SudokuEncoding.SharedColumn | lab1/src/Sudoku/DLX.h:80-93 | two candidates share a column exactly when they put the same digit into the same row, column or box, or fill the same cell |
| SudokuEncoding.CoverCompletes | lab1/src/Sudoku/DLX.h:53-60 | a grid read off an exact cover is a valid completion that keeps every given |
| SudokuEncoding.CompletionCovers | lab1/src/Sudoku/DLX.h:80-93 | the rows a completion chooses are an exact cover of all 324 columns |
| SudokuEncoding.EncodingFaithful | lab1/src/Sudoku/3.cpp:96-106 | the loaded matrix has an exact cover if and only if the puzzle has a valid completion |
| SudokuDlx.Insert | lab1/src/Sudoku/DLX.h:80-93 | the matrix gets one row more, with exactly the four columns of the candidate |
| SudokuDlx.LoadPuzzle | lab1/src/Sudoku/3.cpp:98-105 | the matrix holds exactly the rows the givens allow, and the answer block holds the puzzle |
| SudokuDlx.CoverReads | lab1/src/Sudoku/DLX.h:53-60 | the decoded answer holds, in every cell, the digit of a row of the cover |
| SudokuDlx.Solve | lab1/src/Sudoku/3.cpp:96-110 | any puzzle that can be completed is returned completed with its givens kept, any other is returned as it came |
| RowBuild.HeaderComplete | lab1/src/Sudoku/TearcherCode/sudoku_dancing_links.cc:36-57 | a header put left of the root keeps the structure complete, with one empty column more at the end |
| RowBuild.RowComplete | lab1/src/Sudoku/TearcherCode/sudoku_dancing_links.cc:140-146 | four new nodes at the bottom of four different columns, linked left to right, keep the structure complete for the matrix with that row |
| RowBuild.FourPut | lab1/src/Sudoku/TearcherCode/sudoku_dancing_links.cc:144-146 | three put_left before the first node link the four nodes in their order |
| LinkTables.LinkTable.PutLeft | lab1/src/Sudoku/TearcherCode/sudoku_dancing_links.cc:236-242 | the new links are those with the node inserted just left of the old one |
| LinkTables.LinkTable.PutUp | lab1/src/Sudoku/TearcherCode/sudoku_dancing_links.cc:244-252 | the node is linked at the bottom of its column, whose size grows by one |
| OpenEncoding.SharedName | lab1/src/Sudoku/TearcherCode/sudoku_dancing_links.cc:78-91 | two candidates share a column name exactly when they put the same digit into the same unit or fill the same cell |
| OpenEncoding.AllDigitsDiffer | lab1/src/Sudoku/TearcherCode/sudoku_dancing_links.cc:121-130 | nine places that hold all nine digits hold nine different ones |
| OpenEncoding.OpenCoverCompletes | lab1/src/Sudoku/TearcherCode/sudoku_dancing_links.cc:93-151 | for any givens, contradictory or not: doing once what is open, and keeping the givens, gives a valid grid |
| OpenEncoding.CompletionCoversOpen | lab1/src/Sudoku/TearcherCode/sudoku_dancing_links.cc:93-151 | the digits a completion puts into the empty cells do everything open exactly once |
| OpenEncoding.CoverNames | lab1/src/Sudoku/TearcherCode/sudoku_dancing_links.cc:132-150 | rows exactly cover the headers if and only if their candidates do everything open exactly once |
| OpenEncoding.OpenEncodingFaithful | lab1/src/Sudoku/TearcherCode/sudoku_dancing_links.cc:93-151 | for any puzzle of digits 0..9, the matrix has an exact cover if and only if the puzzle has a valid completion |
| PointerDance.Dance.constructor | lab1/src/Sudoku/TearcherCode/sudoku_dancing_links.cc:93-151 | the pool holds a complete structure with one header for each open name and one row for each candidate |
| PointerDance.Dance.AppendUnits | lab1/src/Sudoku/TearcherCode/sudoku_dancing_links.cc:121-130 | afterwards a name has a column exactly when it is open, and there are at most 324 |
| PointerDance.Dance.MarkGivens | lab1/src/Sudoku/TearcherCode/sudoku_dancing_links.cc:101-113 | the three tables say of every unit and digit whether a given has it |
| PointerDance.Dance.AddCandidate | lab1/src/Sudoku/TearcherCode/sudoku_dancing_links.cc:140-146 | the loaded structure gets exactly the candidate's row, under the candidate's four names |
| PointerDance.Dance.GetMinColumn | lab1/src/Sudoku/TearcherCode/sudoku_dancing_links.cc:153-168 | the first active column of size at most one, or, if there is none, the first of least size |
| Choice.ChosenOnce | lab1/src/Sudoku/TearcherCode/sudoku_dancing_links.cc:153-168 | that describes one column only |
| Choice.ChosenNotLeast | lab1/src/Sudoku/TearcherCode/sudoku_dancing_links.cc:162-163 | it need not be a least one: with sizes 1 and 0 the scan stops at the first |
| PointerDance.Dance.DecodeNode | lab1/src/Sudoku/TearcherCode/sudoku_dancing_links.cc:199-209 | whichever of a row's four nodes was stacked, the walk ends with the row's cell and digit |
| PointerDance.Dance.Solve | lab1/src/Sudoku/TearcherCode/sudoku_dancing_links.cc:196-234 | on true the board is written with an exact cover of the active columns besides what the stack held; on false there is none, and links, sizes, stack and board are as before |
| PointerDance.SolveDancingLinks | lab1/src/Sudoku/TearcherCode/sudoku_dancing_links.cc:255-259 | for any board of digits 0..9, true if and only if it can be completed; then it is completed with every given kept, else unchanged |
| PointerDance.WrittenReads | lab1/src/Sudoku/TearcherCode/sudoku_dancing_links.cc:199-213 | writing a cover into the puzzle keeps the givens and fills every empty cell with the digit its row stands for |
| Neighbors.TwentyPeers | lab1/src/Sudoku/TearcherCode/neighbor.cc:30-42 | every cell has exactly twenty peers, so the table's assertion holds |
| Neighbors.MarkAdjacent | lab1/src/Sudoku/TearcherCode/neighbor.cc:11-28 | marks exactly the places that share a row, a column or a box |
| Neighbors.CollectNeighbors | lab1/src/Sudoku/TearcherCode/neighbor.cc:30-42 | lists exactly the cell's peers, in order, and changes nothing else of the table |
| Neighbors.InitNeighbors | lab1/src/Sudoku/TearcherCode/neighbor.cc:61-76 | every cell's entry lists its peers |
| Neighbors.NineOnes | lab1/src/Sudoku/TearcherCode/neighbor.cc:82-90 | nine of the ten counters are one exactly when nine digits are all different |
| Neighbors.CheckUnit | lab1/src/Sudoku/TearcherCode/neighbor.cc:93-103 | true exactly when the unit holds nine different digits |
| Neighbors.Solved | lab1/src/Sudoku/TearcherCode/neighbor.cc:78-123 | on a filled board, true if and only if no two cells that share a unit are equal |
| Backtracking.SearchReorders | lab1/src/Sudoku/TearcherCode/sudoku_min_arity.cc:17-34 | the search only permutes the spaces from its own on, each still once |
| Backtracking.SearchCorrect | lab1/src/Sudoku/TearcherCode/sudoku_min_arity.cc:36-62 | in whatever order cells are taken: success if and only if the empty cells can be filled, then with a filled board; after a failure the board is as before |
| Backtracking.ScanChooses | lab1/src/Sudoku/TearcherCode/sudoku_min_arity.cc:17-34 | the space taken is the first with at most one free digit, or, if there is none, the first with the fewest |
| Backtracking.FirstFilling | lab1/src/Sudoku/TearcherCode/sudoku_basic.cc:42-68 | taking the spaces in the order of the board, the search finds the first filling in that order: any other has the larger digit where it first differs |
| Backtracking.FillsIsSolution | lab1/src/Sudoku/TearcherCode/sudoku_basic.cc:31-40 | a filled board is a solution if and only if the givens were consistent |
| Backtracking.CompletableExact | lab1/src/Sudoku/TearcherCode/main.cc:36-49 | a puzzle can be completed if and only if it can be filled and its givens are consistent |
| Backtracking.GivensUnchecked | lab1/src/Sudoku/TearcherCode/sudoku_basic.cc:42-46 | a full board of ones is returned as solved although it cannot be completed |
| ArityCache.HoldKeepsCache | lab1/src/Sudoku/TearcherCode/sudoku_min_arity_cache.cc:62-76 | holding a guess and marking what it newly hits keeps the cache true of every empty cell |
| ArityCache.UnmarkOne | lab1/src/Sudoku/TearcherCode/sudoku_min_arity_cache.cc:88-94 | freeing a marked cell gives the cache without that mark, entry and count |
| ArityCache.FilledBelow | lab1/src/Sudoku/TearcherCode/sudoku_min_arity_cache.cc:36-46 | entering a given keeps the cache true of the cells entered so far |
| Solvers.Sudoku.Input | lab1/src/Sudoku/TearcherCode/sudoku_basic.cc:13-29 | the board is the puzzle, and spaces lists its empty cells, each once, in the order of the board |
| Solvers.Sudoku.Available | lab1/src/Sudoku/TearcherCode/sudoku_basic.cc:31-40 | true exactly when no peer holds the guess |
| Solvers.Sudoku.SolveBasic | lab1/src/Sudoku/TearcherCode/sudoku_basic.cc:42-68 | result, board and spaces are those of the search that takes the spaces as they come |
| Solvers.Sudoku.ArityOf | lab1/src/Sudoku/TearcherCode/sudoku_min_arity.cc:7-15 | the number of digits no peer holds |
| Solvers.Sudoku.FindMinArity | lab1/src/Sudoku/TearcherCode/sudoku_min_arity.cc:17-34 | the spaces with the scan's choice swapped to the front |
| Solvers.Sudoku.SolveMinArity | lab1/src/Sudoku/TearcherCode/sudoku_min_arity.cc:36-62 | result, board and spaces are those of the search that takes a most constrained space first |
| Solvers.Sudoku.InitCache | lab1/src/Sudoku/TearcherCode/sudoku_min_arity_cache.cc:30-48 | for every empty cell the cache says which digits a peer holds and how many are free |
| Solvers.Sudoku.FindMinArityCache | lab1/src/Sudoku/TearcherCode/sudoku_min_arity_cache.cc:11-28 | makes the choice the uncached scan makes |
| Solvers.Sudoku.SolveMinArityCache | lab1/src/Sudoku/TearcherCode/sudoku_min_arity_cache.cc:50-98 | ends with the same result, board and spaces as SolveMinArity; a failure gives occupied and arity back exactly |
| Driver.SolveOne | lab1/src/Sudoku/TearcherCode/main.cc:34-49 | what each of the four solvers decides, that all agree and are right on consistent givens, and exactly when the asserted check succeeds |
| Participant.EraseRemoves | lab3/src_2pc/Participant.cpp:154-181 | a DEL removes exactly the named keys, and its acknowledged log lines count what went |
| Participant.EraseUndo | lab3/src_2pc/Participant.cpp:274-299 | the lines logged for a DEL, replayed forwards into any map, put back exactly what the keys held |
| Participant.RollbackRestores | lab3/src_2pc/Participant.cpp:104-184 | preparing a command applies it, and rolling back gives the map before it |
| Participant.DelCount | lab3/src_2pc/Participant.cpp:194-200 | the count reported is the size before minus the size after, the distinct named keys that were there |
| Participant.HandleRefinesAnswer | lab3/src_2pc/Participant.cpp:40-102 | handling a request with fields and logs is handling it on a ledger of the committed map and at most one pending command: same reply, same outcome |
| Participant.RunRefines | lab3/src_2pc/Participant.cpp:40-102 | after every sequence of requests the logs still stand for the ledger: in phase 2 they can undo the command |
| Participant.CommitsOnly | lab3/src_2pc/Participant.cpp:79-99 | the committed map changes only on a COMMIT while a command is prepared, and then by that command; a request of another transaction forgets it |
| Participant.RunFollows | lab3/src_2pc/Participant.cpp:57-99 | after any requests the committed map is what the commands that were prepared when a COMMIT came make of the empty map, and what is prepared is the last new SET or DEL not decided since |
| Participant.AnswersByHistory | lab3/src_2pc/Participant.cpp:57-216 | what a fresh participant with its logs holds, answers and does next, from the list of requests alone: a GET is answered with the last committed SET of its key or nil, a committed DEL with the number of its keys that held a value, a decision for an unknown transaction shuts it down |
| KvMessages.HoldsLatest | lab3/src_2pc/Participant.cpp:104-184 | a map made by commands holds for each key the value of its last SET, if no later DEL names it |
| Participant.StartsQuiet | lab3/src_2pc/Participant.cpp:104-108 | a fresh participant stands for the quiet ledger with the empty map |
| Participant.RepeatHarmless | lab3/src_2pc/Participant.cpp:64-98 | handling a request again leaves the fields and both logs as they are and repeats the reply, if and only if the participant has shut down or remembers the transaction |
| Participant.RunWithRepeats | lab3/src_2pc/Participant.cpp:64-98 | a run with any number of such repeats ends in the same fields and logs as the run without them |
| Participant.Participant.RollBack | lab3/src_2pc/Participant.cpp:274-299 | the map with the rollback log replayed, and the log empty |
| Participant.Participant.HandlePreparePhase | lab3/src_2pc/Participant.cpp:104-184 | fields, logs and reply after a new command, as the handling function says; a GET is answered with the value, or with nil for an absent key |
| Participant.Participant.HandleCommitOrAbortPhase | lab3/src_2pc/Participant.cpp:186-216 | fields and reply after a decision, as the handling function says |
| Participant.Participant.HandleMessage | lab3/src_2pc/Participant.cpp:57-99 | one pass of the message loop does what the handling function does: state, reply, and whether the loop goes on |
| Coordinator.EventBalanced | lab3/src_2pc/Coordinator.cpp:195-303 | every event keeps the accounts: alive is answered plus watched, equals the open sockets while preparing, and in the second phase counts finished participants whose sockets are closed |
| Coordinator.EventExcludes | lab3/src_2pc/Coordinator.cpp:222-266 | nobody becomes valid or connected again in a wait; who is cut off is not valid |
| Coordinator.EventRank | lab3/src_2pc/Coordinator.cpp:211-294 | every event but a reconnect lowers the measure of the loop, and a reconnect adds at most three |
| Coordinator.WaitInvariant | lab3/src_2pc/Coordinator.cpp:195-409 | over any course of events the accounts balance, exclusion is final, and the number of events is bounded by the reconnects |
| Coordinator.PreparedOver | lab3/src_2pc/Coordinator.cpp:296-302 | when the first wait ends, exactly the connected participants have answered; if nobody is counted all were cut off |
| Coordinator.ResponseMeans | lab3/src_2pc/Coordinator.cpp:277-289 | the vote recorded for a participant is 1 if and only if PREPARED was read from it, 0 if and only if something else was, or something that could not be parsed |
| Coordinator.VoteMeans | lab3/src_2pc/Coordinator.cpp:277-302 | a NO is recorded if and only if something else than PREPARED was read from somebody |
| Coordinator.CommitVote | lab3/src_2pc/Coordinator.cpp:296-302 | once somebody answered and the wait is over, the vote is for COMMIT if and only if nothing but PREPARED was read; then PREPARED was read from everyone connected |
| Coordinator.SilenceIsNoNo | lab3/src_2pc/Coordinator.cpp:222-243 | one participant answers PREPARED, the other is silent: the vote is for COMMIT, and the other is not valid |
| Coordinator.RepliesCounted | lab3/src_2pc/Coordinator.cpp:384-399 | the count is the number of replies read, and what is kept for the client is the first of them, if it was parsed |
| Coordinator.WaitDescribed | lab3/src_2pc/Coordinator.cpp:222-266 | a participant stops being valid in a wait if and only if its connection was lost for good, or four timeouts in a row came before it answered; it is waited for until then or until it answers |
| Coordinator.AliveStillValid | lab3/src_2pc/Coordinator.cpp:320-403 | the alive count is the number of participants connected at the start and still valid; the others are not touched |
| Coordinator.DecidedOver | lab3/src_2pc/Coordinator.cpp:405-408 | when the second wait ends nobody is watched or connected, and those counted are those alive |
| Coordinator.Coordinator.CheckPrepared | lab3/src_2pc/Coordinator.cpp:522-532 | true exactly when there are answers and none is NO |
| Coordinator.EndsOnce | lab3/src_2pc/Coordinator.cpp:211-294 | how a wait ends, after how many calls of select and in which state, is settled by how it starts and by what select reports |
| Coordinator.Coordinator.WaitForPrepared | lab3/src_2pc/Coordinator.cpp:195-303 | ends in the state that the reports of select lead to, each read in the order of the participants, at the first call where nobody is left to wait for or select fails; sockets, flags and counts are those of that state, and 1, 0 or -1 its votes |
| Coordinator.Coordinator.WaitForCommitOrAbort | lab3/src_2pc/Coordinator.cpp:305-409 | the same for the second wait, with the first reply that could be parsed when nobody was counted yet |
| Handlers.ConnectAllParticipants | lab3/src_2pc/Coordinator.cpp:411-450 | exactly the valid participants that answer one of three attempts are connected, counted and stay valid |
| Handlers.ConnectParticipant | lab3/src_2pc/Coordinator.cpp:452-484 | one participant: connected if valid and reached in three attempts, else not valid |
| Handlers.DialsThrice | lab3/src_2pc/Coordinator.cpp:411-484 | there are three attempts |
| Handlers.CourseOnce | lab3/src_2pc/Coordinator.cpp:145-193 | who was reached and the reports of the two selects settle how both waits end, and so the vote and the confirmation |
| Handlers.CourseMeans | lab3/src_2pc/Coordinator.cpp:145-193 | the vote is for COMMIT if and only if somebody answered and nothing but PREPARED was read, for ABORT if and only if somebody answered and something else was read; it is confirmed if and only if the decision was answered, and the first answer is the one kept |
| Handlers.CourseValid | lab3/src_2pc/Coordinator.cpp:222-266 | valid after a transaction are those reached whom neither wait has given up, by a lost connection or four timeouts in a row |
| Handlers.Transact | lab3/src_2pc/Coordinator.cpp:145-193 | vote, confirmation, first reply and valid flags are those of that course, the second wait starting with who is connected after the first; with nobody reached there is neither |
| Handlers.HandleSET | lab3/src_2pc/Coordinator.cpp:64-112 | OK exactly when in that course the vote is COMMIT and somebody confirms, else an error |
| Handlers.HandleDEL | lab3/src_2pc/Coordinator.cpp:145-193 | in that case the first reply of the second wait is passed on, else an error |
| Handlers.AnswersOnce | lab3/src_2pc/Coordinator.cpp:114-143 | whether a participant asked alone answers, and with what, is settled by the reports of select |
| Handlers.HandleGET | lab3/src_2pc/Coordinator.cpp:114-143 | the first participant in order that is valid, reached and answers has its answer passed on; those before it were not valid, not reached, or given up after four timeouts in a row or a lost connection, and are not valid any more; those behind it are untouched; if there is none, an error |
| TwoPhaseCommit.NextKeeps | lab3/src_2pc/Coordinator.cpp:64-193 | every step of coordinator, participants or network keeps the system invariant, unless a lost decision is counted |
| TwoPhaseCommit.StepIsEvent | lab3/src_2pc/Coordinator.cpp:195-409 | timeouts, reads and losses of the system are events of the wait loops, and nothing else touches a wait under way |
| TwoPhaseCommit.DecideExactly | lab3/src_2pc/Coordinator.cpp:82-97 | COMMIT is decided if and only if somebody is connected and everyone connected has answered PREPARED; only then the committed map changes, by the command |
| TwoPhaseCommit.TimeoutResends | lab3/src_2pc/Coordinator.cpp:222-243 | at a timeout everyone waited for is sent the request again, or, at the fourth in a row, left and no longer valid |
| TwoPhaseCommit.ValidExactly | lab3/src_2pc/Coordinator.cpp:195-484 | a step takes the valid flag from exactly those not reached or given up in it |
| TwoPhaseCommit.DrainIsRun | lab3/src_2pc/Participant.cpp:40-102 | reading connections one after another is handling, of each, the requests up to its first decision |
| TwoPhaseCommit.ReceiveKeepsEnd | lab3/src_2pc/Participant.cpp:40-102 | when a participant reads on makes no difference to where it ends up, and it stops only by shutting down |
| TwoPhaseCommit.Agreement | lab3/src_2pc/Coordinator.cpp:64-112 | in every safe run, between transactions, each valid participant that has read what was sent to it holds the committed map |
| TwoPhaseCommit.CommittedIsFold | lab3/src_2pc/Coordinator.cpp:88-97 | the committed map is the fold of the commands decided COMMIT, in order |
| TwoPhaseCommit.NeverBack | lab3/src_2pc/Coordinator.cpp:222-266 | a participant not reached or not answering is never valid again |
| TwoPhaseCommit.ToldIsTrue | lab3/src_2pc/Coordinator.cpp:103-142 | in every safe run: exactly when a client is told an error, and otherwise it is told what one map with the committed values would tell |
| TwoPhaseCommit.ToldExactly | lab3/src_2pc/MessageProcessor.cpp:115-137 | the same in every state of the invariant: an error after ABORT, when nobody followed, or when a DEL or GET has a first reply without count or value |
| TwoPhaseCommit.CommitToldExactly | lab3/src_2pc/MessageProcessor.cpp:115-119 | a COMMIT that was followed is told as by one map if and only if it is a SET or the first reply counted was parsed and is no PREPARED, else with an error |
| TwoPhaseCommit.GetToldExactly | lab3/src_2pc/MessageProcessor.cpp:115-119 | an answered GET is told nil for an absent key and else the value, as by one map, if and only if the value is not empty |
| TwoPhaseCommit.NobodyLeft | lab3/src_2pc/Coordinator.cpp:405-408 | when nobody followed the decision, nobody is valid any more |
| TwoPhaseCommit.UnansweredMeansNobody | lab3/src_2pc/Coordinator.cpp:114-143 | in every safe run a GET or a decision ends unanswered only when nobody is valid any more |
| TwoPhaseCommit.StaleDelIsError | lab3/src_2pc/Coordinator.cpp:384-399 | a safe run after which a DEL is committed and its client told an error |
| TwoPhaseCommit.OkIsKept | lab3/src_2pc/Coordinator.cpp:103-106 | when OK is replied some participant is valid, and every valid one holds the new map once it has read on |
| TwoPhaseCommit.CountingExact | lab3/src_2pc/Coordinator.cpp:384-399 | counting a reply in the second phase keeps the invariant if and only if the decision for its sender is not lost |
| TwoPhaseCommit.LostMeansStale | lab3/src_2pc/Coordinator.cpp:384-399 | a decision is lost only on a broken connection, and only repeated PREPARED replies are then unread |
| TwoPhaseCommit.LosingRunDisagrees | lab3/src_2pc/Coordinator.cpp:384-399 | for every SET a run after which the client was told OK and a valid participant that has read everything lacks the value |
| TwoPhaseCommit.DoneIsSafe | lab3/src_2pc/Coordinator.cpp:384-399 | a step that counts no other reply than a DONE in the second phase counts no lost decision |
| TwoPhaseCommit.AgreementIfDone | lab3/src_2pc/Coordinator.cpp:64-143 | in every run in which each reply counted in the second phase is a DONE: agreement, true replies, and a followed DEL is told its count unless the first reply could not be parsed |
| FaultFree.AnswersAsOneMap | lab3/src_2pc/Coordinator.cpp:64-193 | when nothing goes wrong, the list of replies of a run is the list one map gives for the commands, if and only if no GET asks for an empty value, which is answered with an error; the committed map is what the commands make of the empty one |
| FaultFree.RepliesByHistory | lab3/labDescription/README.md:196-260 | what one map answers, without the map: a GET the value of the last SET of its key or nil, a DEL the number of its keys that have a value |
| FaultFree.EmptyValueIsError | lab3/src_2pc/MessageProcessor.cpp:115-119 | such a run, with a SET of the empty value to any key and a GET of it |
| TextLines.LinesRoundTrip | lab3/src_2pc/MessageProcessor.cpp:41-47 | lines written with CR and LF are read back if and only if none has a line feed inside |
| TextLines.JoinRoundTrip | lab3/src_2pc/MessageProcessor.cpp:139-150 | strings joined by single spaces are split again if and only if each is a word |
| TextLines.WordsKeepAll | lab3/src_2pc/MessageProcessor.cpp:139-150 | splitting any string into words loses nothing but blanks and the control characters 9 to 13, and no word holds any |
| TextLines.NumberRoundTrip | lab3/src_2pc/MessageProcessor.cpp:84 | the decimal text of a number reads back as the number |
| TextLines.Decimal | lab3/src_2pc/MessageProcessor.cpp:84 | the text of a number is its decimal digits, highest first |
| MessageCodec.RespRoundTrip | lab3/src_2pc/MessageProcessor.cpp:122-131 | the counts and lengths written are right: an independent reader of the format gets back any strings |
| MessageCodec.ArgumentsArrive | lab3/src_2pc/MessageProcessor.cpp:9-18 | the arguments of a request are parsed as sent if and only if none has a line feed inside or begins like a count or a length |
| MessageCodec.ParseClientMsg | lab3/src_2pc/MessageProcessor.cpp:5-35 | true exactly for a known verb with an argument; the lines without marks, the words of a value merged |
| MessageCodec.AcceptedExactly | lab3/src_2pc/MessageProcessor.cpp:19-33 | what is accepted is what a participant can make a command of, and a SET without a value |
| MessageCodec.ParseClusterMsg | lab3/src_2pc/MessageProcessor.cpp:37-52 | the lines of the text, accepted from two on |
| MessageCodec.GetClusterPrepareRequestMsg | lab3/src_2pc/MessageProcessor.cpp:83-91 | the text of the header, the id and every word, line by line |
| MessageCodec.RequestRoundTrip | lab3/src_2pc/MessageProcessor.cpp:83-101 | a participant reads the request that was sent if and only if no key and no value has a line feed inside |
| MessageCodec.ReplyRoundTrip | lab3/src_2pc/MessageProcessor.cpp:103-105 | the lines of a reply come back if and only if its addition has no line feed inside |
| MessageCodec.CutStringBySpace | lab3/src_2pc/MessageProcessor.cpp:139-150 | the words of the string |
| MessageCodec.GetClientGetOrDelMsg | lab3/src_2pc/MessageProcessor.cpp:115-137 | of four lines, the value's words as a RESP array for a GET and the count for a DEL, and an error in every other case |
| MessageCodec.PassedOnText | lab3/src_2pc/MessageProcessor.cpp:115-157 | through both texts the client reads what the protocol model passes on |
| MessageCodec.ValueRoundTrip | lab3/src_2pc/MessageProcessor.cpp:5-157 | a value of words that are not empty, hold no white space and do not begin like a mark, set under such a key, is answered to a GET as the very array sent |
| MessageCodec.DelRoundTrip | lab3/src_2pc/MessageProcessor.cpp:5-157 | a DEL of any plain keys arrives with each key as one key, is handled so that exactly those keys go, and its client reads how many of them were there |
| MessageCodec.KeyRead | lab3/src_2pc/Participant.cpp:129-153 | the client of a GET reads nil for a key that is not there, and else the words of the value |
| MessageCodec.Documented | lab3/labDescription/README.md:139-256 | the texts are those of the examples in the description |

## Left out

- Sockets, descriptor sets, `bind`, `accept`, `recv` and `send`: a socket is named by its participant, and a resend is a step of the state machine, not of the wait loops' methods.
- How a byte stream is cut into messages, and sizes over the receive buffer.
- Pointers of the second solver as heap references: nodes are numbers into the pool, which is how the pool is laid out; two-dimensional C arrays are flat arrays.
- The fields of the array solver that are link arrays sit in an object of their own, shared with the pointer solver; all arrays have one size.
- Integer widths: all numbers stay below 100020, and transaction ids are 0..9999.
- Handlers.HandleGET: does not model a failing `select`, because the loop then leaves a socket open and its count wrong.
- MessageCodec.ParseClientMsg: does not model an empty line, because the last character of one is taken off.
- MessageCodec.ParseClusterMsg: does not model an empty line, for the same reason.
- Numbers with signs, spaces or trailing text as `stoi` accepts them; a SET without a value; further words of a GET.
- `Participant::handleExceptionMessage` and the configuration parser: not used by the protocol, or plain file reading.
- The raft variant and the earlier draft in lab3/src: votes are granted without terms or logs, and the draft lacks its handlers.
- The HTTP server of lab2, the thread pipelines of lab1, timing, printing and debug output.
