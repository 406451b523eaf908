/** The driver of the four Sudoku solvers: what their answers have to do with each other. */
module Driver {
  import opened SudokuGrid
  import Neighbors
  import opened Backtracking
  import opened Solvers
  import PointerDance

  datatype Solver = Basic | MinArity | MinArityCache | DancingLinks

  /**
    One puzzle: read it, prepare the cache, solve it, and check a board that is
    said to be solved. The driver asserts that the check succeeds: it does for
    dancing links, and for the others exactly when the givens are consistent.
    All four agree on consistent givens, and then are right.
   */
  method SolveOne(s: Sudoku, puzzle: seq<int>, which: Solver) returns (ok: bool, solved: bool)
    requires s.Tables() && IsPuzzle(puzzle)
    modifies s, s.board, s.spaces, s.occupied, s.arity
    ensures s.Tables()
    ensures ok <==> if which.DancingLinks? then Completable(puzzle) else Fillable(puzzle)
    ensures ok ==> (solved <==> which.DancingLinks? || Consistent(puzzle))
    ensures Consistent(puzzle) ==> (ok <==> Completable(puzzle))
    ensures ok && solved ==> Completes(s.board[..], puzzle)
    ensures !ok ==> s.board[..] == puzzle
  {
    hide Completable, Consistent, Neighbors.ListsPeers;
    s.Input(puzzle);
    s.InitCache();
    ghost var spaces, n := s.spaces[..], s.nspaces;
    match which {
      case Basic =>
        SearchCorrect(false, puzzle, spaces, n, 0);
        ok := s.SolveBasic(0);
      case MinArity =>
        SearchCorrect(true, puzzle, spaces, n, 0);
        ok := s.SolveMinArity(0);
      case MinArityCache =>
        SearchCorrect(true, puzzle, spaces, n, 0);
        ok := s.SolveMinArityCache(0);
      case DancingLinks =>
        ok := PointerDance.SolveDancingLinks(s.board);
    }
    CompletableExact(puzzle);
    solved := false;
    if ok {
      if which.DancingLinks? { CompletesFills(s.board[..], puzzle); }
      FillsIsSolution(s.board[..], puzzle);
      solved := Neighbors.Solved(s.board);
    }
  }
}
