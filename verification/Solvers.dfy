/** The three backtracking solvers, on the global tables they share. */
module Solvers {
  import opened SudokuGrid
  import opened Neighbors
  import opened Backtracking
  import opened ArityCache

  class Sudoku {
    const neighbors: array<int>   // 81 rows of 20
    const board: array<int>
    const spaces: array<int>
    var nspaces: int
    const occupied: array<bool>   // 81 rows of 10
    const arity: array<int>

    /** The tables have their sizes, and each cell's neighbours are listed. */
    ghost predicate Tables()
      reads this, neighbors
    {
      && neighbors.Length == 1620 && board.Length == spaces.Length == arity.Length == 81 && occupied.Length == 810
      && neighbors != board && neighbors != spaces && neighbors != arity && board != spaces && board != arity && spaces != arity
      && forall cell | IsCell(cell) :: ListsPeers(neighbors[..], cell)
    }

    /** The board and the spaces still to fill from ws on. */
    ghost predicate Filling(ws: int)
      reads this, neighbors, board, spaces
    {
      Tables() && nspaces <= 81 && ListsEmpty(board[..], spaces[..], nspaces, ws)
    }

    constructor ()
      ensures Tables() && fresh(neighbors) && fresh(board) && fresh(spaces) && fresh(occupied) && fresh(arity)
    {
      neighbors := new int[1620];
      board := new int[81];
      spaces := new int[81];
      occupied := new bool[810];
      arity := new int[81];
      nspaces := 0;
      new;
      InitNeighbors(neighbors);
    }

    /** Take over a puzzle, and list its empty cells. */
    method Input(puzzle: seq<int>)
      requires Tables() && IsPuzzle(puzzle)
      modifies this`nspaces, board, spaces
      ensures board[..] == puzzle && Filling(0) && Ascending(spaces[..], nspaces)
    {
      var cell := 0;
      while cell < 81
        invariant 0 <= cell <= 81 && forall k | 0 <= k < cell :: board[k] == puzzle[k]
        invariant Tables()
      {
        board[cell] := puzzle[cell];
        cell := cell + 1;
      }
      assert board[..] == puzzle;
      FindSpaces();
    }

    method FindSpaces()
      requires Tables() && IsPuzzle(board[..])
      modifies this`nspaces, spaces
      ensures Filling(0) && Ascending(spaces[..], nspaces)
    {
      nspaces := 0;
      var cell := 0;
      while cell < 81
        invariant 0 <= cell <= 81 && 0 <= nspaces <= cell && Tables()
        invariant forall k | 0 <= k < nspaces :: 0 <= spaces[k] < cell && board[spaces[k]] == 0
        invariant forall i, j | 0 <= i < j < nspaces :: spaces[i] < spaces[j]
        invariant forall x | 0 <= x < cell && board[x] == 0 :: x in spaces[..nspaces]
      {
        if board[cell] == 0 {
          ghost var before := spaces[..nspaces];
          spaces[nspaces] := cell;
          nspaces := nspaces + 1;
          assert spaces[..nspaces] == before + [cell];
        }
        cell := cell + 1;
      }
      assert spaces[0..nspaces] == spaces[..nspaces];
    }

    /** The i-th neighbour of a cell is the i-th of its peers. */
    lemma NeighborAt(cell: int, i: int)
      requires Tables() && IsCell(cell) && 0 <= i < 20
      ensures |PeersBelow(cell, 81)| == 20
      ensures neighbors[cell * 20 + i] == PeersBelow(cell, 81)[i]
      ensures IsCell(neighbors[cell * 20 + i]) && Peers(cell, neighbors[cell * 20 + i])
    {
      TwentyPeers(cell);
      assert ListsPeers(neighbors[..], cell);
      assert neighbors[..][cell * 20..cell * 20 + 20][i] == neighbors[cell * 20 + i];
      PeersBelowMembers(cell, 81);
      assert PeersBelow(cell, 81)[i] in PeersBelow(cell, 81);
    }

    /** No neighbour holds the guess. */
    method Available(guess: int, cell: int) returns (ok: bool)
      requires Tables() && IsCell(cell)
      ensures ok <==> Fits(board[..], cell, guess)
    {
      ghost var peers := PeersBelow(cell, 81);
      TwentyPeers(cell);
      var i := 0;
      while i < 20
        invariant 0 <= i <= 20
        invariant forall k | 0 <= k < i :: IsCell(peers[k]) && board[peers[k]] != guess
      {
        NeighborAt(cell, i);
        var neighbor := neighbors[cell * 20 + i];
        if board[neighbor] == guess {
          assert Peers(cell, neighbor) && board[..][neighbor] == guess;
          return false;
        }
        i := i + 1;
      }
      forall b | IsCell(b) && Peers(cell, b) ensures board[b] != guess {
        PeersBelowMembers(cell, 81);
        assert b in peers;
      }
      return true;
    }

    /** The basic solver: the spaces in the order they come. */
    method SolveBasic(ws: int) returns (ok: bool)
      requires Filling(ws)
      modifies board
      ensures Result(ok, board[..], spaces[..]) == Search(false, old(board[..]), old(spaces[..]), nspaces, ws)
      ensures Tables()
      decreases nspaces - ws
    {
      if ws >= nspaces {
        return true;
      }
      var cell := spaces[ws];
      ghost var board0, spaces0 := board[..], spaces[..];
      ghost var n := nspaces;
      NextListsEmpty(board0, spaces0, n, ws, 1);
      var guess := 1;
      while guess <= 9
        invariant 1 <= guess <= 10 && Tables()
        invariant board[..] == board0
        invariant Search(false, board0, spaces0, n, ws) == Guess(false, board0, spaces0, n, ws, cell, guess)
      {
        var fits := Available(guess, cell);
        if fits {
          assert board[cell] == 0;
          board[cell] := guess;
          assert board[..] == board0[cell := guess];
          NextListsEmpty(board0, spaces0, n, ws, guess);
          SearchCorrect(false, board0[cell := guess], spaces0, n, ws + 1);
          SearchKeepsSpaces(board0[cell := guess], spaces0, n, ws + 1);
          var done := SolveBasic(ws + 1);
          if done {
            return true;
          }
          assert board[cell] == guess;
          board[cell] := 0;
          assert board[..] == board0;
        }
        guess := guess + 1;
      }
      return false;
    }

    // ----- the most constrained space first ---------------------------------------------------

    /** How many digits are free in a cell. */
    method ArityOf(cell: int) returns (n: int)
      requires Tables() && IsCell(cell) && forall k | IsCell(k) :: 0 <= board[k] <= 9
      ensures n == |FreeDigits(board[..], cell)|
    {
      var taken := new bool[10](_ => false);
      ghost var b, peers := board[..], PeersBelow(cell, 81);
      TwentyPeers(cell);
      var i := 0;
      while i < 20
        invariant 0 <= i <= 20 && board[..] == b
        invariant forall v | 0 <= v <= 9 :: taken[v] <==> HeldBy(b, peers[..i], v)
      {
        NeighborAt(cell, i);
        var neighbor := neighbors[cell * 20 + i];
        HeldByOneMore(b, peers, i, neighbor);
        taken[board[neighbor]] := true;
        i := i + 1;
      }
      HeldByAll(b, cell);
      assert peers[..20] == peers;
      n := CountFree(taken);
      assert (set v | 1 <= v <= 9 && !taken[v]) == FreeDigits(b, cell);
    }

    /** std::count of false behind the first entry. */
    static method CountFree(taken: array<bool>) returns (n: int)
      requires taken.Length == 10
      ensures n == |set v | 1 <= v <= 9 && !taken[v]|
    {
      n := 0;
      var k := 1;
      ghost var free: set<int> := {};
      while k < 10
        invariant 1 <= k <= 10 && n == |free|
        invariant forall v :: v in free <==> 1 <= v < k && !taken[v]
      {
        if !taken[k] {
          n := n + 1;
          free := free + {k};
        }
        k := k + 1;
      }
      assert free == set v | 1 <= v <= 9 && !taken[v];
    }

    /** Bring a space with the fewest free digits, or the first found with at most one, to the front. */
    method FindMinArity(space: int)
      requires Filling(space) && space < nspaces
      modifies spaces
      ensures spaces[..] == Picked(true, board[..], old(spaces[..]), nspaces, space)
    {
      hide FreeDigits, Fits, ListsPeers;
      ghost var b, s, n := board[..], spaces[..], nspaces;
      SpaceIsCell(b, s, n, space, space);
      var cell := spaces[space];
      var minSpace := space;
      var minArity := ArityOf(cell);
      var sp := space + 1;
      while sp < nspaces && minArity > 1
        invariant space < sp <= nspaces && space <= minSpace < sp
        invariant spaces[..] == s && board[..] == b
        invariant minArity == |FreeDigits(b, s[minSpace])|
        invariant Scan(b, s, n, space + 1, space) == Scan(b, s, n, sp, minSpace)
      {
        SpaceIsCell(b, s, n, space, sp);
        var curArity := ArityOf(spaces[sp]);
        if curArity < minArity {
          minArity := curArity;
          minSpace := sp;
        }
        sp := sp + 1;
      }
      if space != minSpace {
        spaces[minSpace], spaces[space] := spaces[space], spaces[minSpace];
      }
      assert spaces[..] == Swap(s, minSpace, space);
    }

    /** The min-arity solver. */
    method SolveMinArity(ws: int) returns (ok: bool)
      requires Filling(ws)
      modifies board, spaces
      ensures Result(ok, board[..], spaces[..]) == Search(true, old(board[..]), old(spaces[..]), nspaces, ws)
      ensures Tables()
      decreases nspaces - ws, 1
    {
      if ws >= nspaces {
        return true;
      }
      ghost var board0, spaces0, n := board[..], spaces[..], nspaces;
      FindMinArity(ws);
      var cell := spaces[ws];
      ghost var picked := spaces[..];
      PickedFills(board0, spaces0, n, ws);
      var guess := 1;
      while guess <= 9
        invariant 1 <= guess <= 10 && Tables()
        invariant board[..] == board0 && ListsEmpty(board0, spaces[..], n, ws) && spaces[ws] == cell
        invariant Search(true, board0, spaces0, n, ws) == Guess(true, board0, spaces[..], n, ws, cell, guess)
      {
        SpaceIsCell(board0, spaces[..], n, ws, ws);
        GuessStep(true, board0, spaces[..], n, ws, cell, guess);
        var fits := Available(guess, cell);
        if fits {
          var done := TryGuess(ws, cell, guess);
          if done {
            return true;
          }
        }
        guess := guess + 1;
      }
      return false;
    }

    /** One guess of SolveMinArity: hold, try, and undo the hold when the rest fails. */
    method TryGuess(ws: int, cell: int, guess: int) returns (done: bool)
      requires Filling(ws) && ws < nspaces && cell == spaces[ws] && IsCell(cell) && board[cell] == 0 && 1 <= guess <= 9
      modifies board, spaces
      ensures Tables()
      ensures var r := Search(true, old(board[..])[cell := guess], old(spaces[..]), nspaces, ws + 1);
              && done == r.ok && spaces[..] == r.spaces
              && (done ==> board[..] == r.board)
              && (!done ==> board[..] == old(board[..]) && ListsEmpty(board[..], spaces[..], nspaces, ws) && spaces[ws] == cell)
      decreases nspaces - ws, 0
    {
      hide Search, Fits;
      ghost var board0 := board[..];
      assert board[cell] == 0;
      board[cell] := guess;
      assert board[..] == board0[cell := guess];
      AfterFailure(true, board0, spaces[..], nspaces, ws, guess);
      done := SolveMinArity(ws + 1);
      if !done {
        assert board[cell] == guess;
        board[cell] := 0;
        assert board[..] == board0;
      }
    }

    // ----- the same with a cache ---------------------------------------------------------------

    /** What the cached solver starts from: the cache fits the board. */
    method InitCache()
      requires Tables() && IsPuzzle(board[..])
      modifies occupied, arity
      ensures CacheFits(board[..], occupied[..], arity[..])
    {
      ghost var b := board[..];
      forall k | 0 <= k < 810 { occupied[k] := false; }
      forall k | 0 <= k < 81 { arity[k] := 9; }
      NoneBelow(b, occupied[..], arity[..]);
      var cell := 0;
      while cell < 81
        invariant 0 <= cell <= 81 && Tables() && board[..] == b
        invariant CacheBelow(b, occupied[..], arity[..], cell)
      {
        InitCell(cell);
        cell := cell + 1;
      }
      AllBelow(b, occupied[..], arity[..]);
    }

    /** One round of InitCache: a given is entered with all its neighbours. */
    method InitCell(cell: int)
      requires Tables() && IsPuzzle(board[..]) && IsCell(cell)
      requires CacheBelow(board[..], occupied[..], arity[..], cell)
      modifies occupied, arity
      ensures CacheBelow(board[..], occupied[..], arity[..], cell + 1)
    {
      hide ListsPeers, CellFits;
      ghost var b := board[..];
      ZeroEntry(b, occupied[..], arity[..], cell);
      ghost var occ0 := occupied[..][cell * 10 := true];
      occupied[cell * 10] := true;
      assert occupied[..] == occ0;
      var val := board[cell];
      if val > 0 {
        ghost var ar0 := arity[..];
        occupied[cell * 10 + val] := true;
        assert occupied[..] == occ0[cell * 10 + val := true];
        var seen := new int[20];
        var _, m := HitNeighbors(cell, val, seen);
        FilledBelow(b, occ0, ar0, cell, m);
      } else {
        EmptyBelow(b, occ0, arity[..], cell);
      }
    }

    /** Mark guess in the neighbours where it was free; `modified` remembers which. */
    method HitNeighbors(cell: int, guess: int, modified: array<int>) returns (nmodified: int, ghost m: set<int>)
      requires Tables() && IsCell(cell) && 1 <= guess <= 9
      requires modified.Length == 20 && modified != neighbors && modified != board && modified != spaces && modified != arity
      modifies occupied, arity, modified
      ensures NewlyHit(old(occupied[..]), cell, guess, m)
      ensures occupied[..] == Marked(old(occupied[..]), m, guess) && arity[..] == Lowered(old(arity[..]), m)
      ensures 0 <= nmodified <= 20 && Lists(modified[..nmodified], m)
    {
      hide Peers, Marked, Lowered, MetFree, ListsPeers;
      ghost var occ, ar, peers := occupied[..], arity[..], PeersBelow(cell, 81);
      TwentyPeers(cell);
      m, nmodified := {}, 0;
      NothingMet(occ, guess);
      MarkedNone(occ, ar, guess);
      var i := 0;
      while i < 20
        invariant 0 <= nmodified <= i <= 20 && Tables()
        invariant MetFree(occ, peers[..i], guess, m)
        invariant occupied[..] == Marked(occ, m, guess) && arity[..] == Lowered(ar, m)
        invariant Lists(modified[..nmodified], m)
      {
        NeighborAt(cell, i);
        var neighbor := neighbors[cell * 20 + i];
        PeerNotMet(cell, i);
        MeetOne(occ, peers[..i], guess, m, neighbor);
        assert occupied[..][neighbor * 10 + guess] == occ[neighbor * 10 + guess];
        if !occupied[neighbor * 10 + guess] {
          MarkOne(occ, ar, m, guess, neighbor);
          ListsOneMore(modified[..nmodified], m, neighbor);
          ghost var listed := modified[..nmodified];
          occupied[neighbor * 10 + guess] := true;
          arity[neighbor] := arity[neighbor] - 1;
          modified[nmodified] := neighbor;
          nmodified := nmodified + 1;
          assert modified[..nmodified] == listed + [neighbor];
          m := m + {neighbor};
        }
        i := i + 1;
      }
      assert peers[..20] == peers;
      AllMet(occ, cell, guess, m);
    }

    /** Free again what is listed in `modified`. */
    method FreeModified(guess: int, modified: array<int>, nmodified: int, ghost occ: seq<bool>, ghost ar: seq<int>, ghost m: set<int>)
      requires Tables() && 1 <= guess <= 9
      requires 0 <= nmodified <= modified.Length && modified !in {neighbors, board, spaces, arity}
      requires |occ| == 810 && |ar| == 81 && (forall e | e in m :: IsCell(e) && !occ[e * 10 + guess])
      requires Lists(modified[..nmodified], m)
      requires occupied[..] == Marked(occ, m, guess) && arity[..] == Lowered(ar, m)
      modifies occupied, arity
      ensures occupied[..] == occ && arity[..] == ar
    {
      ghost var rest, listed := m, modified[..nmodified];
      var i := 0;
      while i < nmodified
        invariant 0 <= i <= nmodified && rest <= m && Tables()
        invariant modified[..nmodified] == listed && Lists(listed[i..], rest)
        invariant occupied[..] == Marked(occ, rest, guess) && arity[..] == Lowered(ar, rest)
      {
        var neighbor := modified[i];
        assert listed[i..][0] == neighbor && listed[i..][1..] == listed[i + 1..];
        ListsRest(listed[i..], rest);
        UnmarkOne(occ, ar, rest, guess, neighbor);
        assert occupied[..][neighbor * 10 + guess];
        assert occupied[neighbor * 10 + guess];
        occupied[neighbor * 10 + guess] := false;
        arity[neighbor] := arity[neighbor] + 1;
        rest := rest - {neighbor};
        i := i + 1;
      }
      assert listed[i..] == [];
      ListsNone(rest);
      MarkedNone(occ, ar, guess);
    }

    /** The same choice as FindMinArity, read from the cache. */
    method FindMinArityCache(space: int)
      requires Filling(space) && space < nspaces && CacheFits(board[..], occupied[..], arity[..])
      modifies spaces
      ensures spaces[..] == Picked(true, board[..], old(spaces[..]), nspaces, space)
    {
      ghost var b, s, n := board[..], spaces[..], nspaces;
      SpaceIsCell(b, s, n, space, space);
      var cell := spaces[space];
      var minSpace := space;
      var minArity := arity[cell];
      assert CellFits(b, occupied[..], arity[..], cell);
      var sp := space + 1;
      while sp < nspaces && minArity > 1
        invariant space < sp <= nspaces && space <= minSpace < sp
        invariant spaces[..] == s && board[..] == b
        invariant minArity == |FreeDigits(b, s[minSpace])|
        invariant Scan(b, s, n, space + 1, space) == Scan(b, s, n, sp, minSpace)
      {
        SpaceIsCell(b, s, n, space, sp);
        var curArity := arity[spaces[sp]];
        assert CellFits(b, occupied[..], arity[..], s[sp]);
        if curArity < minArity {
          minArity := curArity;
          minSpace := sp;
        }
        sp := sp + 1;
      }
      if space != minSpace {
        spaces[minSpace], spaces[space] := spaces[space], spaces[minSpace];
      }
      assert spaces[..] == Swap(s, minSpace, space);
    }

    /** The cached solver: it ends exactly as SolveMinArity does, and a failure gives the cache back. */
    method SolveMinArityCache(ws: int) returns (ok: bool)
      requires Filling(ws) && CacheFits(board[..], occupied[..], arity[..])
      modifies board, spaces, occupied, arity
      ensures Result(ok, board[..], spaces[..]) == Search(true, old(board[..]), old(spaces[..]), nspaces, ws)
      ensures Tables()
      ensures !ok ==> occupied[..] == old(occupied[..]) && arity[..] == old(arity[..])
      decreases nspaces - ws, 1
    {
      hide FreeDigits, Fits, ListsPeers, Picked;
      if ws >= nspaces {
        return true;
      }
      ghost var board0, spaces0, n, occ0, ar0 := board[..], spaces[..], nspaces, occupied[..], arity[..];
      FindMinArityCache(ws);
      var cell := spaces[ws];
      PickedFills(board0, spaces0, n, ws);
      var guess := 1;
      while guess <= 9
        invariant 1 <= guess <= 10 && Tables()
        invariant board[..] == board0 && ListsEmpty(board0, spaces[..], n, ws) && spaces[ws] == cell
        invariant occupied[..] == occ0 && arity[..] == ar0
        invariant Search(true, board0, spaces0, n, ws) == Guess(true, board0, spaces[..], n, ws, cell, guess)
      {
        SpaceIsCell(board0, spaces[..], n, ws, ws);
        assert CellFits(board0, occ0, ar0, cell);
        GuessStep(true, board0, spaces[..], n, ws, cell, guess);
        if !occupied[cell * 10 + guess] {
          var done := TryCached(ws, cell, guess);
          if done {
            return true;
          }
        }
        guess := guess + 1;
      }
      return false;
    }

    /** One guess of SolveMinArityCache: hold, try, and undo the hold when the rest fails. */
    method TryCached(ws: int, cell: int, guess: int) returns (done: bool)
      requires Filling(ws) && ws < nspaces && cell == spaces[ws] && IsCell(cell) && board[cell] == 0 && 1 <= guess <= 9
      requires CacheFits(board[..], occupied[..], arity[..]) && !occupied[cell * 10 + guess]
      modifies board, spaces, occupied, arity
      ensures Tables()
      ensures var r := Search(true, old(board[..])[cell := guess], old(spaces[..]), nspaces, ws + 1);
              && done == r.ok && spaces[..] == r.spaces
              && (done ==> board[..] == r.board)
              && (!done ==> board[..] == old(board[..]) && ListsEmpty(board[..], spaces[..], nspaces, ws) && spaces[ws] == cell)
      ensures !done ==> occupied[..] == old(occupied[..]) && arity[..] == old(arity[..])
      decreases nspaces - ws, 0
    {
      ghost var board0, spaces0, n, occ0, ar0 := board[..], spaces[..], nspaces, occupied[..], arity[..];
      assert board[cell] == 0;
      board[cell] := guess;
      occupied[cell * 10 + guess] := true;
      assert board[..] == board0[cell := guess];
      assert occupied[..] == occ0[cell * 10 + guess := true];
      var modified := new int[20];
      var nmodified, m := HitNeighbors(cell, guess, modified);
      HoldKeepsCache(board0, occ0, ar0, cell, guess, m);
      AfterFailure(true, board0, spaces0, n, ws, guess);
      ghost var listed := modified[..nmodified];
      done := SolveMinArityCache(ws + 1);
      if !done {
        assert modified[..nmodified] == listed;
        NewlyHitFree(occ0, cell, guess, m);
        OwnEntry(occ0, m, guess, cell);
        occupied[cell * 10 + guess] := false;
        assert occupied[..] == Marked(occ0, m, guess);
        assert board[cell] == guess;
        board[cell] := 0;
        assert board[..] == board0;
        FreeModified(guess, modified, nmodified, occ0, ar0, m);
      }
    }
  }

  /** Without picking, the order of spaces does not change. */
  lemma {:induction false} SearchKeepsSpaces(board: seq<int>, spaces: seq<int>, n: int, ws: int)
    requires |board| == 81 && 0 <= ws <= n <= |spaces|
    ensures Search(false, board, spaces, n, ws).spaces == spaces
    decreases n - ws, 10
  {
    if ws < n { GuessKeepsSpaces(board, spaces, n, ws, spaces[ws], 1); }
  }

  lemma {:induction false} GuessKeepsSpaces(board: seq<int>, spaces: seq<int>, n: int, ws: int, cell: int, guess: int)
    requires |board| == 81 && 0 <= ws < n <= |spaces| && 1 <= guess <= 10
    ensures Guess(false, board, spaces, n, ws, cell, guess).spaces == spaces
    decreases n - ws, 10 - guess
  {
    if guess <= 9 && IsCell(cell) {
      if Fits(board, cell, guess) { SearchKeepsSpaces(board[cell := guess], spaces, n, ws + 1); }
      GuessKeepsSpaces(board, spaces, n, ws, cell, guess + 1);
    }
  }

  // ----- lemmas on values ------------------------------------------------------------------------

  /** One of the cells in cs holds v. */
  ghost predicate HeldBy(board: seq<int>, cs: seq<int>, v: int)
    requires |board| == 81
  {
    exists c :: c in cs && IsCell(c) && board[c] == v
  }

  lemma HeldByOneMore(board: seq<int>, cs: seq<int>, i: nat, c: int)
    requires |board| == 81 && i < |cs| && cs[i] == c && IsCell(c)
    ensures forall v :: HeldBy(board, cs[..i + 1], v) <==> HeldBy(board, cs[..i], v) || board[c] == v
  {
    assert cs[..i + 1] == cs[..i] + [c];
    forall v ensures HeldBy(board, cs[..i + 1], v) <==> HeldBy(board, cs[..i], v) || board[c] == v {
      if HeldBy(board, cs[..i], v) {
        var x :| x in cs[..i] && IsCell(x) && board[x] == v;
        assert x in cs[..i + 1];
      }
      if board[c] == v { assert c in cs[..i + 1]; }
    }
  }

  lemma HeldByAll(board: seq<int>, cell: int)
    requires |board| == 81 && IsCell(cell)
    ensures forall v :: HeldBy(board, PeersBelow(cell, 81), v) <==> !Fits(board, cell, v)
  {
    PeersBelowMembers(cell, 81);
    forall v ensures HeldBy(board, PeersBelow(cell, 81), v) <==> !Fits(board, cell, v) {
      if !Fits(board, cell, v) {
        var b :| IsCell(b) && Peers(cell, b) && board[b] == v;
        assert b in PeersBelow(cell, 81);
      }
    }
  }

  lemma SpaceIsCell(board: seq<int>, spaces: seq<int>, n: int, ws: int, sp: int)
    requires ListsEmpty(board, spaces, n, ws) && ws <= sp < n
    ensures IsCell(spaces[sp]) && board[spaces[sp]] == 0
    ensures forall k | IsCell(k) :: 0 <= board[k] <= 9
  {
    assert spaces[ws..n][sp - ws] == spaces[sp];
  }

  lemma PickedFills(board: seq<int>, spaces: seq<int>, n: int, ws: int)
    requires ListsEmpty(board, spaces, n, ws) && ws < n
    ensures ListsEmpty(board, Picked(true, board, spaces, n, ws), n, ws)
  {
    SwapReordered(spaces, n, ws, Scan(board, spaces, n, ws + 1, ws));
    ReorderedListsEmpty(board, spaces, Picked(true, board, spaces, n, ws), n, ws);
  }

  /** The search one space further: it may start, and if it fails the spaces it leaves can be gone on with. */
  lemma AfterFailure(pick: bool, board: seq<int>, spaces: seq<int>, n: int, ws: int, guess: int)
    requires ListsEmpty(board, spaces, n, ws) && ws < n && 1 <= guess <= 9
    ensures IsCell(spaces[ws]) && board[spaces[ws]] == 0
    ensures ListsEmpty(board[spaces[ws] := guess], spaces, n, ws + 1)
    ensures var r := Search(pick, board[spaces[ws] := guess], spaces, n, ws + 1);
            && r.spaces[ws] == spaces[ws] && ListsEmpty(board, r.spaces, n, ws)
            && (!r.ok ==> r.board == board[spaces[ws] := guess])
  {
    NextListsEmpty(board, spaces, n, ws, guess);
    var b2 := board[spaces[ws] := guess];
    SearchCorrect(pick, b2, spaces, n, ws + 1);
    SearchReorders(pick, b2, spaces, n, ws + 1);
    var r := Search(pick, b2, spaces, n, ws + 1);
    ReorderedWiden(spaces, r.spaces, n, ws);
    ReorderedListsEmpty(board, spaces, r.spaces, n, ws);
  }
}
