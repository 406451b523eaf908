/**
  The backtracking search as a function on values: which board and which order
  of spaces it ends with. Cells are tried in the order of `spaces`, either as
  they come or taking a most constrained one first.
 */
module Backtracking {
  import opened Rings
  import opened SudokuGrid
  import opened Choice

  /** No peer of cell holds v. */
  ghost predicate Fits(board: seq<int>, cell: int, v: int)
    requires |board| == 81
  {
    forall b | IsCell(b) && Peers(cell, b) :: board[b] != v
  }

  /** The digits that fit into cell. */
  ghost function FreeDigits(board: seq<int>, cell: int): set<int>
    requires |board| == 81
  {
    set v | 1 <= v <= 9 && Fits(board, cell, v)
  }

  function Swap(s: seq<int>, i: int, j: int): (t: seq<int>)
    requires 0 <= i < |s| && 0 <= j < |s|
    ensures |t| == |s|
  {
    s[i := s[j]][j := s[i]]
  }

  /** Scan for a space with fewer free digits than the best so far; stop at one with at most one. */
  ghost function Scan(board: seq<int>, spaces: seq<int>, n: int, sp: int, best: int): (r: int)
    requires |board| == 81 && 0 <= best < sp <= n <= |spaces|
    ensures best <= r < n && (r == best || sp <= r)
    decreases n - sp
  {
    if sp < n && |FreeDigits(board, spaces[best])| > 1 then
      Scan(board, spaces, n, sp + 1,
           if |FreeDigits(board, spaces[sp])| < |FreeDigits(board, spaces[best])| then sp else best)
    else best
  }

  /** How many digits fit into each of the spaces from the ws-th on. */
  ghost function Freedoms(board: seq<int>, spaces: seq<int>, n: int, ws: int): (sizes: seq<int>)
    requires |board| == 81 && 0 <= ws <= n <= |spaces|
    ensures |sizes| == n - ws
  {
    seq(n - ws, t requires 0 <= t < n - ws => |FreeDigits(board, spaces[ws + t])|)
  }

  /**
    The space the scan chooses: the first with at most one free digit, or, if
    there is none, the first with the fewest.
   */
  lemma ScanChooses(board: seq<int>, spaces: seq<int>, n: int, ws: int)
    requires |board| == 81 && 0 <= ws < n <= |spaces|
    ensures Chosen(Freedoms(board, spaces, n, ws), Scan(board, spaces, n, ws + 1, ws) - ws)
  {
    var sizes := Freedoms(board, spaces, n, ws);
    if sizes[0] <= 1 { FirstChosen(sizes); } else { ScanStarts(sizes); }
    ScanGoesOn(board, spaces, n, ws, ws + 1, ws);
  }

  lemma {:induction false} ScanGoesOn(board: seq<int>, spaces: seq<int>, n: int, ws: int, sp: int, best: int)
    requires |board| == 81 && 0 <= ws <= best < sp <= n <= |spaces|
    requires var sizes, k := Freedoms(board, spaces, n, ws), best - ws;
             if sizes[k] <= 1 then Chosen(sizes, k) else Scanned(sizes, sp - ws, k)
    ensures Chosen(Freedoms(board, spaces, n, ws), Scan(board, spaces, n, sp, best) - ws)
    decreases n - sp
  {
    hide Chosen, Scanned, FreeDigits;
    var sizes, k := Freedoms(board, spaces, n, ws), best - ws;
    assert sizes[k] == |FreeDigits(board, spaces[best])|;
    if sizes[k] > 1 {
      if sp < n {
        assert sizes[sp - ws] == |FreeDigits(board, spaces[sp])|;
        ScanNext(sizes, sp - ws, k);
        ScanGoesOn(board, spaces, n, ws, sp + 1, if sizes[sp - ws] < sizes[k] then sp else best);
      } else {
        ScanEnds(sizes, k);
      }
    }
  }

  /** spaces with the scan's choice swapped to the front, or as it is. */
  ghost function Picked(pick: bool, board: seq<int>, spaces: seq<int>, n: int, ws: int): (s: seq<int>)
    requires |board| == 81 && 0 <= ws < n <= |spaces|
    ensures |s| == |spaces|
  {
    if pick then Swap(spaces, Scan(board, spaces, n, ws + 1, ws), ws) else spaces
  }

  datatype Result = Result(ok: bool, board: seq<int>, spaces: seq<int>)

  /** The search from the ws-th space on. */
  ghost function Search(pick: bool, board: seq<int>, spaces: seq<int>, n: int, ws: int): (r: Result)
    requires |board| == 81 && 0 <= ws && n <= |spaces|
    ensures |r.board| == 81 && |r.spaces| == |spaces|
    decreases if ws < n then n - ws else 0, 10
  {
    if ws >= n then Result(true, board, spaces)
    else
      var s := Picked(pick, board, spaces, n, ws);
      Guess(pick, board, s, n, ws, s[ws], 1)
  }

  /** Try the digits from guess on in cell, going back to the board as it was after each failure. */
  ghost function Guess(pick: bool, board: seq<int>, spaces: seq<int>, n: int, ws: int, cell: int, guess: int): (r: Result)
    requires |board| == 81 && 0 <= ws < n <= |spaces| && 1 <= guess <= 10
    ensures |r.board| == 81 && |r.spaces| == |spaces|
    decreases n - ws, 10 - guess
  {
    if guess > 9 || !IsCell(cell) then Result(false, board, spaces)
    else if Fits(board, cell, guess) then
      var r := Search(pick, board[cell := guess], spaces, n, ws + 1);
      if r.ok then r else Guess(pick, board, r.spaces, n, ws, cell, guess + 1)
    else Guess(pick, board, spaces, n, ws, cell, guess + 1)
  }

  /** One round of the guessing loop. */
  lemma GuessStep(pick: bool, board: seq<int>, spaces: seq<int>, n: int, ws: int, cell: int, guess: int)
    requires |board| == 81 && 0 <= ws < n <= |spaces| && 1 <= guess <= 9 && IsCell(cell)
    ensures var r := Search(pick, board[cell := guess], spaces, n, ws + 1);
            Guess(pick, board, spaces, n, ws, cell, guess) ==
            if !Fits(board, cell, guess) then Guess(pick, board, spaces, n, ws, cell, guess + 1)
            else if r.ok then r
            else Guess(pick, board, r.spaces, n, ws, cell, guess + 1)
  {
  }

  // ----- the order of spaces ------------------------------------------------------------------

  /** t is s with the entries from ws up to n in some other order, and each of them once. */
  ghost predicate Reordered(s: seq<int>, t: seq<int>, n: int, ws: int)
    requires 0 <= ws <= n <= |s| && |t| == |s|
  {
    && (forall k | 0 <= k < |s| && !(ws <= k < n) :: t[k] == s[k])
    && (forall x :: x in s[ws..n] <==> x in t[ws..n])
    && (Distinct(s[ws..n]) ==> Distinct(t[ws..n]))
  }

  lemma ReorderedTrans(s: seq<int>, t: seq<int>, u: seq<int>, n: int, ws: int)
    requires 0 <= ws <= n <= |s| == |t| == |u| && Reordered(s, t, n, ws) && Reordered(t, u, n, ws)
    ensures Reordered(s, u, n, ws)
  {
  }

  /** Reordering behind the ws-th space reorders from it on. */
  lemma ReorderedWiden(s: seq<int>, t: seq<int>, n: int, ws: int)
    requires 0 <= ws < n <= |s| == |t| && Reordered(s, t, n, ws + 1)
    ensures Reordered(s, t, n, ws)
  {
    assert s[ws..n] == [s[ws]] + s[ws + 1..n];
    assert t[ws..n] == [t[ws]] + t[ws + 1..n];
    if Distinct(s[ws..n]) {
      TailDistinct(s[ws], s[ws + 1..n]);
      ConsDistinct(t[ws], t[ws + 1..n]);
    }
  }

  lemma SwapReordered(s: seq<int>, n: int, ws: int, r: int)
    requires 0 <= ws <= r < n <= |s|
    ensures Reordered(s, Swap(s, r, ws), n, ws)
  {
    var t := Swap(s, r, ws);
    var a, b := s[ws..n], t[ws..n];
    forall k | 0 <= k < n - ws ensures b[k] == a[if k == r - ws then 0 else if k == 0 then r - ws else k] {}
    forall x | x in a ensures x in b {
      var k :| 0 <= k < |a| && a[k] == x;
      assert b[if k == r - ws then 0 else if k == 0 then r - ws else k] == x;
    }
    if Distinct(a) {
      forall i, j | 0 <= i < j < |b| ensures b[i] != b[j] {
        var oi := if i == r - ws then 0 else if i == 0 then r - ws else i;
        var oj := if j == r - ws then 0 else if j == 0 then r - ws else j;
        assert b[i] == a[oi] && b[j] == a[oj] && oi != oj;
        assert if oi < oj then a[oi] != a[oj] else a[oj] != a[oi];
      }
    }
  }

  lemma {:induction false} SearchReorders(pick: bool, board: seq<int>, spaces: seq<int>, n: int, ws: int)
    requires |board| == 81 && 0 <= ws <= n <= |spaces|
    ensures Reordered(spaces, Search(pick, board, spaces, n, ws).spaces, n, ws)
    decreases n - ws, 10
  {
    if ws < n {
      var s := Picked(pick, board, spaces, n, ws);
      if pick { SwapReordered(spaces, n, ws, Scan(board, spaces, n, ws + 1, ws)); }
      assert Reordered(spaces, s, n, ws);
      GuessReorders(pick, board, s, n, ws, s[ws], 1);
      ReorderedWiden(s, Guess(pick, board, s, n, ws, s[ws], 1).spaces, n, ws);
      ReorderedTrans(spaces, s, Guess(pick, board, s, n, ws, s[ws], 1).spaces, n, ws);
    }
  }

  /** Guessing leaves the spaces up to the ws-th alone. */
  lemma {:induction false} GuessReorders(pick: bool, board: seq<int>, spaces: seq<int>, n: int, ws: int, cell: int, guess: int)
    requires |board| == 81 && 0 <= ws < n <= |spaces| && 1 <= guess <= 10
    ensures Reordered(spaces, Guess(pick, board, spaces, n, ws, cell, guess).spaces, n, ws + 1)
    decreases n - ws, 10 - guess
  {
    if guess <= 9 && IsCell(cell) {
      if Fits(board, cell, guess) {
        var r := Search(pick, board[cell := guess], spaces, n, ws + 1);
        SearchReorders(pick, board[cell := guess], spaces, n, ws + 1);
        if !r.ok {
          GuessReorders(pick, board, r.spaces, n, ws, cell, guess + 1);
          ReorderedTrans(spaces, r.spaces, Guess(pick, board, r.spaces, n, ws, cell, guess + 1).spaces, n, ws + 1);
        }
      } else {
        GuessReorders(pick, board, spaces, n, ws, cell, guess + 1);
      }
    }
  }

  // ----- what is found -------------------------------------------------------------------------

  /** The spaces from the ws-th on are the empty cells, each once. */
  ghost predicate ListsEmpty(board: seq<int>, spaces: seq<int>, n: int, ws: int) {
    && |board| == 81 && 0 <= ws <= n <= |spaces|
    && (forall k | IsCell(k) :: 0 <= board[k] <= 9)
    && Distinct(spaces[ws..n])
    && (forall x :: x in spaces[ws..n] <==> IsCell(x) && board[x] == 0)
  }

  /** g fills the empty cells of board, each with a digit that none of its peers has in g. */
  ghost predicate Fills(g: seq<int>, board: seq<int>)
    requires |board| == 81
  {
    && |g| == 81
    && (forall k | IsCell(k) :: 1 <= g[k] <= 9 && (board[k] != 0 ==> g[k] == board[k]))
    && (forall a, b | IsCell(a) && IsCell(b) && Peers(a, b) && board[a] == 0 :: g[a] != g[b])
  }

  ghost predicate Fillable(board: seq<int>)
    requires |board| == 81
  {
    exists g: seq<int> :: Fills(g, board)
  }

  /** Filling one more cell: g fills the board exactly when its digit fits there and it fills the rest. */
  lemma FillsOneMore(g: seq<int>, board: seq<int>, cell: int, v: int)
    requires |board| == 81 && |g| == 81 && IsCell(cell) && board[cell] == 0 && 1 <= v <= 9
    ensures Fills(g, board) && g[cell] == v <==> Fills(g, board[cell := v]) && Fits(board, cell, v)
  {
    var b2 := board[cell := v];
    if Fills(g, b2) && Fits(board, cell, v) {
      forall a, b | IsCell(a) && IsCell(b) && Peers(a, b) && board[a] == 0 ensures g[a] != g[b] {
        if a == cell {
          assert board[b] != v;
          if board[b] == 0 { assert Peers(b, a) && b2[b] == 0; } else { assert g[b] == b2[b] == board[b]; }
        }
      }
      assert g[cell] == b2[cell];
    }
    if Fills(g, board) && g[cell] == v {
      forall b | IsCell(b) && Peers(cell, b) ensures board[b] != v {
        assert g[cell] != g[b];
      }
    }
  }

  lemma NextListsEmpty(board: seq<int>, spaces: seq<int>, n: int, ws: int, v: int)
    requires ListsEmpty(board, spaces, n, ws) && ws < n && 1 <= v <= 9
    ensures IsCell(spaces[ws]) && board[spaces[ws]] == 0
    ensures ListsEmpty(board[spaces[ws] := v], spaces, n, ws + 1)
  {
    var cell := spaces[ws];
    assert spaces[ws..n] == [cell] + spaces[ws + 1..n];
    assert cell in spaces[ws..n];
    TailDistinct(cell, spaces[ws + 1..n]);
  }

  lemma ReorderedListsEmpty(board: seq<int>, s: seq<int>, t: seq<int>, n: int, ws: int)
    requires ListsEmpty(board, s, n, ws) && |t| == |s| && Reordered(s, t, n, ws)
    ensures ListsEmpty(board, t, n, ws)
  {
  }

  /**
    The search is right, whatever the order of spaces: it succeeds if and only
    if the board can be filled, then with a filled board; when it fails the
    board is as it was.
   */
  lemma {:induction false} SearchCorrect(pick: bool, board: seq<int>, spaces: seq<int>, n: int, ws: int)
    requires ListsEmpty(board, spaces, n, ws)
    ensures var r := Search(pick, board, spaces, n, ws);
            && (r.ok <==> Fillable(board))
            && (r.ok ==> Fills(r.board, board))
            && (!r.ok ==> r.board == board)
    decreases n - ws, 10
  {
    if ws == n {
      assert forall k | IsCell(k) :: k !in spaces[ws..n];
      assert Fills(board, board);
    } else {
      var s := Picked(pick, board, spaces, n, ws);
      if pick { SwapReordered(spaces, n, ws, Scan(board, spaces, n, ws + 1, ws)); }
      assert Reordered(spaces, s, n, ws);
      ReorderedListsEmpty(board, spaces, s, n, ws);
      NextListsEmpty(board, s, n, ws, 1);
      GuessCorrect(pick, board, s, n, ws, s[ws], 1);
      var r := Guess(pick, board, s, n, ws, s[ws], 1);
      if !r.ok {
        forall g: seq<int> ensures !Fills(g, board) { assert !FillsFrom(g, board, s[ws], 1); }
      }
    }
  }

  /** g fills the board with a digit of at least guess in cell. */
  ghost predicate FillsFrom(g: seq<int>, board: seq<int>, cell: int, guess: int)
    requires |board| == 81 && IsCell(cell)
  {
    Fills(g, board) && g[cell] >= guess
  }

  lemma {:induction false} GuessCorrect(pick: bool, board: seq<int>, spaces: seq<int>, n: int, ws: int, cell: int, guess: int)
    requires ListsEmpty(board, spaces, n, ws) && ws < n && 1 <= guess <= 10 && cell == spaces[ws] && IsCell(cell)
    ensures var r := Guess(pick, board, spaces, n, ws, cell, guess);
            && (r.ok ==> Fills(r.board, board))
            && (!r.ok ==> r.board == board && forall g: seq<int> :: !FillsFrom(g, board, cell, guess))
    decreases n - ws, 10 - guess
  {
    hide Fills, Fillable, Fits, ListsEmpty, Reordered, FillsFrom, Search, Peers;
    ListsBounds(board, spaces, n, ws);
    if guess == 10 {
      NoDigitLeft(board, spaces, n, ws, cell);
    } else {
      NextListsEmpty(board, spaces, n, ws, guess);
      GuessStep(pick, board, spaces, n, ws, cell, guess);
      var b2 := board[cell := guess];
      if Fits(board, cell, guess) {
        var r := Search(pick, b2, spaces, n, ws + 1);
        SearchCorrect(pick, b2, spaces, n, ws + 1);
        if r.ok {
          FillsOneMore(r.board, board, cell, guess);
        } else {
          SearchReorders(pick, b2, spaces, n, ws + 1);
          ReorderedWiden(spaces, r.spaces, n, ws);
          ReorderedListsEmpty(board, spaces, r.spaces, n, ws);
          KeepsFirst(spaces, r.spaces, n, ws);
          GuessCorrect(pick, board, r.spaces, n, ws, cell, guess + 1);
          NotThisDigit(board, cell, guess);
        }
      } else {
        GuessCorrect(pick, board, spaces, n, ws, cell, guess + 1);
        NotThisDigit(board, cell, guess);
      }
    }
  }

  lemma ListsBounds(board: seq<int>, spaces: seq<int>, n: int, ws: int)
    requires ListsEmpty(board, spaces, n, ws)
    ensures |board| == 81 && 0 <= ws <= n <= |spaces|
  {
  }

  lemma NoDigitLeft(board: seq<int>, spaces: seq<int>, n: int, ws: int, cell: int)
    requires ListsEmpty(board, spaces, n, ws) && IsCell(cell)
    ensures forall g: seq<int> :: !FillsFrom(g, board, cell, 10)
  {
  }

  lemma KeepsFirst(s: seq<int>, t: seq<int>, n: int, ws: int)
    requires 0 <= ws < n <= |s| == |t| && Reordered(s, t, n, ws + 1)
    ensures t[ws] == s[ws]
  {
  }

  /** A digit that does not fit, or whose board cannot be filled, is in no filling. */
  lemma NotThisDigit(board: seq<int>, cell: int, guess: int)
    requires |board| == 81 && IsCell(cell) && board[cell] == 0 && 1 <= guess <= 9
    requires !Fits(board, cell, guess) || !Fillable(board[cell := guess])
    ensures forall g: seq<int> | FillsFrom(g, board, cell, guess) :: FillsFrom(g, board, cell, guess + 1)
  {
    forall g: seq<int> | FillsFrom(g, board, cell, guess) ensures FillsFrom(g, board, cell, guess + 1) {
      if g[cell] == guess {
        FillsOneMore(g, board, cell, guess);
      }
    }
  }

  // ----- which filling is found when the spaces are taken as they come ----------------------------

  ghost predicate AllCells(spaces: seq<int>, n: int)
    requires n <= |spaces|
  {
    forall t {:trigger spaces[t]} | 0 <= t < n :: 0 <= spaces[t] < 81
  }

  /** In the spaces from the ws-th on, taken in order, g is the same as h, or smaller where they first differ. */
  ghost predicate NotAfter(g: seq<int>, h: seq<int>, spaces: seq<int>, n: int, ws: int)
    requires |g| == |h| == 81 && 0 <= ws <= n <= |spaces| && AllCells(spaces, n)
    decreases n - ws
  {
    ws < n ==> g[spaces[ws]] < h[spaces[ws]] || (g[spaces[ws]] == h[spaces[ws]] && NotAfter(g, h, spaces, n, ws + 1))
  }

  lemma {:induction false} SearchStays(board: seq<int>, spaces: seq<int>, n: int, ws: int)
    requires |board| == 81 && 0 <= ws && n <= |spaces|
    ensures Search(false, board, spaces, n, ws).spaces == spaces
    decreases if ws < n then n - ws else 0, 10
  {
    if ws < n { GuessStays(board, spaces, n, ws, spaces[ws], 1); }
  }

  lemma {:induction false} GuessStays(board: seq<int>, spaces: seq<int>, n: int, ws: int, cell: int, guess: int)
    requires |board| == 81 && 0 <= ws < n <= |spaces| && 1 <= guess <= 10
    ensures Guess(false, board, spaces, n, ws, cell, guess).spaces == spaces
    decreases n - ws, 10 - guess
  {
    if guess <= 9 && IsCell(cell) {
      hide Search, Fits;
      if Fits(board, cell, guess) { SearchStays(board[cell := guess], spaces, n, ws + 1); }
      GuessStays(board, spaces, n, ws, cell, guess + 1);
    }
  }

  /** The search that takes the spaces as they come finds the least filling, reading the spaces in order. */
  lemma {:induction false} SearchLeast(board: seq<int>, spaces: seq<int>, n: int, ws: int, h: seq<int>)
    requires ListsEmpty(board, spaces, n, ws) && AllCells(spaces, n) && Fills(h, board)
    ensures Search(false, board, spaces, n, ws).ok && |h| == 81
    ensures NotAfter(Search(false, board, spaces, n, ws).board, h, spaces, n, ws)
    decreases n - ws, 10
  {
    hide Fills, Fits, ListsEmpty, Fillable;
    ListsBounds(board, spaces, n, ws);
    FillsBounds(h, board);
    SearchCorrect(false, board, spaces, n, ws);
    FillableBy(h, board);
    if ws < n {
      NextListsEmpty(board, spaces, n, ws, 1);
      DigitOf(h, board, spaces[ws]);
      GuessLeast(board, spaces, n, ws, spaces[ws], 1, h);
    }
  }

  lemma FillableBy(h: seq<int>, board: seq<int>)
    requires |board| == 81 && Fills(h, board)
    ensures Fillable(board)
  {
  }

  lemma FillsBounds(h: seq<int>, board: seq<int>)
    requires |board| == 81 && Fills(h, board)
    ensures |h| == 81
  {
  }

  lemma DigitOf(h: seq<int>, board: seq<int>, cell: int)
    requires |board| == 81 && Fills(h, board) && IsCell(cell)
    ensures |h| == 81 && 1 <= h[cell] <= 9
  {
  }

  lemma {:induction false} GuessLeast(board: seq<int>, spaces: seq<int>, n: int, ws: int, cell: int, guess: int, h: seq<int>)
    requires ListsEmpty(board, spaces, n, ws) && ws < n && AllCells(spaces, n) && cell == spaces[ws]
    requires Fills(h, board) && |h| == 81 && 1 <= guess <= h[cell] <= 9
    ensures Guess(false, board, spaces, n, ws, cell, guess).ok
    ensures NotAfter(Guess(false, board, spaces, n, ws, cell, guess).board, h, spaces, n, ws)
    decreases n - ws, 10 - guess
  {
    hide Fills, Fits, ListsEmpty, Fillable, Search, Guess, Peers;
    ListsBounds(board, spaces, n, ws);
    NextListsEmpty(board, spaces, n, ws, guess);
    GuessStep(false, board, spaces, n, ws, cell, guess);
    var b2 := board[cell := guess];
    SearchStays(b2, spaces, n, ws + 1);
    FillsOneMore(h, board, cell, guess);
    if h[cell] == guess {
      SearchLeast(b2, spaces, n, ws + 1, h);
    } else if !Fits(board, cell, guess) || !Search(false, b2, spaces, n, ws + 1).ok {
      GuessLeast(board, spaces, n, ws, cell, guess + 1, h);
    }
    SearchCorrect(false, b2, spaces, n, ws + 1);
    if Search(false, b2, spaces, n, ws + 1).ok { KeepsDigit(Search(false, b2, spaces, n, ws + 1).board, b2, cell); }
  }

  lemma KeepsDigit(g: seq<int>, board: seq<int>, cell: int)
    requires |board| == 81 && Fills(g, board) && IsCell(cell) && board[cell] != 0
    ensures |g| == 81 && g[cell] == board[cell]
  {
  }

  ghost predicate Ascending(spaces: seq<int>, n: int)
    requires n <= |spaces|
  {
    forall s, t | 0 <= s < t < n :: spaces[s] < spaces[t]
  }

  /**
    Taken as they come, in the order of the board, the spaces lead to the first
    filling in that order: where another one first differs from it, the other
    has the larger digit.
   */
  lemma FirstFilling(board: seq<int>, spaces: seq<int>, n: int, h: seq<int>)
    requires ListsEmpty(board, spaces, n, 0) && Ascending(spaces, n) && Fills(h, board)
    ensures var r := Search(false, board, spaces, n, 0);
            r.ok && |h| == 81 && forall k | IsCell(k) && (forall j | 0 <= j < k :: r.board[j] == h[j]) :: r.board[k] <= h[k]
  {
    assert AllCells(spaces, n) by { forall t | 0 <= t < n ensures 0 <= spaces[t] < 81 { SpaceEmpty(board, spaces, n, t); } }
    SearchLeast(board, spaces, n, 0, h);
    SearchCorrect(false, board, spaces, n, 0);
    var g := Search(false, board, spaces, n, 0).board;
    forall k | IsCell(k) && (forall j | 0 <= j < k :: g[j] == h[j]) ensures g[k] <= h[k] {
      if board[k] == 0 {
        assert k in spaces[0..n];
        var t :| 0 <= t < n && spaces[0..n][t] == k;
        assert spaces[t] == k;
        NotAfterAt(g, h, spaces, n, 0, t);
      }
    }
  }

  lemma SpaceEmpty(board: seq<int>, spaces: seq<int>, n: int, t: int)
    requires ListsEmpty(board, spaces, n, 0) && 0 <= t < n
    ensures IsCell(spaces[t]) && board[spaces[t]] == 0
  {
    assert spaces[0..n][t] == spaces[t];
  }

  lemma {:induction false} NotAfterAt(g: seq<int>, h: seq<int>, spaces: seq<int>, n: int, ws: int, t: int)
    requires |g| == |h| == 81 && 0 <= ws <= t < n <= |spaces| && AllCells(spaces, n) && Ascending(spaces, n)
    requires NotAfter(g, h, spaces, n, ws) && forall j | 0 <= j < spaces[t] :: g[j] == h[j]
    ensures 0 <= spaces[t] < 81 && g[spaces[t]] <= h[spaces[t]]
    decreases t - ws
  {
    if ws < t {
      assert spaces[ws] < spaces[t];
      NotAfterAt(g, h, spaces, n, ws + 1, t);
    }
  }

  // ----- what filling means when the givens agree -------------------------------------------------

  /** No two filled peers hold the same digit. */
  ghost predicate Consistent(p: seq<int>)
    requires |p| == 81
  {
    forall a, b | IsCell(a) && IsCell(b) && Peers(a, b) && p[a] != 0 :: p[a] != p[b]
  }

  /**
    A filled board is a solution if and only if the givens were consistent: the
    search compares new digits with all cells, but never givens with each other.
   */
  lemma FillsIsSolution(g: seq<int>, p: seq<int>)
    requires |p| == 81 && Fills(g, p)
    ensures IsSolution(g) <==> Consistent(p)
    ensures Consistent(p) ==> Completes(g, p)
  {
    if Consistent(p) {
      forall a, b | IsCell(a) && IsCell(b) && Peers(a, b) ensures g[a] != g[b] {
        if p[b] == 0 { assert Peers(b, a); }
      }
    }
    if IsSolution(g) {
      forall a, b | IsCell(a) && IsCell(b) && Peers(a, b) && p[a] != 0 ensures p[a] != p[b] {
        assert g[a] != g[b];
      }
    }
  }

  lemma CompletesFills(g: seq<int>, p: seq<int>)
    requires |p| == 81 && Completes(g, p)
    ensures Fills(g, p) && Consistent(p)
  {
    assert forall a, b | IsCell(a) && IsCell(b) && Peers(a, b) :: g[a] != g[b];
    FillsIsSolution(g, p);
  }

  /** For any puzzle: it can be completed if and only if it can be filled and its givens are consistent. */
  lemma CompletableExact(p: seq<int>)
    requires |p| == 81
    ensures Completable(p) <==> Fillable(p) && Consistent(p)
  {
    if Completable(p) {
      var g: seq<int> :| Completes(g, p);
      CompletesFills(g, p);
    }
    if Fillable(p) && Consistent(p) {
      var g: seq<int> :| Fills(g, p);
      FillsIsSolution(g, p);
    }
  }

  /** Givens are never compared: a board full of ones needs no filling, and is no solution. */
  lemma GivensUnchecked(pick: bool, spaces: seq<int>)
    ensures var ones := seq(81, _ => 1);
            IsPuzzle(ones) && Search(pick, ones, spaces, 0, 0) == Result(true, ones, spaces) && !Completable(ones)
  {
    var ones := seq(81, _ => 1);
    assert Peers(0, 1) && ones[0] == ones[1];
    assert !Consistent(ones);
    CompletableExact(ones);
  }
}
