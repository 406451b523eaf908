/**
  The cache of the third solver: for each cell and digit whether a neighbour
  holds the digit, and for each cell how many digits are still free. The table
  `occupied` is one block of 81 rows of 10 entries.
 */
module ArityCache {
  import opened Rings
  import opened SudokuGrid
  import opened Neighbors
  import opened Backtracking

  /** The cache says of every empty cell what the board says. */
  ghost predicate CacheFits(board: seq<int>, occupied: seq<bool>, arity: seq<int>) {
    && |board| == 81 && |occupied| == 810 && |arity| == 81
    && forall e | IsCell(e) && board[e] == 0 :: CellFits(board, occupied, arity, e)
  }

  ghost predicate CellFits(board: seq<int>, occupied: seq<bool>, arity: seq<int>, e: int)
    requires |board| == 81 && |occupied| == 810 && |arity| == 81 && IsCell(e)
  {
    && (forall v | 1 <= v <= 9 :: occupied[e * 10 + v] <==> !Fits(board, e, v))
    && arity[e] == |FreeDigits(board, e)|
  }

  /** occupied with the entries for guess of the cells in m set. */
  ghost function Marked(occupied: seq<bool>, m: set<int>, guess: int): (r: seq<bool>)
    ensures |r| == |occupied|
  {
    seq(|occupied|, k requires 0 <= k < |occupied| => occupied[k] || (k % 10 == guess && k / 10 in m))
  }

  /** arity with the entries of the cells in m one lower. */
  ghost function Lowered(arity: seq<int>, m: set<int>): (r: seq<int>)
    ensures |r| == |arity|
  {
    seq(|arity|, e requires 0 <= e < |arity| => arity[e] - (if e in m then 1 else 0))
  }

  lemma TenSplit(e: int, v: int)
    requires 0 <= v < 10
    ensures (e * 10 + v) / 10 == e && (e * 10 + v) % 10 == v
  {
  }

  lemma MarkedNone(occupied: seq<bool>, arity: seq<int>, guess: int)
    ensures Marked(occupied, {}, guess) == occupied && Lowered(arity, {}) == arity
  {
  }

  /** Marking one more cell. */
  lemma MarkOne(occupied: seq<bool>, arity: seq<int>, m: set<int>, guess: int, e: int)
    requires |occupied| == 810 && |arity| == 81 && IsCell(e) && 1 <= guess <= 9 && e !in m
    ensures Marked(occupied, m, guess)[e * 10 + guess] == occupied[e * 10 + guess]
    ensures Marked(occupied, m + {e}, guess) == Marked(occupied, m, guess)[e * 10 + guess := true]
    ensures Lowered(arity, m + {e}) == Lowered(arity, m)[e := Lowered(arity, m)[e] - 1]
  {
    TenSplit(e, guess);
    var a, b := Marked(occupied, m + {e}, guess), Marked(occupied, m, guess)[e * 10 + guess := true];
    forall k | 0 <= k < 810 ensures a[k] == b[k] {
      if k % 10 == guess && k / 10 == e { assert k == e * 10 + guess; }
    }
  }

  /** Unmarking a cell whose entry was free gives back the marking without it. */
  lemma UnmarkOne(occupied: seq<bool>, arity: seq<int>, m: set<int>, guess: int, e: int)
    requires |occupied| == 810 && |arity| == 81 && IsCell(e) && 1 <= guess <= 9 && e in m && !occupied[e * 10 + guess]
    ensures Marked(occupied, m, guess)[e * 10 + guess]
    ensures Marked(occupied, m - {e}, guess) == Marked(occupied, m, guess)[e * 10 + guess := false]
    ensures Lowered(arity, m - {e}) == Lowered(arity, m)[e := Lowered(arity, m)[e] + 1]
  {
    assert (m - {e}) + {e} == m;
    MarkOne(occupied, arity, m - {e}, guess, e);
    var x := Marked(occupied, m - {e}, guess);
    assert x[e * 10 + guess := true][e * 10 + guess := false] == x;
    var y := Lowered(arity, m - {e});
    assert y[e := y[e] - 1][e := y[e]] == y;
  }

  /** The cell that holds the guess is not a neighbour of itself, so its own entry does not mix with the marks. */
  lemma OwnEntry(occupied: seq<bool>, m: set<int>, guess: int, cell: int)
    requires |occupied| == 810 && IsCell(cell) && 1 <= guess <= 9 && cell !in m && !occupied[cell * 10 + guess]
    ensures Marked(occupied[cell * 10 + guess := true], m, guess)[cell * 10 + guess := false] == Marked(occupied, m, guess)
  {
    TenSplit(cell, guess);
    var a := Marked(occupied[cell * 10 + guess := true], m, guess)[cell * 10 + guess := false];
    var b := Marked(occupied, m, guess);
    forall k | 0 <= k < 810 ensures a[k] == b[k] {
      if k % 10 == guess && k / 10 == cell { assert k == cell * 10 + guess; }
    }
  }

  /** The peers of cell whose entry for guess is still free. */
  ghost predicate NewlyHit(occupied: seq<bool>, cell: int, guess: int, m: set<int>)
    requires |occupied| == 810 && 1 <= guess <= 9
  {
    forall e :: e in m <==> IsCell(e) && Peers(cell, e) && !occupied[e * 10 + guess]
  }

  lemma NewlyHitFree(occupied: seq<bool>, cell: int, guess: int, m: set<int>)
    requires |occupied| == 810 && IsCell(cell) && 1 <= guess <= 9
    requires NewlyHit(occupied[cell * 10 + guess := true], cell, guess, m)
    ensures cell !in m && forall e | e in m :: IsCell(e) && !occupied[e * 10 + guess]
  {
  }

  lemma FitsAfter(board: seq<int>, cell: int, guess: int, e: int, v: int)
    requires |board| == 81 && IsCell(cell) && board[cell] == 0 && IsCell(e) && e != cell && 1 <= guess <= 9 && 1 <= v <= 9
    ensures Fits(board[cell := guess], e, v) <==> Fits(board, e, v) && !(Peers(cell, e) && v == guess)
  {
    var b2 := board[cell := guess];
    if Fits(board, e, v) && !(Peers(cell, e) && v == guess) {
      forall b | IsCell(b) && Peers(e, b) ensures b2[b] != v { assert board[b] != v; }
    }
    if Fits(b2, e, v) {
      forall b | IsCell(b) && Peers(e, b) ensures board[b] != v { assert b2[b] != v; }
      if Peers(cell, e) { assert Peers(e, cell) && b2[cell] != v; }
    }
  }

  /** Holding a guess and marking what it newly hits keeps the cache right. */
  lemma HoldKeepsCache(board: seq<int>, occupied: seq<bool>, arity: seq<int>, cell: int, guess: int, m: set<int>)
    requires CacheFits(board, occupied, arity) && IsCell(cell) && board[cell] == 0 && 1 <= guess <= 9
    requires NewlyHit(occupied[cell * 10 + guess := true], cell, guess, m)
    ensures CacheFits(board[cell := guess], Marked(occupied[cell * 10 + guess := true], m, guess), Lowered(arity, m))
  {
    var b2, o2, a2 := board[cell := guess], Marked(occupied[cell * 10 + guess := true], m, guess), Lowered(arity, m);
    forall e | IsCell(e) && b2[e] == 0 ensures CellFits(b2, o2, a2, e) {
      assert CellFits(board, occupied, arity, e);
      HoldKeepsCell(board, occupied, arity, cell, guess, m, e);
    }
  }

  lemma HoldKeepsCell(board: seq<int>, occupied: seq<bool>, arity: seq<int>, cell: int, guess: int, m: set<int>, e: int)
    requires |board| == 81 && |occupied| == 810 && |arity| == 81
    requires IsCell(cell) && board[cell] == 0 && 1 <= guess <= 9 && IsCell(e) && e != cell
    requires CellFits(board, occupied, arity, e)
    requires NewlyHit(occupied[cell * 10 + guess := true], cell, guess, m)
    ensures CellFits(board[cell := guess], Marked(occupied[cell * 10 + guess := true], m, guess), Lowered(arity, m), e)
  {
    hide Fits, Peers;
    var b2, o1 := board[cell := guess], occupied[cell * 10 + guess := true];
    var o2 := Marked(o1, m, guess);
    forall v | 1 <= v <= 9 ensures o2[e * 10 + v] <==> !Fits(b2, e, v) {
      TenSplit(e, v);
      FitsAfter(board, cell, guess, e, v);
    }
    var f, f2 := FreeDigits(board, e), FreeDigits(b2, e);
    forall v | 1 <= v <= 9 ensures v in f2 <==> v in f && !(e in m && v == guess) {
      FitsAfter(board, cell, guess, e, v);
    }
    if e in m {
      assert guess in f;
      assert f2 == f - {guess};
    } else {
      assert f2 == f;
    }
  }

  // ----- the walk over the neighbours ---------------------------------------------------------

  /** The cells met so far whose entry for guess was free. */
  ghost predicate MetFree(occupied: seq<bool>, met: seq<int>, guess: int, m: set<int>)
    requires |occupied| == 810 && 1 <= guess <= 9
  {
    forall e :: e in m <==> e in met && IsCell(e) && !occupied[e * 10 + guess]
  }

  lemma NothingMet(occupied: seq<bool>, guess: int)
    requires |occupied| == 810 && 1 <= guess <= 9
    ensures MetFree(occupied, [], guess, {})
  {
  }

  /** The entry of a neighbour not met before is as it was, so it is marked now if and only if it was free. */
  lemma MeetOne(occupied: seq<bool>, met: seq<int>, guess: int, m: set<int>, e: int)
    requires |occupied| == 810 && 1 <= guess <= 9 && MetFree(occupied, met, guess, m) && IsCell(e) && e !in met
    ensures e !in m && Marked(occupied, m, guess)[e * 10 + guess] == occupied[e * 10 + guess]
    ensures MetFree(occupied, met + [e], guess, if occupied[e * 10 + guess] then m else m + {e})
  {
    TenSplit(e, guess);
  }

  /** All neighbours met. */
  lemma AllMet(occupied: seq<bool>, cell: int, guess: int, m: set<int>)
    requires |occupied| == 810 && 1 <= guess <= 9 && MetFree(occupied, PeersBelow(cell, 81), guess, m)
    ensures NewlyHit(occupied, cell, guess, m)
  {
    PeersBelowMembers(cell, 81);
  }

  lemma PeerNotMet(cell: int, i: nat)
    requires i < |PeersBelow(cell, 81)|
    ensures PeersBelow(cell, 81)[i] !in PeersBelow(cell, 81)[..i]
    ensures PeersBelow(cell, 81)[..i + 1] == PeersBelow(cell, 81)[..i] + [PeersBelow(cell, 81)[i]]
  {
    PeersBelowMembers(cell, 81);
  }

  /** s lists the cells of m, each once. */
  ghost predicate Lists(s: seq<int>, m: set<int>) {
    Distinct(s) && forall e :: e in m <==> e in s
  }

  lemma ListsOneMore(s: seq<int>, m: set<int>, e: int)
    requires Lists(s, m) && e !in m
    ensures Lists(s + [e], m + {e})
  {
    var t := s + [e];
    forall i, j | 0 <= i < j < |t| ensures t[i] != t[j] {
      assert t[i] in s;
    }
  }

  lemma ListsNone(m: set<int>)
    requires Lists([], m)
    ensures m == {}
  {
    assert forall e :: e in m <==> e in [];
  }

  lemma ListsRest(s: seq<int>, m: set<int>)
    requires Lists(s, m) && |s| > 0
    ensures s[0] in m && Lists(s[1..], m - {s[0]})
  {
    assert s == [s[0]] + s[1..];
    TailDistinct(s[0], s[1..]);
  }

  // ----- building the cache -------------------------------------------------------------------

  /** The board with only the cells below c. */
  ghost function Below(board: seq<int>, c: int): (b: seq<int>)
    ensures |b| == |board|
  {
    seq(|board|, k requires 0 <= k < |board| => if k < c then board[k] else 0)
  }

  /** The cache says of the empty cells what the cells below c say. */
  ghost predicate CacheBelow(board: seq<int>, occupied: seq<bool>, arity: seq<int>, c: int) {
    && |board| == 81 && |occupied| == 810 && |arity| == 81
    && forall e | IsCell(e) && board[e] == 0 :: CellFits(Below(board, c), occupied, arity, e)
  }

  lemma NoneBelow(board: seq<int>, occupied: seq<bool>, arity: seq<int>)
    requires |board| == 81 && |occupied| == 810 && |arity| == 81
    requires (forall k | 0 <= k < 810 :: !occupied[k]) && forall e | IsCell(e) :: arity[e] == 9
    ensures CacheBelow(board, occupied, arity, 0)
  {
    hide FreeDigits, Fits;
    forall e | IsCell(e) ensures CellFits(Below(board, 0), occupied, arity, e) {
      AllFree(Below(board, 0), e);
    }
  }

  lemma AllFree(board: seq<int>, e: int)
    requires |board| == 81 && IsCell(e) && forall k | 0 <= k < 81 :: board[k] == 0
    ensures forall v | 1 <= v <= 9 :: Fits(board, e, v)
    ensures |FreeDigits(board, e)| == 9
  {
    hide Peers;
    assert FreeDigits(board, e) == Range(9);
  }

  lemma AllBelow(board: seq<int>, occupied: seq<bool>, arity: seq<int>)
    requires CacheBelow(board, occupied, arity, 81)
    ensures CacheFits(board, occupied, arity)
  {
    assert Below(board, 81) == board;
  }

  /** An entry for 0 says nothing about a digit. */
  lemma ZeroEntry(board: seq<int>, occupied: seq<bool>, arity: seq<int>, c: int)
    requires CacheBelow(board, occupied, arity, c) && IsCell(c)
    ensures CacheBelow(board, occupied[c * 10 := true], arity, c)
  {
    forall e | IsCell(e) && board[e] == 0 ensures CellFits(Below(board, c), occupied[c * 10 := true], arity, e) {
      assert CellFits(Below(board, c), occupied, arity, e);
      forall v | 1 <= v <= 9 ensures occupied[c * 10 := true][e * 10 + v] <==> !Fits(Below(board, c), e, v) {
        TenSplit(e, v);
        TenSplit(c, 0);
      }
    }
  }

  lemma EmptyBelow(board: seq<int>, occupied: seq<bool>, arity: seq<int>, c: int)
    requires CacheBelow(board, occupied, arity, c) && IsCell(c) && board[c] == 0
    ensures CacheBelow(board, occupied, arity, c + 1)
  {
    assert Below(board, c + 1) == Below(board, c);
  }

  lemma FilledBelow(board: seq<int>, occupied: seq<bool>, arity: seq<int>, c: int, m: set<int>)
    requires CacheBelow(board, occupied, arity, c) && IsCell(c) && 1 <= board[c] <= 9
    requires NewlyHit(occupied[c * 10 + board[c] := true], c, board[c], m)
    ensures CacheBelow(board, Marked(occupied[c * 10 + board[c] := true], m, board[c]), Lowered(arity, m), c + 1)
  {
    assert Below(board, c + 1) == Below(board, c)[c := board[c]];
    forall e | IsCell(e) && board[e] == 0
      ensures CellFits(Below(board, c + 1), Marked(occupied[c * 10 + board[c] := true], m, board[c]), Lowered(arity, m), e)
    {
      HoldKeepsCell(Below(board, c), occupied, arity, c, board[c], m, e);
    }
  }
}
