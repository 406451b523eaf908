/** The table of neighbours of each cell, and the check of a finished board. */
module Neighbors {
  import opened SudokuGrid

  /** The peers of cell among the cells below k, in order. */
  ghost function PeersBelow(cell: int, k: nat): (s: seq<int>)
  {
    if k == 0 then [] else PeersBelow(cell, k - 1) + (if Peers(cell, k - 1) then [k - 1] else [])
  }

  lemma {:induction false} PeersBelowMembers(cell: int, k: nat)
    ensures forall b :: b in PeersBelow(cell, k) <==> 0 <= b < k && Peers(cell, b)
    ensures forall i, j | 0 <= i < j < |PeersBelow(cell, k)| :: PeersBelow(cell, k)[i] < PeersBelow(cell, k)[j]
  {
    if k > 0 {
      PeersBelowMembers(cell, k - 1);
      var s := PeersBelow(cell, k - 1);
      forall i | 0 <= i < |s| ensures s[i] < k - 1 { assert s[i] in s; }
    }
  }

  lemma {:induction false} PeersBelowPrefix(cell: int, j: nat, k: nat)
    requires j <= k
    ensures PeersBelow(cell, j) <= PeersBelow(cell, k)
  {
    if j < k { PeersBelowPrefix(cell, j, k - 1); }
  }

  // ----- there are twenty of them ---------------------------------------------------------

  function One(b: bool): nat { if b then 1 else 0 }

  /** How many peers of cell there are in the first x places of row y. */
  ghost function PeersInRow(cell: int, y: int, x: nat): nat {
    if x == 0 then 0 else PeersInRow(cell, y, x - 1) + One(Peers(cell, y * 9 + (x - 1)))
  }

  lemma PeerAt(cell: int, y: int, x: int)
    requires IsCell(cell) && 0 <= y < 9 && 0 <= x < 9
    ensures Peers(cell, y * 9 + x) <==>
              !(y == RowOf(cell) && x == ColOf(cell)) &&
              (y == RowOf(cell) || x == ColOf(cell) || (y / 3 == RowOf(cell) / 3 && x / 3 == ColOf(cell) / 3))
  {
    NineSplit(y, x);
    var r, c := RowOf(cell), ColOf(cell);
    assert cell == r * 9 + c;
    ThreeSplit(y / 3, x / 3);
    ThreeSplit(r / 3, c / 3);
    assert BoxOf(y * 9 + x) == y / 3 * 3 + x / 3 && BoxOf(cell) == r / 3 * 3 + c / 3;
  }

  /** Eight in the cell's own row, three in the other rows of its band, one elsewhere. */
  lemma RowCount(cell: int, y: int)
    requires IsCell(cell) && 0 <= y < 9
    ensures PeersInRow(cell, y, 9) ==
            if y == RowOf(cell) then 8 else if y / 3 == RowOf(cell) / 3 then 3 else 1
  {
    var c := ColOf(cell);
    RowCountUpTo(cell, y, 9);
  }

  function Expected(r: int, c: int, y: int, x: int): int {
    if y == r then x - One(c < x)
    else if y / 3 == r / 3 then
      (if x <= c / 3 * 3 then 0 else if x <= c / 3 * 3 + 3 then x - c / 3 * 3 else 3)
    else One(c < x)
  }

  lemma {:induction false} RowCountUpTo(cell: int, y: int, x: nat)
    requires IsCell(cell) && 0 <= y < 9 && x <= 9
    ensures PeersInRow(cell, y, x) == Expected(RowOf(cell), ColOf(cell), y, x)
  {
    if x > 0 {
      RowCountUpTo(cell, y, x - 1);
      PeerAt(cell, y, x - 1);
      ExpectedStep(RowOf(cell), ColOf(cell), y, x - 1);
    }
  }

  lemma ExpectedStep(r: int, c: int, y: int, x: int)
    requires 0 <= r < 9 && 0 <= c < 9 && 0 <= y < 9 && 0 <= x < 9
    ensures Expected(r, c, y, x + 1) ==
            Expected(r, c, y, x) +
            One(!(y == r && x == c) && (y == r || x == c || (y / 3 == r / 3 && x / 3 == c / 3)))
  {
  }

  lemma {:induction false} RowsConcat(cell: int, y: nat, x: nat)
    requires x <= 9
    ensures |PeersBelow(cell, y * 9 + x)| == |PeersBelow(cell, y * 9)| + PeersInRow(cell, y, x)
  {
    if x > 0 { RowsConcat(cell, y, x - 1); }
  }

  function RowsTotal(r: int, y: nat): nat {
    if y == 0 then 0
    else RowsTotal(r, y - 1) + (if y - 1 == r then 8 else if (y - 1) / 3 == r / 3 then 3 else 1)
  }

  lemma {:induction false} RowsCount(cell: int, y: nat)
    requires IsCell(cell) && y <= 9
    ensures |PeersBelow(cell, y * 9)| == RowsTotal(RowOf(cell), y)
  {
    if y > 0 {
      RowsCount(cell, y - 1);
      RowsConcat(cell, y - 1, 9);
      RowCount(cell, y - 1);
      assert (y - 1) * 9 + 9 == y * 9;
    }
  }

  /** Every cell has exactly twenty peers. */
  lemma TwentyPeers(cell: int)
    requires IsCell(cell)
    ensures |PeersBelow(cell, 81)| == 20
  {
    RowsCount(cell, 9);
    var r := RowOf(cell);
    assert RowsTotal(r, 3) == (if r / 3 == 0 then 14 else 3);
    assert RowsTotal(r, 6) == RowsTotal(r, 3) + (if r / 3 == 1 then 14 else 3);
    assert RowsTotal(r, 9) == RowsTotal(r, 6) + (if r / 3 == 2 then 14 else 3);
  }

  // ----- filling the table ------------------------------------------------------------------

  /** Place (y, x) shares a row, a column or a box with (row, col). */
  predicate Near(row: int, col: int, y: int, x: int) {
    y == row || x == col || (y / 3 == row / 3 && x / 3 == col / 3)
  }

  method MarkAdjacent(adjacent: array2<bool>, row: int, col: int)
    requires adjacent.Length0 == adjacent.Length1 == 9 && 0 <= row < 9 && 0 <= col < 9
    requires forall y, x | 0 <= y < 9 && 0 <= x < 9 :: !adjacent[y, x]
    modifies adjacent
    ensures forall y, x | 0 <= y < 9 && 0 <= x < 9 :: adjacent[y, x] <==> Near(row, col, y, x)
  {
    var i := 0;
    while i < 9
      invariant 0 <= i <= 9
      invariant forall y, x | 0 <= y < 9 && 0 <= x < 9 :: adjacent[y, x] <==> (y == row && x < i) || (x == col && y < i)
    {
      adjacent[row, i] := true;
      adjacent[i, col] := true;
      i := i + 1;
    }
    var top := row / 3 * 3;
    var left := col / 3 * 3;
    adjacent[top, left] := true;
    adjacent[top, left + 1] := true;
    adjacent[top, left + 2] := true;
    adjacent[top + 1, left] := true;
    adjacent[top + 1, left + 1] := true;
    adjacent[top + 1, left + 2] := true;
    adjacent[top + 2, left] := true;
    adjacent[top + 2, left + 1] := true;
    adjacent[top + 2, left + 2] := true;
    forall y, x | 0 <= y < 9 && 0 <= x < 9
      ensures adjacent[y, x] <==> Near(row, col, y, x)
    {
      InBlock(row, y);
      InBlock(col, x);
    }
  }

  lemma InBlock(a: int, b: int)
    requires 0 <= a < 9 && 0 <= b < 9
    ensures b / 3 == a / 3 <==> (b == a / 3 * 3 || b == a / 3 * 3 + 1 || b == a / 3 * 3 + 2)
  {
  }

  /** The neighbours of a cell: twenty entries of the table, starting at its own place. */
  ghost predicate ListsPeers(neighbors: seq<int>, cell: int) {
    |neighbors| == 1620 && IsCell(cell) && neighbors[cell * 20..cell * 20 + 20] == PeersBelow(cell, 81)
  }

  lemma NoPeersYet(cell: int)
    ensures PeersBelow(cell, 0) == []
  {
  }

  /** The step of the scan at place (y, x); the list never grows past twenty. */
  lemma NextPeer(row: int, col: int, y: int, x: int)
    requires 0 <= row < 9 && 0 <= col < 9 && 0 <= y < 9 && 0 <= x < 9
    ensures var me, k := row * 9 + col, y * 9 + x; var peer := Near(row, col, y, x) && !(y == row && x == col);
            && PeersBelow(me, k + 1) == PeersBelow(me, k) + (if peer then [k] else [])
            && (peer ==> |PeersBelow(me, k)| < 20)
  {
    hide Peers, BoxOf;
    var me, k := row * 9 + col, y * 9 + x;
    NineSplit(row, col);
    PeerAt(me, y, x);
    PeersBelowPrefix(me, k + 1, 81);
    TwentyPeers(me);
  }

  /** The first n entries for cell are its neighbours among the places before upto; the other cells' entries are as in before. */
  ghost predicate Collected(table: seq<int>, before: seq<int>, cell: int, n: int, upto: nat) {
    && |table| == |before| == 1620 && IsCell(cell) && 0 <= n <= 20 && upto <= 81
    && table[cell * 20..cell * 20 + n] == PeersBelow(cell, upto)
    && forall k | 0 <= k < 1620 && !(cell * 20 <= k < cell * 20 + 20) :: table[k] == before[k]
  }

  lemma NoneCollected(table: seq<int>, cell: int)
    requires |table| == 1620 && IsCell(cell)
    ensures Collected(table, table, cell, 0, 0)
  {
    NoPeersYet(cell);
  }

  lemma CollectOne(table: seq<int>, before: seq<int>, cell: int, n: int, k: nat)
    requires Collected(table, before, cell, n, k) && k < 81 && |PeersBelow(cell, k)| < 20
    requires PeersBelow(cell, k + 1) == PeersBelow(cell, k) + [k]
    ensures 0 <= n < 20 && 0 <= cell * 20 && cell * 20 + n < |table| && Collected(table[cell * 20 + n := k], before, cell, n + 1, k + 1)
  {
    var next := table[cell * 20 + n := k];
    assert next[cell * 20..cell * 20 + n + 1] == table[cell * 20..cell * 20 + n] + [k];
  }

  lemma CollectNone(table: seq<int>, before: seq<int>, cell: int, n: int, k: nat)
    requires Collected(table, before, cell, n, k) && k < 81 && PeersBelow(cell, k + 1) == PeersBelow(cell, k)
    ensures Collected(table, before, cell, n, k + 1)
  {
  }

  lemma CollectedAll(table: seq<int>, before: seq<int>, cell: int, n: int)
    requires Collected(table, before, cell, n, 81)
    ensures ListsPeers(table, cell)
    ensures forall k | 0 <= k < 1620 && !(cell * 20 <= k < cell * 20 + 20) :: table[k] == before[k]
  {
    TwentyPeers(cell);
  }

  method CollectNeighbors(adjacent: array2<bool>, row: int, col: int, neighbors: array<int>)
    requires adjacent.Length0 == adjacent.Length1 == 9 && 0 <= row < 9 && 0 <= col < 9 && neighbors.Length == 1620
    requires forall y, x | 0 <= y < 9 && 0 <= x < 9 :: adjacent[y, x] <==> Near(row, col, y, x)
    modifies neighbors
    ensures ListsPeers(neighbors[..], row * 9 + col)
    ensures forall k | 0 <= k < 1620 && !((row * 9 + col) * 20 <= k < (row * 9 + col) * 20 + 20) :: neighbors[k] == old(neighbors[k])
  {
    hide PeersBelow, Near, Collected, ListsPeers;
    ghost var me, before := row * 9 + col, neighbors[..];
    NoneCollected(before, me);
    var n := 0;
    var y := 0;
    while y < 9
      invariant 0 <= y <= 9 && Collected(neighbors[..], before, me, n, y * 9)
    {
      var x := 0;
      while x < 9
        invariant 0 <= x <= 9 && Collected(neighbors[..], before, me, n, y * 9 + x)
      {
        NextPeer(row, col, y, x);
        if adjacent[y, x] && !(y == row && x == col) {
          CollectOne(neighbors[..], before, me, n, y * 9 + x);
          ghost var table := neighbors[..];
          neighbors[(row * 9 + col) * 20 + n] := y * 9 + x;
          assert neighbors[..] == table[me * 20 + n := y * 9 + x];
          n := n + 1;
        } else {
          CollectNone(neighbors[..], before, me, n, y * 9 + x);
        }
        x := x + 1;
      }
      assert y * 9 + 9 == (y + 1) * 9;
      y := y + 1;
    }
    CollectedAll(neighbors[..], before, me, n);
    assert forall k | 0 <= k < 1620 :: neighbors[k] == neighbors[..][k] && old(neighbors[k]) == before[k];
  }

  method InitNeighbors(neighbors: array<int>)
    requires neighbors.Length == 1620
    modifies neighbors
    ensures forall cell | IsCell(cell) :: ListsPeers(neighbors[..], cell)
  {
    var row := 0;
    while row < 9
      invariant 0 <= row <= 9
      invariant forall cell | 0 <= cell < row * 9 :: ListsPeers(neighbors[..], cell)
    {
      var col := 0;
      while col < 9
        invariant 0 <= col <= 9
        invariant forall cell | 0 <= cell < row * 9 + col :: ListsPeers(neighbors[..], cell)
      {
        var adjacent := new bool[9, 9]((_, _) => false);
        MarkAdjacent(adjacent, row, col);
        ghost var before := neighbors[..];
        CollectNeighbors(adjacent, row, col, neighbors);
        forall cell | 0 <= cell < row * 9 + col + 1 ensures ListsPeers(neighbors[..], cell) {
          if cell < row * 9 + col {
            assert ListsPeers(before, cell);
            assert neighbors[..][cell * 20..cell * 20 + 20] == before[cell * 20..cell * 20 + 20];
          }
        }
        col := col + 1;
      }
      row := row + 1;
    }
  }

  // ----- checking a finished board ------------------------------------------------------------

  function Times(s: seq<int>, v: int): nat {
    if s == [] then 0 else Times(s[..|s| - 1], v) + One(s[|s| - 1] == v)
  }

  lemma {:induction false} TimesIn(s: seq<int>, v: int)
    ensures Times(s, v) > 0 <==> v in s
  {
    if s != [] {
      assert s == s[..|s| - 1] + [s[|s| - 1]];
      TimesIn(s[..|s| - 1], v);
    }
  }

  ghost predicate AllDifferent(s: seq<int>) {
    forall i, j | 0 <= i < j < |s| :: s[i] != s[j]
  }

  /** No value stands in s twice exactly when each value stands there at most once. */
  lemma {:induction false} TimesOnce(s: seq<int>)
    ensures AllDifferent(s) <==> (forall v | v in s :: Times(s, v) == 1)
  {
    if s != [] {
      var t, y := s[..|s| - 1], s[|s| - 1];
      assert s == t + [y];
      TimesOnce(t);
      TimesIn(t, y);
      forall v | v in t ensures Times(t, v) > 0 { TimesIn(t, v); }
      if forall v | v in s :: Times(s, v) == 1 {
        forall v | v in t ensures Times(t, v) == 1 { assert v in s; }
        assert y in s;
      }
      if y in t { assert Times(s, y) >= 2; assert y in s; }
      if AllDifferent(s) {
        forall v | v in s ensures Times(s, v) == 1 {
          if v != y { assert v in t; }
        }
      }
    }
  }

  function Ones(occurs: seq<int>): nat {
    if occurs == [] then 0 else Ones(occurs[..|occurs| - 1]) + One(occurs[|occurs| - 1] == 1)
  }

  lemma {:induction false} OnesBound(occurs: seq<int>)
    ensures Ones(occurs) <= |occurs|
    ensures Ones(occurs) == |occurs| <==> forall k | 0 <= k < |occurs| :: occurs[k] == 1
  {
    if occurs != [] { OnesBound(occurs[..|occurs| - 1]); }
  }

  lemma {:induction false} OnesFirst(occurs: seq<int>)
    requires occurs != [] && occurs[0] != 1
    ensures Ones(occurs) == Ones(occurs[1..])
  {
    if |occurs| > 1 {
      var i := occurs[..|occurs| - 1];
      OnesFirst(i);
      assert occurs[1..][..|occurs[1..]| - 1] == i[1..];
    } else {
      assert occurs[..0] == [] && occurs[1..] == [];
    }
  }

  /** Nine digits fill all of the counters 1..9 once exactly when they are nine different digits. */
  lemma NineOnes(s: seq<int>, occurs: seq<int>)
    requires |s| == 9 && forall i | 0 <= i < 9 :: 1 <= s[i] <= 9
    requires Counts(occurs, s)
    ensures Ones(occurs) == 9 <==> AllDifferent(s)
  {
    TimesIn(s, 0);
    OnesFirst(occurs);
    OnesBound(occurs[1..]);
    TimesOnce(s);
    if AllDifferent(s) {
      forall k | 0 <= k < 9 ensures occurs[1..][k] == 1 { Pigeonhole(s, k + 1); }
    }
    if Ones(occurs) == 9 {
      forall v | v in s ensures Times(s, v) == 1 { assert occurs[1..][v - 1] == 1; }
    }
  }

  method CountOnes(occurs: array<int>) returns (n: int)
    ensures n == Ones(occurs[..])
  {
    n := 0;
    var k := 0;
    while k < occurs.Length
      invariant 0 <= k <= occurs.Length && n == Ones(occurs[..k])
    {
      assert occurs[..k + 1][..k] == occurs[..k];
      if occurs[k] == 1 { n := n + 1; }
      k := k + 1;
    }
    assert occurs[..k] == occurs[..];
  }

  /** The digits of unit n, place after place. */
  ghost function UnitDigits(g: seq<int>, u: Unit, n: int, upto: nat): seq<int>
    requires |g| == 81 && 0 <= n < 9 && upto <= 9
  {
    if upto == 0 then []
    else
      UnitCellOk(u, n, upto - 1);
      UnitDigits(g, u, n, upto - 1) + [g[UnitCell(u, n, upto - 1)]]
  }

  lemma {:induction false} UnitDigitsAt(g: seq<int>, u: Unit, n: int, upto: nat)
    requires |g| == 81 && 0 <= n < 9 && upto <= 9
    ensures |UnitDigits(g, u, n, upto)| == upto
    ensures forall t | 0 <= t < upto :: IsCell(UnitCell(u, n, t)) && UnitDigits(g, u, n, upto)[t] == g[UnitCell(u, n, t)]
  {
    if upto > 0 {
      UnitDigitsAt(g, u, n, upto - 1);
      UnitCellOk(u, n, upto - 1);
    }
  }

  /** No digit twice in unit n. */
  ghost predicate UnitOnce(g: seq<int>, u: Unit, n: int)
    requires |g| == 81
  {
    forall a, b | IsCell(a) && IsCell(b) && a != b && UnitOf(u, a) == n && UnitOf(u, b) == n :: g[a] != g[b]
  }

  lemma UnitOnceDigits(g: seq<int>, u: Unit, n: int)
    requires |g| == 81 && 0 <= n < 9
    ensures |UnitDigits(g, u, n, 9)| == 9
    ensures UnitOnce(g, u, n) <==> AllDifferent(UnitDigits(g, u, n, 9))
  {
    hide RowOf, ColOf, BoxOf, UnitDigits;
    var d := UnitDigits(g, u, n, 9);
    UnitDigitsAt(g, u, n, 9);
    if UnitOnce(g, u, n) {
      forall s, t | 0 <= s < t < 9 ensures d[s] != d[t] {
        UnitCellOk(u, n, s);
        UnitCellOk(u, n, t);
      }
    }
    if AllDifferent(d) {
      forall a, b | IsCell(a) && IsCell(b) && a != b && UnitOf(u, a) == n && UnitOf(u, b) == n ensures g[a] != g[b] {
        CellInUnit(u, a);
        CellInUnit(u, b);
        var s, t := PlaceIn(u, a), PlaceIn(u, b);
        assert d[s] == g[a] && d[t] == g[b];
        assert if s < t then d[s] != d[t] else d[t] != d[s];
      }
    }
  }

  /** How often each value stands in s. */
  ghost predicate Counts(occurs: seq<int>, s: seq<int>) {
    |occurs| == 10 && forall v | 0 <= v < 10 :: occurs[v] == Times(s, v)
  }

  lemma NoCounts(occurs: seq<int>)
    requires |occurs| == 10 && forall v | 0 <= v < 10 :: occurs[v] == 0
    ensures Counts(occurs, [])
  {
  }

  lemma CountsNext(occurs: seq<int>, s: seq<int>, d: int)
    requires Counts(occurs, s) && 0 <= d < 10
    ensures Counts(occurs[d := occurs[d] + 1], s + [d])
  {
    assert (s + [d])[..|s|] == s;
  }

  /** Count the digits of one unit, and see whether each occurs once. */
  method CheckUnit(board: array<int>, u: Unit, n: int) returns (ok: bool)
    requires board.Length == 81 && 0 <= n < 9
    requires forall k | IsCell(k) :: 1 <= board[k] <= 9
    ensures ok <==> UnitOnce(board[..], u, n)
  {
    hide UnitCell, Times, Ones, UnitOnce, Counts;
    var occurs := new int[10](_ => 0);
    ghost var g := board[..];
    NoCounts(occurs[..]);
    var t := 0;
    while t < 9
      invariant 0 <= t <= 9 && board[..] == g && Counts(occurs[..], UnitDigits(g, u, n, t))
    {
      UnitCellOk(u, n, t);
      var val := board[UnitCell(u, n, t)];
      CountsNext(occurs[..], UnitDigits(g, u, n, t), val);
      ghost var before := occurs[..];
      occurs[val] := occurs[val] + 1;
      assert occurs[..] == before[val := before[val] + 1];
      t := t + 1;
    }
    UnitDigitsAt(g, u, n, 9);
    UnitOnceDigits(g, u, n);
    NineOnes(UnitDigits(g, u, n, 9), occurs[..]);
    var ones := CountOnes(occurs);
    return ones == 9;
  }

  /** The check of the driver: all rows, then all columns, then all boxes. */
  method Solved(board: array<int>) returns (ok: bool)
    requires board.Length == 81
    requires forall k | IsCell(k) :: 1 <= board[k] <= 9
    ensures ok <==> IsSolution(board[..])
  {
    ok := CheckAll(board, Row);
    if !ok { Twice(board[..], Row); return; }
    ok := CheckAll(board, Col);
    if !ok { Twice(board[..], Col); return; }
    ok := CheckAll(board, Box);
    if !ok { Twice(board[..], Box); return; }
    AllOnce(board[..]);
  }

  method CheckAll(board: array<int>, u: Unit) returns (ok: bool)
    requires board.Length == 81
    requires forall k | IsCell(k) :: 1 <= board[k] <= 9
    ensures ok <==> forall n | 0 <= n < 9 :: UnitOnce(board[..], u, n)
  {
    var n := 0;
    while n < 9
      invariant 0 <= n <= 9 && forall m | 0 <= m < n :: UnitOnce(board[..], u, m)
    {
      ok := CheckUnit(board, u, n);
      if !ok { return; }
      n := n + 1;
    }
    return true;
  }

  lemma Twice(g: seq<int>, u: Unit)
    requires |g| == 81 && !forall n | 0 <= n < 9 :: UnitOnce(g, u, n)
    ensures !IsSolution(g)
  {
    var n :| 0 <= n < 9 && !UnitOnce(g, u, n);
    var a, b :| IsCell(a) && IsCell(b) && a != b && UnitOf(u, a) == n && UnitOf(u, b) == n && g[a] == g[b];
    assert Peers(a, b);
  }

  lemma AllOnce(g: seq<int>)
    requires |g| == 81 && forall k | IsCell(k) :: 1 <= g[k] <= 9
    requires forall n | 0 <= n < 9 :: UnitOnce(g, Row, n) && UnitOnce(g, Col, n) && UnitOnce(g, Box, n)
    ensures IsSolution(g)
  {
    forall a, b | IsCell(a) && IsCell(b) && Peers(a, b) ensures g[a] != g[b] {
      var u := if RowOf(a) == RowOf(b) then Row else if ColOf(a) == ColOf(b) then Col else Box;
      CellInUnit(u, a);
      assert UnitOnce(g, u, UnitOf(u, a));
    }
  }
}
