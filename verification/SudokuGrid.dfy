/**
  Sudoku grids. A grid is the sequence of its 81 cells, row after row; 0 is an
  empty cell.
 */
module SudokuGrid {

  predicate IsCell(k: int) { 0 <= k < 81 }

  function RowOf(k: int): int { k / 9 }
  function ColOf(k: int): int { k % 9 }
  function BoxOf(k: int): int { k / 9 / 3 * 3 + k % 9 / 3 }

  /** Two different cells that share a row, a column or a box. */
  predicate Peers(a: int, b: int) {
    a != b && (RowOf(a) == RowOf(b) || ColOf(a) == ColOf(b) || BoxOf(a) == BoxOf(b))
  }

  /** Digits 1..9, or 0 for an empty cell. */
  ghost predicate IsPuzzle(p: seq<int>) {
    |p| == 81 && forall k | IsCell(k) :: 0 <= p[k] <= 9
  }

  /** Every cell filled, no digit twice in a row, a column or a box. */
  ghost predicate IsSolution(g: seq<int>) {
    && |g| == 81
    && (forall k | IsCell(k) :: 1 <= g[k] <= 9)
    && (forall a, b | IsCell(a) && IsCell(b) && Peers(a, b) :: g[a] != g[b])
  }

  ghost predicate Completes(g: seq<int>, p: seq<int>)
    requires |p| == 81
  {
    IsSolution(g) && forall k | IsCell(k) && p[k] != 0 :: g[k] == p[k]
  }

  ghost predicate Completable(p: seq<int>)
    requires |p| == 81
  {
    exists g: seq<int> :: Completes(g, p)
  }

  // ----- the 27 units --------------------------------------------------------------

  datatype Unit = Row | Col | Box

  function UnitOf(u: Unit, k: int): int {
    match u
    case Row => RowOf(k)
    case Col => ColOf(k)
    case Box => BoxOf(k)
  }

  /** The t-th cell of unit n. */
  function UnitCell(u: Unit, n: int, t: int): int {
    match u
    case Row => n * 9 + t
    case Col => t * 9 + n
    case Box => (n / 3 * 3 + t / 3) * 9 + (n % 3 * 3 + t % 3)
  }

  /** The place of cell k inside its unit. */
  function PlaceIn(u: Unit, k: int): int {
    match u
    case Row => k % 9
    case Col => k / 9
    case Box => k / 9 % 3 * 3 + k % 9 % 3
  }

  lemma NineSplit(a: int, b: int)
    requires 0 <= b < 9
    ensures (a * 9 + b) / 9 == a && (a * 9 + b) % 9 == b
  {
  }

  lemma ThreeSplit(a: int, b: int)
    requires 0 <= b < 3
    ensures (a * 3 + b) / 3 == a && (a * 3 + b) % 3 == b
  {
  }

  lemma UnitCellOk(u: Unit, n: int, t: int)
    requires 0 <= n < 9 && 0 <= t < 9
    ensures IsCell(UnitCell(u, n, t))
    ensures UnitOf(u, UnitCell(u, n, t)) == n && PlaceIn(u, UnitCell(u, n, t)) == t
  {
    match u
    case Row => NineSplit(n, t);
    case Col => NineSplit(t, n);
    case Box =>
      var r, c := n / 3 * 3 + t / 3, n % 3 * 3 + t % 3;
      NineSplit(r, c);
      ThreeSplit(n / 3, t / 3);
      ThreeSplit(n % 3, t % 3);
  }

  lemma CellInUnit(u: Unit, k: int)
    requires IsCell(k)
    ensures 0 <= UnitOf(u, k) < 9 && 0 <= PlaceIn(u, k) < 9
    ensures UnitCell(u, UnitOf(u, k), PlaceIn(u, k)) == k
  {
    match u
    case Row =>
    case Col =>
    case Box =>
      var r, c := k / 9, k % 9;
      ThreeSplit(r / 3, c / 3);
      ThreeSplit(r % 3, c % 3);
      assert BoxOf(k) == r / 3 * 3 + c / 3;
      assert PlaceIn(u, k) == r % 3 * 3 + c % 3;
  }

  /** Different places of one unit are different cells, and peers. */
  lemma UnitPeers(u: Unit, n: int, s: int, t: int)
    requires 0 <= n < 9 && 0 <= s < 9 && 0 <= t < 9 && s != t
    ensures Peers(UnitCell(u, n, s), UnitCell(u, n, t))
  {
    UnitCellOk(u, n, s);
    UnitCellOk(u, n, t);
  }

  // ----- nine different digits are all nine digits -----------------------------------

  function Range(n: nat): (s: set<int>)
    ensures |s| == n && forall x :: x in s <==> 1 <= x <= n
  {
    if n == 0 then {} else
      assert n !in Range(n - 1);
      Range(n - 1) + {n}
  }

  ghost function Members(s: seq<int>): set<int> { set x | x in s }

  lemma {:induction false} DistinctCount(s: seq<int>)
    requires forall i, j | 0 <= i < j < |s| :: s[i] != s[j]
    ensures |Members(s)| == |s|
  {
    if s == [] {
      assert Members(s) == {};
    } else {
      var t, y := s[..|s| - 1], s[|s| - 1];
      DistinctCount(t);
      assert s == t + [y];
      assert Members(s) == Members(t) + {y};
    }
  }

  lemma SubsetSize(a: set<int>, b: set<int>)
    requires a <= b && |a| == |b|
    ensures a == b
  {
    assert b == a + (b - a);
    assert |b| == |a| + |b - a|;
  }

  lemma Pigeonhole(s: seq<int>, v: int)
    requires |s| == 9 && (forall i | 0 <= i < 9 :: 1 <= s[i] <= 9)
    requires forall i, j | 0 <= i < j < 9 :: s[i] != s[j]
    requires 1 <= v <= 9
    ensures v in s
  {
    DistinctCount(s);
    SubsetSize(Members(s), Range(9));
    assert v in Range(9);
  }

  /** In a solution every digit occurs in every unit. */
  lemma DigitInUnit(g: seq<int>, u: Unit, n: int, v: int) returns (t: int)
    requires IsSolution(g) && 0 <= n < 9 && 1 <= v <= 9
    ensures 0 <= t < 9 && IsCell(UnitCell(u, n, t)) && g[UnitCell(u, n, t)] == v
  {
    forall t | 0 <= t < 9 ensures IsCell(UnitCell(u, n, t)) { UnitCellOk(u, n, t); }
    var s := seq(9, t requires 0 <= t < 9 => g[UnitCell(u, n, t)]);
    forall i, j | 0 <= i < j < 9 ensures s[i] != s[j] {
      UnitPeers(u, n, i, j);
    }
    Pigeonhole(s, v);
    t :| 0 <= t < 9 && s[t] == v;
  }
}
