/**
  Sudoku as exact cover: one matrix row for each digit a cell may hold, one
  column for each of the 324 things a solution does exactly once.
 */
module SudokuEncoding {
  import opened SudokuGrid
  import opened LinkMatrix
  import opened ExactCover

  /** The row identifier of digit num in (row, col), all counted from 1. */
  function GetId(row: int, col: int, num: int): int {
    (row - 1) * 9 * 9 + (col - 1) * 9 + num
  }

  function IdCell(id: int): int { (id - 1) / 9 }
  function IdDigit(id: int): int { (id - 1) % 9 + 1 }

  /** `GetId` numbers the pairs of a cell and a digit 1..729, and can be inverted. */
  lemma IdRoundTrip(row: int, col: int, num: int)
    requires 1 <= row <= 9 && 1 <= col <= 9 && 1 <= num <= 9
    ensures 1 <= GetId(row, col, num) <= 729
    ensures IdCell(GetId(row, col, num)) == (row - 1) * 9 + (col - 1) && IdDigit(GetId(row, col, num)) == num
  {
    var k := (row - 1) * 9 + (col - 1);
    assert GetId(row, col, num) - 1 == k * 9 + (num - 1);
    NineSplit(k, num - 1);
  }

  /** Column numbers: digit v in row, in column, in box; cell filled. */
  function RowColumn(k: int, v: int): int { RowOf(k) * 9 + v }
  function ColColumn(k: int, v: int): int { 81 + ColOf(k) * 9 + v }
  function BoxColumn(k: int, v: int): int { 81 * 2 + BoxOf(k) * 9 + v }
  function CellColumn(k: int): int { 81 * 3 + k + 1 }

  function ColumnsOf(k: int, v: int): set<int> {
    {RowColumn(k, v), ColColumn(k, v), BoxColumn(k, v), CellColumn(k)}
  }

  function UnitColumn(u: Unit, k: int, v: int): int {
    match u
    case Row => RowColumn(k, v)
    case Col => ColColumn(k, v)
    case Box => BoxColumn(k, v)
  }

  function UnitBase(u: Unit): int {
    match u
    case Row => 0
    case Col => 81
    case Box => 162
  }

  /** Two candidates share a unit's column exactly when they put the same digit into the same unit. */
  lemma SharedColumn(u: Unit, a: int, v: int, b: int, w: int)
    requires IsCell(a) && IsCell(b) && 1 <= v <= 9 && 1 <= w <= 9
    ensures UnitColumn(u, a, v) in ColumnsOf(a, v)
    ensures UnitColumn(u, a, v) in ColumnsOf(b, w) <==> UnitOf(u, a) == UnitOf(u, b) && v == w
    ensures UnitBase(u) < UnitColumn(u, a, v) <= UnitBase(u) + 81
    ensures CellColumn(a) in ColumnsOf(b, w) <==> a == b
  {
    hide RowOf, ColOf, BoxOf;
    UnitRange(a);
    UnitRange(b);
    NineDigits(UnitOf(u, a), v, UnitOf(u, b), w);
  }

  lemma NineDigits(m: int, v: int, n: int, w: int)
    requires 0 <= m < 9 && 0 <= n < 9 && 1 <= v <= 9 && 1 <= w <= 9
    ensures m * 9 + v == n * 9 + w <==> m == n && v == w
    ensures 1 <= m * 9 + v <= 81
  {
  }

  lemma UnitRange(k: int)
    requires IsCell(k)
    ensures 0 <= RowOf(k) < 9 && 0 <= ColOf(k) < 9 && 0 <= BoxOf(k) < 9
  {
    CellInUnit(Row, k);
    CellInUnit(Col, k);
    CellInUnit(Box, k);
  }

  /** id stands for a digit that the puzzle leaves open, or gives, in its cell. */
  ghost predicate Allowed(p: seq<int>, id: int)
    requires |p| == 81
  {
    1 <= id <= 729 && (p[IdCell(id)] == 0 || p[IdCell(id)] == IdDigit(id))
  }

  /** The matrix has exactly the allowed rows numbered up to last, each with its four ones. */
  ghost predicate EncodesUpTo(mx: Matrix, p: seq<int>, last: int)
    requires |p| == 81
  {
    && mx.WellFormed() && mx.m == 324
    && (forall id :: id in mx.rows <==> Allowed(p, id) && id <= last)
    && (forall id | id in mx.rows :: mx.RowCols(id) == ColumnsOf(IdCell(id), IdDigit(id)))
  }

  ghost predicate Encodes(mx: Matrix, p: seq<int>)
    requires |p| == 81
  {
    EncodesUpTo(mx, p, 729)
  }

  ghost predicate AllColumns(cs: set<int>) {
    forall c :: c in cs <==> 1 <= c <= 324
  }

  // ----- a cover is a completion -----------------------------------------------------

  /** The rows of a cover that meet a common column are one row. */
  lemma OneRow(mx: Matrix, rs: seq<int>, cs: set<int>, i: int, j: int, c: int)
    requires mx.WellFormed() && Covers(mx, rs, cs)
    requires 0 <= i < |rs| && 0 <= j < |rs| && c in mx.RowCols(rs[i]) && c in mx.RowCols(rs[j])
    ensures i == j
  {
  }

  /** The row of a cover that fills cell k. */
  lemma FillsCell(mx: Matrix, p: seq<int>, rs: seq<int>, cs: set<int>, k: int) returns (i: int)
    requires |p| == 81 && Encodes(mx, p) && AllColumns(cs) && Covers(mx, rs, cs) && IsCell(k)
    ensures 0 <= i < |rs| && Allowed(p, rs[i]) && IdCell(rs[i]) == k
  {
    hide Matrix.WellFormed, Matrix.RowCols, IdCell, IdDigit;
    var c := CellColumn(k);
    assert c in cs;
    var r :| r in rs && c in mx.RowCols(r);
    i := IndexOf(rs, r);
    assert rs[i] in mx.rows && mx.RowCols(r) == ColumnsOf(IdCell(r), IdDigit(r));
    AllowedRange(p, r);
    SharedColumn(Row, k, 1, IdCell(r), IdDigit(r));
  }

  lemma AllowedRange(p: seq<int>, id: int)
    requires |p| == 81 && Allowed(p, id)
    ensures IsCell(IdCell(id)) && 1 <= IdDigit(id) <= 9
  {
  }

  /** g holds, in every cell, the digit of a row of rs. */
  ghost predicate Reads(g: seq<int>, rs: seq<int>) {
    |g| == 81 && forall k | IsCell(k) :: HasRow(rs, k, g[k])
  }

  ghost predicate HasRow(rs: seq<int>, k: int, v: int) {
    exists r :: r in rs && IdCell(r) == k && IdDigit(r) == v
  }

  lemma CoverCompletes(mx: Matrix, p: seq<int>, rs: seq<int>, cs: set<int>, g: seq<int>)
    requires |p| == 81 && Encodes(mx, p) && AllColumns(cs) && Covers(mx, rs, cs) && Reads(g, rs)
    ensures Completes(g, p)
  {
    forall k | IsCell(k) ensures 1 <= g[k] <= 9 && (p[k] != 0 ==> g[k] == p[k]) {
      assert HasRow(rs, k, g[k]);
      var r :| r in rs && IdCell(r) == k && IdDigit(r) == g[k];
      assert rs[IndexOf(rs, r)] in mx.rows;
    }
    forall a, b | IsCell(a) && IsCell(b) && Peers(a, b) ensures g[a] != g[b] {
      CoverPeers(mx, p, rs, cs, g, a, b);
    }
  }

  lemma CoverPeers(mx: Matrix, p: seq<int>, rs: seq<int>, cs: set<int>, g: seq<int>, a: int, b: int)
    requires |p| == 81 && Encodes(mx, p) && AllColumns(cs) && Covers(mx, rs, cs) && Reads(g, rs)
    requires IsCell(a) && IsCell(b) && Peers(a, b)
    ensures g[a] != g[b]
  {
    assert HasRow(rs, a, g[a]) && HasRow(rs, b, g[b]);
    var r :| r in rs && IdCell(r) == a && IdDigit(r) == g[a];
    var s :| s in rs && IdCell(s) == b && IdDigit(s) == g[b];
    var i, j := IndexOf(rs, r), IndexOf(rs, s);
    assert rs[i] in mx.rows && rs[j] in mx.rows;
    var u := if RowOf(a) == RowOf(b) then Row else if ColOf(a) == ColOf(b) then Col else Box;
    SharedColumn(u, a, g[a], b, g[b]);
    if g[a] == g[b] {
      OneRow(mx, rs, cs, i, j, UnitColumn(u, a, g[a]));
    }
  }

  // ----- a completion is a cover -----------------------------------------------------

  /** The rows that a grid chooses, cell by cell. */
  function RowsOf(g: seq<int>): (rs: seq<int>)
    requires |g| == 81
    ensures |rs| == 81 && forall k | IsCell(k) :: rs[k] == k * 9 + g[k]
  {
    seq(81, k requires 0 <= k < 81 => k * 9 + g[k])
  }

  lemma ChosenRow(mx: Matrix, p: seq<int>, g: seq<int>, k: int)
    requires |p| == 81 && Encodes(mx, p) && Completes(g, p) && IsCell(k)
    ensures RowsOf(g)[k] in mx.rows && mx.RowCols(RowsOf(g)[k]) == ColumnsOf(k, g[k])
  {
    hide IdCell, IdDigit, ColumnsOf, Peers, Matrix.WellFormed, Matrix.RowCols;
    IdParts(k, g[k]);
    assert Allowed(p, RowsOf(g)[k]);
  }

  lemma IdParts(k: int, v: int)
    requires IsCell(k) && 1 <= v <= 9
    ensures 1 <= k * 9 + v <= 729 && IdCell(k * 9 + v) == k && IdDigit(k * 9 + v) == v
  {
    NineSplit(k, v - 1);
  }

  lemma CompletionCovers(mx: Matrix, p: seq<int>, g: seq<int>, cs: set<int>)
    requires |p| == 81 && Encodes(mx, p) && AllColumns(cs) && Completes(g, p)
    ensures Covers(mx, RowsOf(g), cs)
  {
    var rs := RowsOf(g);
    forall k | 0 <= k < 81 ensures rs[k] in mx.rows && mx.RowCols(rs[k]) == ColumnsOf(k, g[k]) && ColumnsOf(k, g[k]) <= cs {
      ChosenRow(mx, p, g, k);
      ColumnsInRange(k, g[k]);
    }
    hide Encodes, AllColumns, Completes, ColumnsOf, Matrix.RowCols;
    forall i, j | 0 <= i < j < 81 ensures mx.RowCols(rs[i]) !! mx.RowCols(rs[j]) {
      ChosenDisjoint(g, i, j);
    }
    forall c | c in cs ensures exists r :: r in rs && c in mx.RowCols(r) {
      var k := ChosenFor(g, c);
      assert rs[k] in rs;
    }
  }

  lemma ColumnsInRange(k: int, v: int)
    requires IsCell(k) && 1 <= v <= 9
    ensures forall c | c in ColumnsOf(k, v) :: 1 <= c <= 324
  {
    SharedColumn(Row, k, v, k, v);
    SharedColumn(Col, k, v, k, v);
    SharedColumn(Box, k, v, k, v);
  }

  lemma ChosenDisjoint(g: seq<int>, i: int, j: int)
    requires IsSolution(g) && 0 <= i < j < 81
    ensures ColumnsOf(i, g[i]) !! ColumnsOf(j, g[j])
  {
    SharedColumn(Row, i, g[i], j, g[j]);
    SharedColumn(Col, i, g[i], j, g[j]);
    SharedColumn(Box, i, g[i], j, g[j]);
    if g[i] == g[j] { assert !Peers(i, j); }
  }

  /** Whatever the column asks for, a solution does: pigeonhole for the digits, trivially for the cells. */
  lemma ChosenFor(g: seq<int>, c: int) returns (k: int)
    requires IsSolution(g) && 1 <= c <= 324
    ensures IsCell(k) && c in ColumnsOf(k, g[k])
  {
    if c > 243 {
      k := c - 244;
    } else {
      var u := if c <= 81 then Row else if c <= 162 then Col else Box;
      var d := c - UnitBase(u) - 1;
      var n, v := d / 9, d % 9 + 1;
      var t := DigitInUnit(g, u, n, v);
      k := UnitCell(u, n, t);
      UnitCellOk(u, n, t);
      assert UnitColumn(u, k, v) == c;
      SharedColumn(u, k, v, k, v);
    }
  }

  /**
    The encoding is faithful: the matrix has an exact cover of all 324 columns
    if and only if the puzzle can be completed.
   */
  lemma EncodingFaithful(mx: Matrix, p: seq<int>, cs: set<int>)
    requires |p| == 81 && Encodes(mx, p) && AllColumns(cs)
    ensures Completable(p) <==> !NoCover(mx, cs)
  {
    if Completable(p) {
      var g: seq<int> :| Completes(g, p);
      CompletionCovers(mx, p, g, cs);
    }
    if !NoCover(mx, cs) {
      var rs: seq<int> :| Covers(mx, rs, cs);
      var g := ReadGrid(mx, p, rs, cs, 81);
      CoverCompletes(mx, p, rs, cs, g);
    }
  }

  lemma ReadGrid(mx: Matrix, p: seq<int>, rs: seq<int>, cs: set<int>, n: nat) returns (g: seq<int>)
    requires |p| == 81 && Encodes(mx, p) && AllColumns(cs) && Covers(mx, rs, cs) && n <= 81
    ensures |g| == n && forall k | 0 <= k < n :: HasRow(rs, k, g[k])
  {
    hide Encodes, AllColumns, Covers, HasRow;
    if n == 0 {
      g := [];
    } else {
      var k := n - 1;
      g := ReadGrid(mx, p, rs, cs, k);
      var i := FillsCell(mx, p, rs, cs, k);
      RowPresent(rs, i);
      g := g + [IdDigit(rs[i])];
    }
  }

  lemma RowPresent(rs: seq<int>, i: nat)
    requires i < |rs|
    ensures HasRow(rs, IdCell(rs[i]), IdDigit(rs[i]))
  {
    assert rs[i] in rs;
  }
}
