/**
  Sudoku as exact cover of what is still open: a column for each empty cell, and
  for each digit that a row, a column or a box does not have yet. Nothing is
  assumed of the givens: two equal givens leave a unit more missing digits than
  empty cells, and then there is no cover.
 */
module OpenEncoding {
  import opened SudokuGrid
  import opened LinkMatrix
  import opened ExactCover
  import opened MatrixBuild

  /** A given in unit i has the digit v. */
  ghost predicate Given(p: seq<int>, u: Unit, i: int, v: int)
    requires |p| == 81
  {
    exists k :: IsCell(k) && UnitOf(u, k) == i && p[k] == v
  }

  // ----- column names ------------------------------------------------------------------------

  function UnitBase(u: Unit): int {
    match u
    case Row => 100
    case Col => 200
    case Box => 300
  }

  /** The name of the column for digit v in unit i; a cell's column is named by the cell. */
  function UnitName(u: Unit, i: int, v: int): int { UnitBase(u) + i * 10 + v }

  function UnitAt(n: int): Unit {
    if n < 200 then Row else if n < 300 then Col else Box
  }

  lemma NameParts(u: Unit, i: int, v: int)
    requires 0 <= i < 9 && 1 <= v <= 9
    ensures var n := UnitName(u, i, v);
            100 < n < 400 && UnitAt(n) == u && n % 100 / 10 == i && n % 10 == v
  {
    assert UnitName(u, i, v) % 100 == i * 10 + v;
    assert UnitName(u, i, v) % 10 == v;
  }

  lemma PartsName(n: int)
    requires 100 <= n < 400
    ensures UnitName(UnitAt(n), n % 100 / 10, n % 10) == n
  {
    Hundreds(n);
    Tens(n % 100);
    assert UnitBase(UnitAt(n)) == 100 * (n / 100);
  }

  lemma Hundreds(n: int)
    requires 100 <= n < 400
    ensures n == 100 * (n / 100) + n % 100 && n % 10 == n % 100 % 10
    ensures n / 100 == if n < 200 then 1 else if n < 300 then 2 else 3
  {
  }

  lemma Tens(r: int)
    ensures r == 10 * (r / 10) + r % 10
  {
  }

  /** A name for something a completion must still do. */
  ghost predicate OpenName(p: seq<int>, n: int)
    requires |p| == 81
  {
    || (IsCell(n) && p[n] == 0)
    || (100 <= n < 400 && n % 100 / 10 < 9 && 1 <= n % 10 && !Given(p, UnitAt(n), n % 100 / 10, n % 10))
  }

  // ----- candidates ---------------------------------------------------------------------------

  /** Row identifiers: digit v in cell k is 10 k + v. */
  function CellOfRow(id: int): int { id / 10 }
  function DigitOfRow(id: int): int { id % 10 }

  lemma RowParts(k: int, v: int)
    requires 0 <= v < 10
    ensures CellOfRow(k * 10 + v) == k && DigitOfRow(k * 10 + v) == v
  {
  }

  /** An empty cell and a digit that no given of its row, column or box has. */
  ghost predicate Candidate(p: seq<int>, id: int)
    requires |p| == 81
  {
    var k, v := CellOfRow(id), DigitOfRow(id);
    && IsCell(k) && p[k] == 0 && 1 <= v
    && !Given(p, Row, RowOf(k), v) && !Given(p, Col, ColOf(k), v) && !Given(p, Box, BoxOf(k), v)
  }

  function NamesOf(id: int): set<int> {
    var k, v := CellOfRow(id), DigitOfRow(id);
    {k, UnitName(Row, RowOf(k), v), UnitName(Col, ColOf(k), v), UnitName(Box, BoxOf(k), v)}
  }

  lemma CandidateUnit(p: seq<int>, id: int, u: Unit)
    requires |p| == 81 && Candidate(p, id)
    ensures !Given(p, u, UnitOf(u, CellOfRow(id)), DigitOfRow(id))
  {
  }

  /** Candidates share a name exactly when they put the same digit into the same unit, or fill the same cell. */
  lemma SharedName(u: Unit, a: int, b: int)
    requires IsCell(CellOfRow(a)) && 1 <= DigitOfRow(a) && IsCell(CellOfRow(b)) && 1 <= DigitOfRow(b)
    ensures var k := CellOfRow(a);
            && UnitName(u, UnitOf(u, k), DigitOfRow(a)) in NamesOf(a)
            && (UnitName(u, UnitOf(u, k), DigitOfRow(a)) in NamesOf(b) <==>
                UnitOf(u, k) == UnitOf(u, CellOfRow(b)) && DigitOfRow(a) == DigitOfRow(b))
            && k in NamesOf(a) && (k in NamesOf(b) <==> k == CellOfRow(b))
  {
    var k, l := CellOfRow(a), CellOfRow(b);
    CellInUnit(u, k);
    CellInUnit(Row, l);
    CellInUnit(Col, l);
    CellInUnit(Box, l);
    NameParts(u, UnitOf(u, k), DigitOfRow(a));
    NameParts(Row, RowOf(l), DigitOfRow(b));
    NameParts(Col, ColOf(l), DigitOfRow(b));
    NameParts(Box, BoxOf(l), DigitOfRow(b));
    hide RowOf, ColOf, BoxOf;
  }

  /** What a candidate's names say: each of them is open. */
  lemma NamesOpen(p: seq<int>, id: int, n: int)
    requires |p| == 81 && Candidate(p, id) && n in NamesOf(id)
    ensures OpenName(p, n)
  {
    var k, v := CellOfRow(id), DigitOfRow(id);
    if n != k {
      var u := if n == UnitName(Row, RowOf(k), v) then Row else if n == UnitName(Col, ColOf(k), v) then Col else Box;
      CellInUnit(u, k);
      NameParts(u, UnitOf(u, k), v);
      CandidateUnit(p, id, u);
    }
  }

  // ----- covers by names -----------------------------------------------------------------------

  /** The candidates rs together do everything open exactly once. */
  ghost predicate CoversOpen(p: seq<int>, rs: seq<int>)
    requires |p| == 81
  {
    && (forall i | 0 <= i < |rs| :: Candidate(p, rs[i]))
    && (forall i, j | 0 <= i < j < |rs| :: NamesOf(rs[i]) !! NamesOf(rs[j]))
    && (forall n | OpenName(p, n) :: HasName(rs, n))
  }

  ghost predicate HasName(rs: seq<int>, n: int) {
    exists r :: r in rs && n in NamesOf(r)
  }

  /** g keeps the givens, and holds in every empty cell the digit of a row of rs. */
  ghost predicate ReadsOpen(g: seq<int>, p: seq<int>, rs: seq<int>)
    requires |p| == 81
  {
    && |g| == 81
    && (forall k | IsCell(k) && p[k] != 0 :: g[k] == p[k])
    && (forall k | IsCell(k) && p[k] == 0 :: k * 10 + g[k] in rs && 1 <= g[k] <= 9)
  }

  /** Nine places that hold all nine digits hold nine different ones. */
  lemma AllDigitsDiffer(s: seq<int>, i: nat, j: nat)
    requires |s| == 9 && (forall v | 1 <= v <= 9 :: v in s) && i < j < 9
    ensures s[i] != s[j]
  {
    if s[i] == s[j] {
      var t := s[..j] + s[j + 1..];
      forall v | 1 <= v <= 9 ensures v in t {
        assert v in s;
        var k :| 0 <= k < 9 && s[k] == v;
        var l := if k == j then i else k;
        assert t[if l < j then l else l - 1] == v;
      }
      MembersBound(t);
      assert Range(9) <= Members(t);
      SubsetBound(Range(9), Members(t));
    }
  }

  lemma {:induction false} MembersBound(s: seq<int>)
    ensures |Members(s)| <= |s|
  {
    if s == [] {
      assert Members(s) == {};
    } else {
      var t, y := s[..|s| - 1], s[|s| - 1];
      MembersBound(t);
      assert s == t + [y];
      assert Members(s) == Members(t) + {y};
    }
  }

  lemma SubsetBound(a: set<int>, b: set<int>)
    requires a <= b
    ensures |a| <= |b|
  {
    assert b == a + (b - a);
    assert |b| == |a| + |b - a|;
  }

  lemma UnitNameOpen(p: seq<int>, u: Unit, i: int, v: int)
    requires |p| == 81 && 0 <= i < 9 && 1 <= v <= 9 && !Given(p, u, i, v)
    ensures OpenName(p, UnitName(u, i, v))
  {
    NameParts(u, i, v);
  }

  lemma NameRow(p: seq<int>, rs: seq<int>, n: int) returns (r: int)
    requires |p| == 81 && CoversOpen(p, rs) && OpenName(p, n)
    ensures r in rs && n in NamesOf(r) && Candidate(p, r)
  {
    assert HasName(rs, n);
    r :| r in rs && n in NamesOf(r);
    assert Candidate(p, rs[IndexOf(rs, r)]);
  }

  lemma ReadCell(p: seq<int>, rs: seq<int>, g: seq<int>, k: int)
    requires |p| == 81 && ReadsOpen(g, p, rs) && IsCell(k)
    ensures |g| == 81
    ensures p[k] != 0 ==> g[k] == p[k]
    ensures p[k] == 0 ==> k * 10 + g[k] in rs && 1 <= g[k] <= 9
  {
  }

  /** After a cover is written, every digit is in every unit: given, or covered. */
  lemma EveryDigit(p: seq<int>, rs: seq<int>, g: seq<int>, u: Unit, i: int, v: int) returns (k: int)
    requires IsPuzzle(p) && CoversOpen(p, rs) && ReadsOpen(g, p, rs) && 0 <= i < 9 && 1 <= v <= 9
    ensures IsCell(k) && |g| == 81 && UnitOf(u, k) == i && g[k] == v
  {
    hide CoversOpen, ReadsOpen, OpenName, NamesOf, UnitOf, CellOfRow, DigitOfRow;
    if Given(p, u, i, v) {
      k :| IsCell(k) && UnitOf(u, k) == i && p[k] == v;
      ReadCell(p, rs, g, k);
    } else {
      UnitNameOpen(p, u, i, v);
      var r := NameRow(p, rs, UnitName(u, i, v));
      k := CellOfRow(r);
      NamedUnit(u, i, v, r);
      ReadCell(p, rs, g, k);
      RowParts(k, g[k]);
      SameCellSameRow(p, rs, r, k * 10 + g[k]);
    }
  }

  lemma NamedUnit(u: Unit, i: int, v: int, r: int)
    requires 0 <= i < 9 && 1 <= v <= 9 && IsCell(CellOfRow(r)) && 1 <= DigitOfRow(r) && UnitName(u, i, v) in NamesOf(r)
    ensures UnitOf(u, CellOfRow(r)) == i && DigitOfRow(r) == v
  {
    var k := CellOfRow(r);
    NameParts(u, i, v);
    CellInUnit(Row, k);
    CellInUnit(Col, k);
    CellInUnit(Box, k);
    NameParts(Row, RowOf(k), DigitOfRow(r));
    NameParts(Col, ColOf(k), DigitOfRow(r));
    NameParts(Box, BoxOf(k), DigitOfRow(r));
    hide RowOf, ColOf, BoxOf;
  }

  /** Two rows of a cover for one cell are one row. */
  lemma SameCellSameRow(p: seq<int>, rs: seq<int>, r: int, s: int)
    requires |p| == 81 && CoversOpen(p, rs) && r in rs && s in rs && CellOfRow(r) == CellOfRow(s)
    ensures r == s
  {
    var i, j := IndexOf(rs, r), IndexOf(rs, s);
    assert CellOfRow(r) in NamesOf(rs[i]) && CellOfRow(r) in NamesOf(rs[j]);
  }

  lemma OpenCoverCompletes(p: seq<int>, rs: seq<int>, g: seq<int>)
    requires IsPuzzle(p) && CoversOpen(p, rs) && ReadsOpen(g, p, rs)
    ensures Completes(g, p)
  {
    forall a, b | IsCell(a) && IsCell(b) && Peers(a, b) ensures g[a] != g[b] {
      var u := if RowOf(a) == RowOf(b) then Row else if ColOf(a) == ColOf(b) then Col else Box;
      UnitDiffers(p, rs, g, u, a, b);
    }
    forall k | IsCell(k) ensures 1 <= g[k] <= 9 {}
  }

  lemma UnitDiffers(p: seq<int>, rs: seq<int>, g: seq<int>, u: Unit, a: int, b: int)
    requires IsPuzzle(p) && CoversOpen(p, rs) && ReadsOpen(g, p, rs)
    requires IsCell(a) && IsCell(b) && a != b && UnitOf(u, a) == UnitOf(u, b)
    ensures g[a] != g[b]
  {
    hide CoversOpen, ReadsOpen, RowOf, ColOf, BoxOf;
    var i := UnitOf(u, a);
    CellInUnit(u, a);
    CellInUnit(u, b);
    assert |g| == 81 by { GridSize(g, p, rs); }
    forall t | 0 <= t < 9 ensures IsCell(UnitCell(u, i, t)) { UnitCellOk(u, i, t); }
    var s := seq(9, t requires 0 <= t < 9 => g[UnitCell(u, i, t)]);
    forall v | 1 <= v <= 9 ensures v in s {
      var k := EveryDigit(p, rs, g, u, i, v);
      CellInUnit(u, k);
      assert s[PlaceIn(u, k)] == v;
    }
    var x, y := PlaceIn(u, a), PlaceIn(u, b);
    assert s[x] == g[a] && s[y] == g[b];
    if x < y { AllDigitsDiffer(s, x, y); } else { AllDigitsDiffer(s, y, x); }
  }

  lemma GridSize(g: seq<int>, p: seq<int>, rs: seq<int>)
    requires |p| == 81 && ReadsOpen(g, p, rs)
    ensures |g| == 81
  {
  }

  // ----- a completion is a cover ---------------------------------------------------------------

  /** The empty cells below n, in order. */
  ghost function EmptyBelow(p: seq<int>, n: nat): (ks: seq<int>)
    requires |p| == 81 && n <= 81
  {
    if n == 0 then [] else EmptyBelow(p, n - 1) + (if p[n - 1] == 0 then [n - 1] else [])
  }

  lemma {:induction false} EmptyMembers(p: seq<int>, n: nat)
    requires |p| == 81 && n <= 81
    ensures forall k :: k in EmptyBelow(p, n) <==> 0 <= k < n && p[k] == 0
    ensures forall i, j | 0 <= i < j < |EmptyBelow(p, n)| :: EmptyBelow(p, n)[i] < EmptyBelow(p, n)[j]
  {
    if n > 0 {
      EmptyMembers(p, n - 1);
      var s := EmptyBelow(p, n - 1);
      forall i | 0 <= i < |s| ensures s[i] < n - 1 { assert s[i] in s; }
    }
  }

  /** The rows a grid chooses for the empty cells, in order. */
  ghost function Choices(g: seq<int>, p: seq<int>): (rs: seq<int>)
    requires |g| == 81 && |p| == 81
  {
    EmptyMembers(p, 81);
    var ks := EmptyBelow(p, 81);
    seq(|ks|, i requires 0 <= i < |ks| => assert ks[i] in ks; ks[i] * 10 + g[ks[i]])
  }

  lemma CompletionCoversOpen(p: seq<int>, g: seq<int>)
    requires IsPuzzle(p) && Completes(g, p)
    ensures |g| == 81 && CoversOpen(p, Choices(g, p))
  {
    hide NamesOf, Candidate, OpenName, EmptyBelow, Completes, HasName;
    CompletesDigits(g, p);
    EmptyMembers(p, 81);
    var ks, rs := EmptyBelow(p, 81), Choices(g, p);
    forall i | 0 <= i < |rs| ensures Candidate(p, rs[i]) {
      assert ks[i] in ks;
      ChosenCandidate(p, g, ks[i]);
    }
    forall i, j | 0 <= i < j < |rs| ensures NamesOf(rs[i]) !! NamesOf(rs[j]) {
      assert ks[i] in ks && ks[j] in ks;
      ChosenApart(p, g, ks[i], ks[j]);
    }
    forall n | OpenName(p, n) ensures HasName(rs, n) {
      var k := ChosenFor(p, g, n);
      assert rs[IndexOf(ks, k)] == k * 10 + g[k];
      NameHad(rs, k * 10 + g[k], n);
    }
  }

  lemma NameHad(rs: seq<int>, r: int, n: int)
    requires r in rs && n in NamesOf(r)
    ensures HasName(rs, n)
  {
  }

  lemma CompletesDigits(g: seq<int>, p: seq<int>)
    requires |p| == 81 && Completes(g, p)
    ensures |g| == 81 && forall k | IsCell(k) :: 1 <= g[k] <= 9
  {
  }

  lemma ChosenCandidate(p: seq<int>, g: seq<int>, k: int)
    requires IsPuzzle(p) && Completes(g, p) && IsCell(k) && p[k] == 0
    ensures Candidate(p, k * 10 + g[k])
  {
    RowParts(k, g[k]);
    NotGiven(p, g, Row, k);
    NotGiven(p, g, Col, k);
    NotGiven(p, g, Box, k);
  }

  lemma NotGiven(p: seq<int>, g: seq<int>, u: Unit, k: int)
    requires IsPuzzle(p) && Completes(g, p) && IsCell(k) && p[k] == 0
    ensures !Given(p, u, UnitOf(u, k), g[k])
  {
    forall l | IsCell(l) && UnitOf(u, l) == UnitOf(u, k) ensures p[l] != g[k] {
      if l != k && p[l] != 0 { assert Peers(k, l) && g[l] == p[l]; }
    }
  }

  lemma ChosenApart(p: seq<int>, g: seq<int>, k: int, l: int)
    requires IsPuzzle(p) && Completes(g, p) && IsCell(k) && IsCell(l) && k != l
    ensures NamesOf(k * 10 + g[k]) !! NamesOf(l * 10 + g[l])
  {
    RowParts(k, g[k]);
    RowParts(l, g[l]);
    if g[k] == g[l] { assert !Peers(k, l); }
    ApartNames(k * 10 + g[k], l * 10 + g[l]);
  }

  lemma ApartNames(a: int, b: int)
    requires IsCell(CellOfRow(a)) && 1 <= DigitOfRow(a) && IsCell(CellOfRow(b)) && 1 <= DigitOfRow(b)
    requires CellOfRow(a) != CellOfRow(b) && (DigitOfRow(a) == DigitOfRow(b) ==> !Peers(CellOfRow(a), CellOfRow(b)))
    ensures NamesOf(a) !! NamesOf(b)
  {
    hide CellOfRow, DigitOfRow, RowOf, ColOf, BoxOf;
    SharedName(Row, a, b);
    SharedName(Col, a, b);
    SharedName(Box, a, b);
  }

  /** Whatever is open, a completion does it in some empty cell. */
  lemma ChosenFor(p: seq<int>, g: seq<int>, n: int) returns (k: int)
    requires IsPuzzle(p) && Completes(g, p) && OpenName(p, n)
    ensures IsCell(k) && p[k] == 0 && n in NamesOf(k * 10 + g[k])
  {
    if IsCell(n) {
      k := n;
      RowParts(k, g[k]);
    } else {
      var u, i, v := UnitAt(n), n % 100 / 10, n % 10;
      PartsName(n);
      var t := DigitInUnit(g, u, i, v);
      k := UnitCell(u, i, t);
      UnitCellOk(u, i, t);
      if p[k] != 0 { assert Given(p, u, i, v); }
      RowParts(k, v);
      SharedName(u, k * 10 + v, k * 10 + v);
    }
  }

  // ----- the matrix -----------------------------------------------------------------------------

  /** names[c] is the name of header c, for the headers in use: all that is open has one header. */
  ghost predicate NamesMatch(names: seq<int>, m: nat, p: seq<int>)
    requires |p| == 81
  {
    && |names| == m + 1
    && (forall c | 1 <= c <= m :: OpenName(p, names[c]))
    && (forall c, d | 1 <= c < d <= m :: names[c] != names[d])
    && (forall n | OpenName(p, n) :: HasHeader(names, m, n))
  }

  ghost predicate HasHeader(names: seq<int>, m: nat, n: int)
    requires |names| == m + 1
  {
    exists c :: 1 <= c <= m && names[c] == n
  }

  /** The matrix has exactly the candidates numbered below last, each under its names. */
  ghost predicate EncodesOpenUpTo(mx: Matrix, names: seq<int>, p: seq<int>, last: int)
    requires |p| == 81
  {
    && mx.WellFormed() && NamesMatch(names, mx.m, p)
    && (forall id :: id in mx.rows <==> Candidate(p, id) && id < last)
    && (forall id | id in mx.rows :: RowNamed(mx, names, id))
  }

  ghost predicate RowNamed(mx: Matrix, names: seq<int>, id: int)
    requires mx.WellFormed() && |names| == mx.m + 1 && id in mx.rows
  {
    forall c | 1 <= c <= mx.m :: c in mx.RowCols(id) <==> names[c] in NamesOf(id)
  }

  ghost predicate EncodesOpen(mx: Matrix, names: seq<int>, p: seq<int>)
    requires |p| == 81
  {
    EncodesOpenUpTo(mx, names, p, 810)
  }

  /** Rows cover the headers exactly when they do what the names say. */
  lemma CoverNames(mx: Matrix, names: seq<int>, p: seq<int>, rs: seq<int>)
    requires |p| == 81 && EncodesOpen(mx, names, p)
    ensures Covers(mx, rs, Elems(AllHeads(mx.m))) <==> CoversOpen(p, rs)
  {
    hide NamesOf, Candidate, OpenName, Matrix.WellFormed, Matrix.RowCols;
    AllHeadsMembers(mx.m);
    var cs := Elems(AllHeads(mx.m));
    if Covers(mx, rs, cs) {
      CoverGivesNames(mx, names, p, rs);
    }
    if CoversOpen(p, rs) {
      NamesGiveCover(mx, names, p, rs);
    }
  }

  lemma CandidateBelow(p: seq<int>, id: int)
    requires |p| == 81 && Candidate(p, id)
    ensures id < 810
  {
  }

  /** Two rows share a header exactly when they share a name. */
  lemma SharedHeader(mx: Matrix, names: seq<int>, p: seq<int>, a: int, b: int)
    requires |p| == 81 && EncodesOpen(mx, names, p) && a in mx.rows && b in mx.rows
    ensures mx.RowCols(a) !! mx.RowCols(b) <==> NamesOf(a) !! NamesOf(b)
  {
    hide RowOf, ColOf, BoxOf, CellOfRow, DigitOfRow, Candidate, OpenName, Matrix.WellFormed, Matrix.RowCols;
    assert RowNamed(mx, names, a) && RowNamed(mx, names, b);
    if n :| n in NamesOf(a) && n in NamesOf(b) {
      NamesOpen(p, a, n);
      assert HasHeader(names, mx.m, n);
      var c :| 1 <= c <= mx.m && names[c] == n;
      assert c in mx.RowCols(a) && c in mx.RowCols(b);
    } else {
      var na: set<int>, nb: set<int> := NamesOf(a), NamesOf(b);
      assert forall n | n in na :: n !in nb;
      NoneShared(na, nb);
    }
    if c :| c in mx.RowCols(a) && c in mx.RowCols(b) {
      assert names[c] in NamesOf(a) && names[c] in NamesOf(b);
    } else {
      NoneShared(mx.RowCols(a), mx.RowCols(b));
    }
  }

  lemma NoneShared<T>(a: set<T>, b: set<T>)
    requires forall x | x in a :: x !in b
    ensures a !! b
  {
  }

  lemma CoverGivesNames(mx: Matrix, names: seq<int>, p: seq<int>, rs: seq<int>)
    requires |p| == 81 && EncodesOpen(mx, names, p) && Covers(mx, rs, Elems(AllHeads(mx.m)))
    ensures CoversOpen(p, rs)
  {
    hide NamesOf, Candidate, OpenName, Matrix.WellFormed, Matrix.RowCols;
    AllHeadsMembers(mx.m);
    forall i, j | 0 <= i < j < |rs| ensures NamesOf(rs[i]) !! NamesOf(rs[j]) {
      SharedHeader(mx, names, p, rs[i], rs[j]);
    }
    forall n | OpenName(p, n) ensures HasName(rs, n) {
      assert HasHeader(names, mx.m, n);
      var c :| 1 <= c <= mx.m && names[c] == n;
      assert c in Elems(AllHeads(mx.m));
      var r :| r in rs && c in mx.RowCols(r);
      assert rs[IndexOf(rs, r)] in mx.rows && RowNamed(mx, names, r);
    }
  }

  lemma NamesGiveCover(mx: Matrix, names: seq<int>, p: seq<int>, rs: seq<int>)
    requires |p| == 81 && EncodesOpen(mx, names, p) && CoversOpen(p, rs)
    ensures Covers(mx, rs, Elems(AllHeads(mx.m)))
  {
    hide NamesOf, Candidate, OpenName, Matrix.WellFormed, Matrix.RowCols;
    AllHeadsMembers(mx.m);
    var cs := Elems(AllHeads(mx.m));
    forall i | 0 <= i < |rs| ensures rs[i] in mx.rows && mx.RowCols(rs[i]) <= cs {
      CandidateBelow(p, rs[i]);
    }
    forall i, j | 0 <= i < j < |rs| ensures mx.RowCols(rs[i]) !! mx.RowCols(rs[j]) {
      SharedHeader(mx, names, p, rs[i], rs[j]);
    }
    forall c | c in cs ensures exists r :: r in rs && c in mx.RowCols(r) {
      var r := NameRow(p, rs, names[c]);
      assert rs[IndexOf(rs, r)] in mx.rows && RowNamed(mx, names, r);
    }
  }

  /** For any puzzle, whatever its givens: the matrix has an exact cover if and only if the puzzle can be completed. */
  lemma OpenEncodingFaithful(mx: Matrix, names: seq<int>, p: seq<int>)
    requires IsPuzzle(p) && EncodesOpen(mx, names, p)
    ensures Completable(p) <==> !NoCover(mx, Elems(AllHeads(mx.m)))
  {
    hide Completes, CoversOpen;
    if Completable(p) {
      var g: seq<int> :| Completes(g, p);
      CompletionCoversOpen(p, g);
      CoverNames(mx, names, p, Choices(g, p));
    }
    if !NoCover(mx, Elems(AllHeads(mx.m))) {
      var rs: seq<int> :| Covers(mx, rs, Elems(AllHeads(mx.m)));
      CoverNames(mx, names, p, rs);
      var g := ReadGrid(p, rs, 81);
      OpenCoverCompletes(p, rs, g);
    }
  }

  /** A cover can be read cell by cell. */
  lemma {:induction false} ReadGrid(p: seq<int>, rs: seq<int>, n: nat) returns (g: seq<int>)
    requires |p| == 81 && CoversOpen(p, rs) && n <= 81
    ensures |g| == n
    ensures forall k | 0 <= k < n :: if p[k] != 0 then g[k] == p[k] else k * 10 + g[k] in rs && 1 <= g[k] <= 9
  {
    if n == 0 {
      g := [];
    } else {
      g := ReadGrid(p, rs, n - 1);
      if p[n - 1] != 0 {
        g := g + [p[n - 1]];
      } else {
        var v := DigitFor(p, rs, n - 1);
        g := g + [v];
      }
    }
  }

  lemma DigitFor(p: seq<int>, rs: seq<int>, k: int) returns (v: int)
    requires |p| == 81 && CoversOpen(p, rs) && IsCell(k) && p[k] == 0
    ensures k * 10 + v in rs && 1 <= v <= 9
  {
    hide NamesOf, DigitOfRow, CellOfRow;
    assert OpenName(p, k) && HasName(rs, k);
    var r :| r in rs && k in NamesOf(r);
    assert Candidate(p, rs[IndexOf(rs, r)]);
    NameOfCell(r, k);
    v := DigitOfRow(r);
  }

  /** Only the candidates for a cell have the cell's own name. */
  lemma NameOfCell(id: int, k: int)
    requires IsCell(k) && k in NamesOf(id) && IsCell(CellOfRow(id)) && 1 <= DigitOfRow(id)
    ensures id == k * 10 + DigitOfRow(id) && 1 <= DigitOfRow(id) <= 9
  {
    hide NamesOf;
    RowParts(k, 1);
    SharedName(Row, k * 10 + 1, id);
  }
}
