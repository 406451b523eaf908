/** Solving a Sudoku puzzle with the array-based dancing-links solver. */
module SudokuDlx {
  import opened SudokuGrid
  import opened SudokuEncoding
  import opened LinkMatrix
  import opened ExactCover
  import opened MatrixBuild
  import opened LinkTables
  import opened Dlx

  /** b is a with one row more: row id, with ones in the columns cs. */
  ghost predicate OneRowMore(a: Matrix, b: Matrix, id: int, cs: set<int>) {
    && a.WellFormed() && b.WellFormed() && b.m == a.m && b.tot == a.tot + |cs|
    && (forall r :: r in b.rows <==> r in a.rows || r == id)
    && (forall r | r in a.rows && r != id :: b.RowCols(r) == a.RowCols(r))
    && id in b.rows && b.RowCols(id) == cs
  }

  lemma FirstOne(a: Matrix, id: int, c: int)
    requires a.WellFormed() && 1 <= c <= a.m && id !in a.rows
    ensures OneRowMore(a, WithOne(a, id, c), id, {c})
  {
    WithOneWellFormed(a, id, c);
  }

  lemma AnotherOne(a: Matrix, b: Matrix, id: int, cs: set<int>, c: int)
    requires OneRowMore(a, b, id, cs) && 1 <= c <= a.m && c !in cs
    ensures OneRowMore(a, WithOne(b, id, c), id, cs + {c})
  {
    WithOneWellFormed(b, id, c);
  }

  /** Insert the row of digit num in cell (row, col): four ones. */
  method Insert(row: int, col: int, num: int, solver: DLX)
    requires 1 <= row <= 9 && 1 <= col <= 9 && 1 <= num <= 9
    requires solver.Ready()
    requires solver.links.m == 324 && solver.links.tot + 4 < solver.maxSize && 729 < solver.maxSize
    requires GetId(row, col, num) !in solver.links.matrix.rows
    modifies solver.links, solver.links.L, solver.links.R, solver.links.U, solver.links.D, solver.first, solver.links.siz, solver.links.col, solver.row
    ensures solver.Ready()
    ensures OneRowMore(old(solver.links.matrix), solver.links.matrix, GetId(row, col, num),
                       ColumnsOf((row - 1) * 9 + (col - 1), num))
  {
    hide Complete, OneRowMore, WithOne, Inserted, DLX.Ready, DLX.Valid, DLX.FirstOk, LinkTable.Valid, LinkTable.View, Matrix.WellFormed, GetId, ColumnsOf;
    ReadyFacts(solver);
    var dx := (row - 1) / 3 + 1;
    var dy := (col - 1) / 3 + 1;
    var room := (dx - 1) * 3 + dy;
    var id := GetId(row, col, num);
    var f1 := (row - 1) * 9 + num;
    var f2 := 81 + (col - 1) * 9 + num;
    var f3 := 81 * 2 + (room - 1) * 9 + num;
    var f4 := 81 * 3 + (row - 1) * 9 + col;
    ghost var a := solver.links.matrix;
    CandidateColumns(row, col, num, id, f1, f2, f3, f4);
    AddOne(solver, a, id, {}, f1);
    AddOne(solver, a, id, {f1}, f2);
    AddOne(solver, a, id, {f1} + {f2}, f3);
    AddOne(solver, a, id, {f1} + {f2} + {f3}, f4);
  }

  /** Insert a further one into the row being built, which has ones in cs so far. */
  method AddOne(solver: DLX, ghost a: Matrix, id: int, ghost cs: set<int>, f: int)
    requires solver.Ready()
    requires if cs == {} then solver.links.matrix == a && id !in a.rows else OneRowMore(a, solver.links.matrix, id, cs)
    requires a.WellFormed() && 1 <= f <= a.m && f !in cs && 0 <= id < solver.maxSize && a.tot + |cs| + 1 < solver.maxSize
    modifies solver.links, solver.links.L, solver.links.R, solver.links.U, solver.links.D, solver.first, solver.links.siz, solver.links.col, solver.row
    ensures solver.Ready()
    ensures OneRowMore(a, solver.links.matrix, id, cs + {f})
  {
    hide Complete, OneRowMore, WithOne, Inserted, DLX.Ready, DLX.Valid, DLX.FirstOk, LinkTable.Valid, LinkTable.View, Matrix.WellFormed;
    ReadyFacts(solver);
    if cs == {} {
      FirstOne(a, id, f);
      assert {} + {f} == {f};
    } else {
      RowMore(a, solver.links.matrix, id, cs);
      AnotherOne(a, solver.links.matrix, id, cs, f);
    }
    solver.Insert(id, f);
  }

  lemma ReadyFacts(solver: DLX)
    requires solver.Ready()
    ensures solver.links.matrix.WellFormed() && solver.links.matrix.m == solver.links.m && solver.links.matrix.tot == solver.links.tot
    ensures solver.Apart()
  {
  }

  lemma RowMore(a: Matrix, b: Matrix, id: int, cs: set<int>)
    requires OneRowMore(a, b, id, cs)
    ensures b.WellFormed() && b.m == a.m && b.tot == a.tot + |cs| && id in b.rows && b.RowCols(id) == cs
  {
  }

  lemma CandidateColumns(row: int, col: int, num: int, id: int, f1: int, f2: int, f3: int, f4: int)
    requires 1 <= row <= 9 && 1 <= col <= 9 && 1 <= num <= 9
    requires id == GetId(row, col, num) && f1 == (row - 1) * 9 + num && f2 == 81 + (col - 1) * 9 + num
    requires f3 == 81 * 2 + ((row - 1) / 3 * 3 + (col - 1) / 3) * 9 + num && f4 == 81 * 3 + (row - 1) * 9 + col
    ensures 1 <= f1 <= 81 < f2 <= 162 < f3 <= 243 < f4 <= 324 && 1 <= id <= 729
    ensures {f1} + {f2} + {f3} + {f4} == ColumnsOf((row - 1) * 9 + (col - 1), num)
  {
    hide RowOf, ColOf, BoxOf;
    var k := (row - 1) * 9 + (col - 1);
    UnitsOfCell(row, col);
    IdRoundTrip(row, col, num);
    NineDigits(RowOf(k), num, RowOf(k), num);
    NineDigits(ColOf(k), num, ColOf(k), num);
    NineDigits(BoxOf(k), num, BoxOf(k), num);
    NineDigits(row - 1, col, row - 1, col);
    ColumnsAre(k, num, f1, f2, f3, f4);
  }

  lemma ColumnsAre(k: int, v: int, f1: int, f2: int, f3: int, f4: int)
    requires RowColumn(k, v) == f1 && ColColumn(k, v) == f2 && BoxColumn(k, v) == f3 && CellColumn(k) == f4
    ensures {f1} + {f2} + {f3} + {f4} == ColumnsOf(k, v)
  {
    hide RowColumn, ColColumn, BoxColumn, CellColumn;
  }

  lemma UnitsOfCell(row: int, col: int)
    requires 1 <= row <= 9 && 1 <= col <= 9
    ensures var k := (row - 1) * 9 + (col - 1);
            && IsCell(k) && RowOf(k) == row - 1 && ColOf(k) == col - 1
            && BoxOf(k) == (row - 1) / 3 * 3 + (col - 1) / 3 && 0 <= BoxOf(k) < 9
  {
    var k := (row - 1) * 9 + (col - 1);
    NineSplit(row - 1, col - 1);
    UnitRange(k);
  }

  // ----- loading a puzzle ------------------------------------------------------------

  /** The candidates numbered up to last are in the matrix, as far as the puzzle allows them. */
  ghost predicate Loaded(mx: Matrix, p: seq<int>, last: nat)
    requires |p| == 81
  {
    EncodesUpTo(mx, p, last) && mx.tot <= 324 + 4 * last
  }

  lemma LoadedNothing(mx: Matrix, p: seq<int>)
    requires |p| == 81 && mx.WellFormed() && mx.m == mx.tot == 324 && mx.rows == map[]
    ensures Loaded(mx, p, 0)
  {
  }

  lemma LoadedSkip(mx: Matrix, p: seq<int>, last: nat)
    requires |p| == 81 && Loaded(mx, p, last) && !Allowed(p, last + 1)
    ensures Loaded(mx, p, last + 1)
  {
  }

  lemma LoadedOne(a: Matrix, b: Matrix, p: seq<int>, last: nat)
    requires |p| == 81 && Loaded(a, p, last) && Allowed(p, last + 1)
    requires OneRowMore(a, b, last + 1, ColumnsOf(IdCell(last + 1), IdDigit(last + 1)))
    ensures Loaded(b, p, last + 1)
  {
    hide Matrix.WellFormed, Matrix.RowCols, ColumnsOf, IdCell, IdDigit, Allowed;
    FourColumns(IdCell(last + 1), IdDigit(last + 1));
  }

  lemma FourColumns(k: int, v: int)
    ensures |ColumnsOf(k, v)| <= 4
  {
    AtMostFour(RowColumn(k, v), ColColumn(k, v), BoxColumn(k, v), CellColumn(k));
  }

  lemma AtMostFour(a: int, b: int, c: int, d: int)
    ensures |{a, b, c, d}| <= 4
  {
    assert {a, b, c, d} == {a} + {b} + {c} + {d};
  }

  /** Where cell k stands in the answer block. */
  function BlockIndex(k: int): int { (k / 9 + 1) * 11 + k % 9 + 1 }

  lemma BlockOfCell(row: int, col: int)
    requires 1 <= row <= 9 && 1 <= col <= 9
    ensures BlockIndex((row - 1) * 9 + (col - 1)) == row * 11 + col
  {
    NineSplit(row - 1, col - 1);
  }

  lemma BlockIndexInjective(j: int, k: int)
    requires IsCell(j) && IsCell(k)
    ensures 0 <= BlockIndex(k) < 121
    ensures BlockIndex(j) == BlockIndex(k) ==> j == k
  {
    hide BlockIndex;
    var q, r := BlockParts(j);
    var t, u := BlockParts(k);
  }

  lemma BlockParts(k: int) returns (q: int, r: int)
    requires IsCell(k)
    ensures 0 <= q < 9 && 0 <= r < 9 && k == 9 * q + r && BlockIndex(k) == 11 * q + r + 12
  {
    q, r := k / 9, k % 9;
  }

  /** The first n cells of the puzzle are in the answer block. */
  ghost predicate Copied(block: seq<int>, p: seq<int>, n: int)
    requires |p| == 81 && |block| == 121
  {
    forall k | 0 <= k < n && IsCell(k) :: 0 <= BlockIndex(k) < 121 && block[BlockIndex(k)] == p[k]
  }

  lemma CopyNext(block: seq<int>, p: seq<int>, n: int)
    requires |p| == 81 && |block| == 121 && IsCell(n) && Copied(block, p, n)
    ensures 0 <= BlockIndex(n) < 121 && Copied(block[BlockIndex(n) := p[n]], p, n + 1)
  {
    BlockIndexInjective(n, n);
    forall k | 0 <= k < n + 1 ensures 0 <= BlockIndex(k) < 121 && block[BlockIndex(n) := p[n]][BlockIndex(k)] == p[k] {
      BlockIndexInjective(k, n);
      BlockIndexInjective(n, k);
    }
  }

  /** A solver built for Sudoku, with rows being put in. */
  ghost predicate Loading(solver: DLX, p: seq<int>, last: nat)
    requires |p| == 81
    reads solver.links, solver.links.L, solver.links.R, solver.links.U, solver.links.D, solver.links.siz, solver.links.col, solver.row, solver.first
  {
    && solver.Ready()
    && 3244 < solver.maxSize && Loaded(solver.links.matrix, p, last)
  }

  /** Put in digit v of cell (i, j), unless another digit is given there. */
  method LoadCandidate(i: int, j: int, v: int, p: seq<int>, solver: DLX)
    requires IsPuzzle(p) && 1 <= i <= 9 && 1 <= j <= 9 && 1 <= v <= 9
    requires Loading(solver, p, ((i - 1) * 9 + (j - 1)) * 9 + (v - 1))
    modifies solver.links, solver.links.L, solver.links.R, solver.links.U, solver.links.D, solver.first, solver.links.siz, solver.links.col, solver.row
    ensures Loading(solver, p, ((i - 1) * 9 + (j - 1)) * 9 + v)
  {
    hide DLX.Ready, DLX.Valid, DLX.FirstOk, LinkTable.Valid, LinkTable.View, Complete, OneRowMore, ColumnsOf, Matrix.WellFormed, IdCell, IdDigit;
    ghost var last: nat := ((i - 1) * 9 + (j - 1)) * 9 + (v - 1);
    IdRoundTrip(i, j, v);
    assert GetId(i, j, v) == last + 1;
    ReadyFacts(solver);
    ghost var a := solver.links.matrix;
    var digit := p[(i - 1) * 9 + j - 1];
    if digit != 0 && digit != v {
      LoadedSkip(a, p, last);
    } else {
      Insert(i, j, v, solver);
      LoadedOne(a, solver.links.matrix, p, last);
    }
  }

  /** Copy one cell of the puzzle, and put in its candidates. */
  method LoadCell(i: int, j: int, p: seq<int>, solver: DLX)
    requires IsPuzzle(p) && 1 <= i <= 9 && 1 <= j <= 9 && solver.Apart()
    requires Loading(solver, p, ((i - 1) * 9 + (j - 1)) * 9)
    requires Copied(solver.ans[..], p, (i - 1) * 9 + (j - 1))
    modifies solver.links, solver.links.L, solver.links.R, solver.links.U, solver.links.D, solver.first, solver.links.siz, solver.links.col, solver.row, solver.ans
    ensures Loading(solver, p, ((i - 1) * 9 + (j - 1)) * 9 + 9)
    ensures Copied(solver.ans[..], p, (i - 1) * 9 + (j - 1) + 1)
  {
    hide Loading, Copied;
    ghost var k := (i - 1) * 9 + (j - 1);
    ghost var block := solver.ans[..];
    BlockOfCell(i, j);
    CopyNext(block, p, k);
    solver.ans[i * 11 + j] := p[(i - 1) * 9 + j - 1];
    assert solver.ans[..] == block[BlockIndex(k) := p[k]];
    var v := 1;
    while v <= 9
      invariant 1 <= v <= 10
      invariant Loading(solver, p, k * 9 + (v - 1))
      invariant solver.ans[..] == block[BlockIndex(k) := p[k]]
    {
      LoadCandidate(i, j, v, p, solver);
      v := v + 1;
    }
  }

  /** All cells, row after row. */
  method LoadPuzzle(p: seq<int>, solver: DLX)
    requires IsPuzzle(p) && solver.Apart() && Loading(solver, p, 0)
    modifies solver.links, solver.links.L, solver.links.R, solver.links.U, solver.links.D, solver.first, solver.links.siz, solver.links.col, solver.row, solver.ans
    ensures Loading(solver, p, 729) && Copied(solver.ans[..], p, 81)
  {
    hide Loading;
    var i := 1;
    while i <= 9
      invariant 1 <= i <= 10
      invariant Loading(solver, p, (i - 1) * 81) && Copied(solver.ans[..], p, (i - 1) * 9)
    {
      var j := 1;
      while j <= 9
        invariant 1 <= j <= 10
        invariant Loading(solver, p, ((i - 1) * 9 + (j - 1)) * 9) && Copied(solver.ans[..], p, (i - 1) * 9 + (j - 1))
      {
        LoadCell(i, j, p, solver);
        j := j + 1;
      }
      i := i + 1;
    }
  }

  // ----- solving ---------------------------------------------------------------------

  /** The answer block holds, for every cell some id stands for, the digit of such an id. */
  lemma {:induction false} DecodedAt(before: seq<int>, ids: seq<int>, x: int)
    requires |before| == 121 && AllIds(ids) && 0 <= x < 121
    ensures (exists id :: id in ids && CellOf(id) == x && Decoded(before, ids)[x] == ValueOf(id))
         || (Decoded(before, ids)[x] == before[x] && forall id | id in ids :: CellOf(id) != x)
  {
    if ids != [] {
      var t, id := ids[..|ids| - 1], ids[|ids| - 1];
      assert ids == t + [id];
      CellInBlock(id);
      DecodedAt(before, t, x);
      assert id in ids;
    }
  }

  /** The 81 cells of the answer block. */
  function ReadBlock(block: seq<int>): (g: seq<int>)
    requires |block| == 121
    ensures |g| == 81
  {
    seq(81, k requires 0 <= k < 81 => block[(k / 9 + 1) * 11 + k % 9 + 1])
  }

  lemma CoverReads(mx: Matrix, p: seq<int>, rs: seq<int>, cs: set<int>, before: seq<int>)
    requires |p| == 81 && Encodes(mx, p) && AllColumns(cs) && Covers(mx, rs, cs) && AllIds(rs) && |before| == 121
    ensures Reads(ReadBlock(Decoded(before, rs)), rs)
  {
    hide Encodes, Covers, AllColumns, Decoded;
    var g := ReadBlock(Decoded(before, rs));
    forall k | IsCell(k) ensures HasRow(rs, k, g[k]) {
      var i := FillsCell(mx, p, rs, cs, k);
      AnswerAt(mx, p, rs, cs, before, k, i);
    }
  }

  lemma AnswerAt(mx: Matrix, p: seq<int>, rs: seq<int>, cs: set<int>, before: seq<int>, k: int, i: int)
    requires |p| == 81 && Encodes(mx, p) && Covers(mx, rs, cs) && AllIds(rs) && |before| == 121 && IsCell(k)
    requires 0 <= i < |rs| && IdCell(rs[i]) == k
    ensures 0 <= BlockIndex(k) < 121 && HasRow(rs, k, Decoded(before, rs)[BlockIndex(k)])
  {
    hide Encodes, Covers, Decoded, IdCell, IdDigit, BlockIndex, CellOf, ValueOf;
    BlockIndexInjective(k, k);
    DecodedAt(before, rs, BlockIndex(k));
    SameCell(rs[i]);
    assert rs[i] in rs;
    var id :| id in rs && CellOf(id) == BlockIndex(k) && Decoded(before, rs)[BlockIndex(k)] == ValueOf(id);
    CoverAllowed(mx, p, rs, cs, id);
    AllowedRange(p, id);
    SameCell(id);
    BlockIndexInjective(IdCell(id), k);
  }

  lemma CoverAllowed(mx: Matrix, p: seq<int>, rs: seq<int>, cs: set<int>, id: int)
    requires |p| == 81 && Encodes(mx, p) && Covers(mx, rs, cs) && id in rs
    ensures Allowed(p, id)
  {
    assert rs[IndexOf(rs, id)] in mx.rows;
  }

  lemma SameCell(id: int)
    ensures CellOf(id) == BlockIndex(IdCell(id)) && ValueOf(id) == IdDigit(id)
  {
  }

  /**
    Solve a puzzle. Any puzzle that can be completed is returned completed,
    every given kept; a puzzle that cannot be is returned as it came.
   */
  method Solve(p: seq<int>) returns (out: seq<int>)
    requires IsPuzzle(p)
    ensures |out| == 81
    ensures Completable(p) ==> Completes(out, p)
    ensures !Completable(p) ==> out == p
  {
    hide Loading, DLX.Ready, DLX.Valid, DLX.FirstOk, LinkTable.Valid, LinkTable.View, Complete, NoRows, Represents, Decodable,
         DLX.Found, Decoded, AllColumns, Encodes, Copied, ReadBlock, Completes, NoCover, Covers, Matrix.WellFormed, AllIds;
    var solver := new DLX(100020);
    solver.Build(729, 324);
    StartLoading(solver, p);
    LoadPuzzle(p, solver);
    Loaded729(solver, p);
    ghost var mx, before := solver.links.matrix, solver.ans[..];
    var ok, e := solver.Dance(1, AllHeads(324));
    out := ReadBlock(solver.ans[..]);
    if ok {
      FoundCompletes(solver, p, e, before, out);
    } else {
      NotFound(mx, p, before, out);
    }
  }

  lemma StartLoading(solver: DLX, p: seq<int>)
    requires |p| == 81 && solver.Ready()
    requires solver.maxSize == 100020
    requires solver.links.matrix == NoRows(324, solver.links.col[..325], solver.row[..325])
    ensures Loading(solver, p, 0) && Copied(solver.ans[..], p, 0) && solver.Apart()
  {
    LoadedNothing(solver.links.matrix, p);
  }

  lemma Loaded729(solver: DLX, p: seq<int>)
    requires |p| == 81 && Loading(solver, p, 729)
    ensures solver.Valid() && Represents(solver.links.matrix, solver.links.View(), AllHeads(324)) && Decodable(solver.links.matrix)
    ensures Encodes(solver.links.matrix, p) && AllColumns(Elems(AllHeads(324)))
    ensures solver.stk.Length == solver.maxSize > 3244 && AllIds(solver.stk[1..1]) && solver.ans.Length == 121
  {
    CompleteRepresents(solver.links.matrix, solver.links.View());
    AllHeadsMembers(324);
  }

  lemma FoundCompletes(solver: DLX, p: seq<int>, e: int, before: seq<int>, out: seq<int>)
    requires |p| == 81 && Encodes(solver.links.matrix, p) && AllColumns(Elems(AllHeads(324)))
    requires solver.Found(1, e, Elems(AllHeads(324))) && |before| == 121 && solver.ans.Length == 121
    requires solver.ans[..] == Decoded(before, solver.stk[1..e]) && out == ReadBlock(solver.ans[..])
    ensures Completes(out, p)
  {
    var rs, cs := solver.stk[1..e], Elems(AllHeads(324));
    CoverReads(solver.links.matrix, p, rs, cs, before);
    CoverCompletes(solver.links.matrix, p, rs, cs, out);
  }

  lemma NotFound(mx: Matrix, p: seq<int>, before: seq<int>, out: seq<int>)
    requires |p| == 81 && Encodes(mx, p) && AllColumns(Elems(AllHeads(324))) && NoCover(mx, Elems(AllHeads(324)))
    requires |before| == 121 && Copied(before, p, 81) && out == ReadBlock(before)
    ensures !Completable(p) && out == p
  {
    EncodingFaithful(mx, p, Elems(AllHeads(324)));
    forall k | IsCell(k) ensures out[k] == p[k] { BlockIndexInjective(k, k); }
  }
}
