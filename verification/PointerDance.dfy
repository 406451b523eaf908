/**
  The pointer-based dancing-links solver. A node is named by its place in the
  pool `nodes_`: the root is node 0, and 0 in the table of columns is NULL.
 */
module PointerDance {
  import opened SudokuGrid
  import opened Choice
  import opened OpenEncoding
  import opened Rings
  import opened LinkMatrix
  import opened ExactCover
  import opened MatrixBuild
  import opened RowBuild
  import opened LinkTables

  const MAX_NODES: nat := 1 + 81 * 4 + 9 * 9 * 9 * 4

  /** Every row has four nodes, left to right: the cell's, and three under names with the digit. */
  ghost predicate RowsNamed(mx: Matrix, names: seq<int>) {
    && mx.WellFormed() && |names| == mx.tot + 1
    && forall id | id in mx.rows :: FourNamed(mx, names, id)
  }

  ghost predicate FourNamed(mx: Matrix, names: seq<int>, id: int)
    requires |names| == mx.tot + 1 && id in mx.rows
  {
    var r := mx.rows[id];
    && IsCell(CellOfRow(id)) && 1 <= DigitOfRow(id)
    && |r| == 4 && (forall q | 0 <= q < 4 :: mx.m < r[q] <= mx.tot)
    && names[r[0]] == CellOfRow(id)
    && forall q | 1 <= q < 4 :: names[r[q]] >= 100 && names[r[q]] % 10 == DigitOfRow(id)
  }

  /** Which columns are there after the digits before v of the units before i, and those of unit i, are done. */
  ghost predicate Reached(p: seq<int>, n: int, i: int, v: int)
    requires |p| == 81
  {
    OpenName(p, n) && (n < 100 || n % 100 / 10 < i || (n % 100 / 10 == i && n % 10 < v))
  }

  ghost predicate OpenUnit(p: seq<int>, n: int, u: Unit, i: int, v: int)
    requires |p| == 81
  {
    n == UnitName(u, i, v) && !Given(p, u, i, v)
  }

  lemma ReachedNext(p: seq<int>, n: int, i: int, v: int)
    requires |p| == 81 && 0 <= i < 9 && 1 <= v <= 9
    ensures Reached(p, n, i, v + 1) <==>
            Reached(p, n, i, v) || OpenUnit(p, n, Row, i, v) || OpenUnit(p, n, Col, i, v) || OpenUnit(p, n, Box, i, v)
  {
    NameParts(Row, i, v);
    NameParts(Col, i, v);
    NameParts(Box, i, v);
    if 100 <= n < 400 { PartsName(n); }
  }

  lemma ReachedRow(p: seq<int>, n: int, i: int)
    requires |p| == 81
    ensures Reached(p, n, i, 10) <==> Reached(p, n, i + 1, 1)
  {
  }

  /** The table has a column for each empty cell below upto, and no others. */
  ghost predicate CellsDone(table: seq<int>, p: seq<int>, upto: int) {
    |table| == 400 && |p| == 81 && 0 <= upto <= 81 && forall n | 0 <= n < 400 :: table[n] != 0 <==> n < upto && p[n] == 0
  }

  lemma NoCells(table: seq<int>, p: seq<int>)
    requires |table| == 400 && |p| == 81 && forall n | 0 <= n < 400 :: table[n] == 0
    ensures CellsDone(table, p, 0)
  {
  }

  lemma CellsNext(table: seq<int>, p: seq<int>, i: int, c: int)
    requires CellsDone(table, p, i) && i < 81 && c != 0
    ensures |table| == 400 && |p| == 81 && 0 <= i && table[i] == 0
    ensures CellsDone(if p[i] == 0 then table[i := c] else table, p, i + 1)
  {
  }

  lemma CellsAll(table: seq<int>, p: seq<int>)
    requires CellsDone(table, p, 81)
    ensures |table| == 400 && forall n | 0 <= n < 400 :: table[n] != 0 <==> Reached(p, n, 0, 1)
  {
    forall n | 0 <= n < 400 ensures table[n] != 0 <==> Reached(p, n, 0, 1) { ReachedAll(p, n); }
  }

  lemma ReachedAll(p: seq<int>, n: int)
    requires |p| == 81
    ensures Reached(p, n, 9, 1) <==> OpenName(p, n)
    ensures Reached(p, n, 0, 1) <==> IsCell(n) && p[n] == 0
  {
  }

  /** The table of columns and the names of the headers 1..m are inverse to each other. */
  ghost predicate NamesInTable(names: seq<int>, table: seq<int>, m: nat)
    requires m < |names| && |table| == 400
  {
    && (forall n | 0 <= n < 400 :: 0 <= table[n] <= m && (table[n] != 0 ==> names[table[n]] == n))
    && (forall c | 1 <= c <= m :: 0 <= names[c] < 400 && table[names[c]] == c)
  }

  lemma OneNameMore(names: seq<int>, table: seq<int>, m: nat, n: int)
    requires m + 1 < |names| && |table| == 400 && NamesInTable(names, table, m) && 0 <= n < 400 && table[n] == 0
    ensures NamesInTable(names[m + 1 := n], table[n := m + 1], m + 1)
  {
  }

  /** The nodes of the pool, as a value. */
  datatype Nodes = Nodes(h: Links, v: Links, siz: seq<int>, col: seq<int>, name: seq<int>) {
    ghost predicate Sound() {
      h.Closed() && v.Closed() && |h.next| == |v.next| == |col| == |name| && 0 < |siz| <= |col|
    }

    /** One node more, in column c, alone in its row. */
    function With(c: int, n: int): (r: Nodes)
      requires Sound() && 1 <= c < |siz|
      ensures r.Sound() && |r.siz| == |siz| && |r.col| == |col| + 1
    {
      Nodes(InsertAlone(h), InsertLast(v, c), Grown(siz, c), col + [c], name + [n])
    }

    /** Four nodes more, in one row. */
    function WithFour(c0: int, c1: int, c2: int, c3: int, n0: int, n1: int, n2: int, n3: int): (r: Nodes)
      requires Sound() && 1 <= c0 < |siz| && 1 <= c1 < |siz| && 1 <= c2 < |siz| && 1 <= c3 < |siz|
    {
      With(c0, n0).With(c1, n1).With(c2, n2).With(c3, n3).(h := FourLinked(h))
    }

    lemma FourRows(c0: int, c1: int, c2: int, c3: int, n0: int, n1: int, n2: int, n3: int)
      requires Sound() && 1 <= c0 < |siz| && 1 <= c1 < |siz| && 1 <= c2 < |siz| && 1 <= c3 < |siz|
      ensures var t, n := With(c0, n0).With(c1, n1).With(c2, n2).With(c3, n3), |col|;
              t.(h := PutBefore(PutBefore(PutBefore(t.h, n, n + 1), n, n + 2), n, n + 3)) ==
              WithFour(c0, c1, c2, c3, n0, n1, n2, n3)
    {
      hide PutBefore, FourLinked, InsertAlone, InsertLast, Grown;
      FourPut(h);
    }

    lemma FourParts(c0: int, c1: int, c2: int, c3: int, n0: int, n1: int, n2: int, n3: int)
      requires Sound() && 1 <= c0 < |siz| && 1 <= c1 < |siz| && 1 <= c2 < |siz| && 1 <= c3 < |siz|
      ensures var t := WithFour(c0, c1, c2, c3, n0, n1, n2, n3);
              && t.Sound() && |t.siz| == |siz| && |t.col| == |col| + 4
              && t.h == FourLinked(h) && t.v == InsertLast(InsertLast(InsertLast(InsertLast(v, c0), c1), c2), c3)
              && t.siz == Grown(Grown(Grown(Grown(siz, c0), c1), c2), c3)
              && t.col == col + [c0] + [c1] + [c2] + [c3] && t.name == name + [n0] + [n1] + [n2] + [n3]
    {
      hide FourLinked, InsertLast, Grown, InsertAlone;
      FourLinkedShape(h);
    }

    lemma FourPrefix(c0: int, c1: int, c2: int, c3: int, n0: int, n1: int, n2: int, n3: int)
      requires Sound() && 1 <= c0 < |siz| && 1 <= c1 < |siz| && 1 <= c2 < |siz| && 1 <= c3 < |siz|
      ensures name <= WithFour(c0, c1, c2, c3, n0, n1, n2, n3).name
    {
    }
  }

  /** The pool holds the rows of the candidates numbered below last. */
  ghost predicate Loaded(mx: Matrix, s: Nodes, p: seq<int>, last: int)
    requires |p| == 81
  {
    && s.Sound() && |s.col| == mx.tot + 1 && |s.siz| == mx.m + 1 && s.col == mx.col
    && Complete(mx, State(s.h, s.v, s.siz))
    && EncodesOpenUpTo(mx, s.name[..mx.m + 1], p, last) && RowsNamed(mx, s.name)
  }

  /** The sizes of the columns in heads. */
  ghost function Sizes(siz: seq<int>, heads: seq<int>): seq<int>
    requires forall k | 0 <= k < |heads| :: 0 <= heads[k] < |siz|
  {
    seq(|heads|, k requires 0 <= k < |heads| => siz[heads[k]])
  }

  class Dance {
    const inout: array<int>
    const links: LinkTable        // left, right, up, down, col and size of the nodes, and how many are in use
    const name: array<int>
    const columns: array<int>
    var stack: seq<int>

    /** An array that is none of the link arrays. */
    ghost predicate Other(a: array<int>) {
      a != links.siz && a != links.L && a != links.R && a != links.U && a != links.D && a != links.col
    }

    ghost predicate Apart() {
      && links.Apart() && links.maxSize == name.Length == MAX_NODES && columns.Length == 400 && inout.Length == 81
      && Other(inout) && Other(name) && Other(columns) && inout != name && inout != columns && name != columns
    }

    ghost predicate Valid()
      reads links, links.L, links.R, links.U, links.D, links.siz, links.col
    {
      Apart() && links.Valid()
    }

    /** The table of columns and the names of the headers are inverse to each other. */
    ghost predicate ColumnsOk()
      reads links, name, columns
    {
      Apart() && links.m < MAX_NODES && NamesInTable(name[..], columns[..], links.m)
    }

    /** Only headers so far. */
    ghost predicate Heading()
      reads links, links.L, links.R, links.U, links.D, links.siz, links.col, name, columns
    {
      && Valid() && ColumnsOk() && links.tot == links.m
      && links.matrix == NoRows(links.m, links.matrix.col, links.matrix.row)
      && Complete(links.matrix, links.View())
    }

    /** Columns for what the board leaves open, and rows for its candidates. */
    constructor (board: array<int>)
      requires board.Length == 81 && IsPuzzle(board[..])
      ensures inout == board && stack == [] && Loading(board[..], 810)
      ensures fresh(links) && fresh(name) && fresh(columns)
      ensures fresh(links.siz) && fresh(links.L) && fresh(links.R) && fresh(links.U) && fresh(links.D) && fresh(links.col)
    {
      inout := board;
      links := new LinkTable(MAX_NODES);
      name := new int[MAX_NODES];
      columns := new int[400];
      stack := [];
      new;
      hide Loading;
      Load();
    }

    /** The body of the constructor: the root, the givens, then columns, then rows. */
    method Load()
      requires Apart() && IsPuzzle(inout[..])
      modifies links, links.L, links.R, links.U, links.D, links.siz, links.col, name, columns
      ensures Loading(inout[..], 810)
    {
      hide Loading, Heading, Marks, OpenName, Reached;
      MakeRoot();
      HeadingCount();
      var rows := new bool[810](_ => false);
      var cols := new bool[810](_ => false);
      var boxes := new bool[810](_ => false);
      MarkGivens(rows, cols, boxes);
      AppendCells();
      AppendUnits(rows, cols, boxes);
      AppendRows(rows, cols, boxes);
    }

    /** The root alone. */
    method MakeRoot()
      requires Apart()
      modifies links, links.L, links.R, links.U, links.D, links.siz, links.col, name, columns
      ensures Heading() && links.m == 0 && forall n | 0 <= n < 400 :: columns[n] == 0
    {
      links.m, links.tot := 0, 0;
      links.L[0] := 0;
      links.R[0] := 0;
      links.U[0] := 0;
      links.D[0] := 0;
      links.siz[0] := 0;
      links.col[0] := 0;
      name[0] := 0;
      forall n | 0 <= n < 400 { columns[n] := 0; }
      links.matrix := NoRows(0, [0], [0]);
      assert links.col[..1] == [0];
      NoRowsWellFormed(0, [0], [0]);
      EmptyComplete(links.matrix, links.View());
    }

    /** A new header, at the end of the header list. */
    method AppendColumn(n: int)
      requires Heading() && 0 <= n < 400 && columns[n] == 0 && links.tot + 1 < MAX_NODES
      modifies links, links.L, links.R, links.U, links.D, links.siz, links.col, name, columns
      ensures Heading() && links.m == old(links.m) + 1
      ensures columns[..] == old(columns[..])[n := links.m]
    {
      hide Complete, Matrix.WellFormed, InsertLast, InsertAlone, NoRows;
      ghost var mx, st, names, table := links.matrix, links.View(), name[..], columns[..];
      CompleteFits(mx, st);
      var c := links.NewHeader();
      name[c] := n;
      columns[n] := c;
      links.matrix := NoRows(c, links.col[..c + 1], mx.row + [0]);
      AppendDone(mx, st, names, table, n);
    }

    lemma AppendDone(mx: Matrix, st: State, names: seq<int>, table: seq<int>, n: int)
      requires Apart() && links.m == links.tot == mx.m + 1 < MAX_NODES
      requires mx == NoRows(mx.m, mx.col, mx.row) && Complete(mx, st) && |mx.row| == links.m
      requires links.matrix == NoRows(links.m, links.col[..links.m + 1], mx.row + [0])
      requires |st.h.next| > 0 && st.h.Closed() && st.v.Closed()
      requires links.H() == InsertLast(st.h, 0) && links.V() == InsertAlone(st.v) && links.S() == st.siz + [0]
      requires 0 <= n < 400 && |names| == MAX_NODES && |table| == 400 && NamesInTable(names, table, mx.m) && table[n] == 0
      requires name[..] == names[links.m := n] && columns[..] == table[n := links.m]
      ensures Heading()
    {
      hide Complete, InsertLast, InsertAlone, NamesInTable;
      CompleteFits(mx, st);
      NoRowsWellFormed(links.m, links.matrix.col, links.matrix.row);
      HeaderComplete(mx.m, mx.col, mx.row, st, links.matrix.col, links.matrix.row);
      OneNameMore(names, table, mx.m, n);
    }

    // ----- the digits given ----------------------------------------------------------------

    method MarkGivens(rows: array<bool>, cols: array<bool>, boxes: array<bool>)
      requires inout.Length == 81 && IsPuzzle(inout[..])
      requires rows.Length == cols.Length == boxes.Length == 810 && rows != cols && rows != boxes && cols != boxes
      requires forall k | 0 <= k < 810 :: !rows[k] && !cols[k] && !boxes[k]
      modifies rows, cols, boxes
      ensures Marks(rows[..], inout[..], Row, 81) && Marks(cols[..], inout[..], Col, 81) && Marks(boxes[..], inout[..], Box, 81)
    {
      hide Marks, UnitOf, RowOf, ColOf, BoxOf;
      MarksNone(rows[..], cols[..], boxes[..], inout[..]);
      var i := 0;
      while i < 81
        invariant 0 <= i <= 81
        invariant Marks(rows[..], inout[..], Row, i) && Marks(cols[..], inout[..], Col, i) && Marks(boxes[..], inout[..], Box, i)
      {
        var row := i / 9;
        var col := i % 9;
        var box := row / 3 * 3 + col / 3;
        var val := inout[i];
        UnitsAt(i);
        MarkStep(rows[..], inout[..], Row, i);
        MarkStep(cols[..], inout[..], Col, i);
        MarkStep(boxes[..], inout[..], Box, i);
        ghost var r, c, b := rows[..], cols[..], boxes[..];
        rows[row * 10 + val] := true;
        cols[col * 10 + val] := true;
        boxes[box * 10 + val] := true;
        assert rows[..] == r[row * 10 + val := true] && cols[..] == c[col * 10 + val := true] && boxes[..] == b[box * 10 + val := true];
        i := i + 1;
      }
    }

    // ----- columns for what is open ------------------------------------------------------------

    method AppendCells()
      requires Heading() && links.m == 0 && (forall n | 0 <= n < 400 :: columns[n] == 0) && IsPuzzle(inout[..])
      modifies links, links.L, links.R, links.U, links.D, links.siz, links.col, name, columns
      ensures Heading() && links.m <= 81
      ensures forall n | 0 <= n < 400 :: columns[n] != 0 <==> Reached(inout[..], n, 0, 1)
    {
      hide Heading, CellsDone;
      ghost var p := inout[..];
      HeadingCount();
      NoCells(columns[..], p);
      var i := 0;
      while i < 81
        invariant 0 <= i <= 81 && Heading() && links.m <= i && inout[..] == p && CellsDone(columns[..], p, i)
      {
        HeadingCount();
        CellsNext(columns[..], p, i, links.m + 1);
        if inout[i] == 0 { AppendColumn(i); }
        i := i + 1;
      }
      CellsAll(columns[..], p);
    }

    /** A column for digit v in unit i, unless a given of that unit has the digit. */
    method AppendUnit(u: Unit, i: int, v: int, given: array<bool>)
      requires Heading() && IsPuzzle(inout[..]) && 0 <= i < 9 && 1 <= v <= 9 && links.tot + 1 < MAX_NODES
      requires given.Length == 810 && Marks(given[..], inout[..], u, 81)
      requires 100 < UnitName(u, i, v) < 400 && columns[UnitName(u, i, v)] == 0
      modifies links, links.L, links.R, links.U, links.D, links.siz, links.col, name, columns
      ensures Heading() && old(links.m) <= links.m <= old(links.m) + 1
      ensures forall n | 0 <= n < 400 :: columns[n] != 0 <==> old(columns[n]) != 0 || OpenUnit(inout[..], n, u, i, v)
    {
      MarksGiven(given[..], inout[..], u, i, v);
      if !given[i * 10 + v] {
        ghost var before := columns[..];
        AppendColumn(UnitName(u, i, v));
        assert forall n | 0 <= n < 400 :: columns[n] == columns[..][n] == (if n == UnitName(u, i, v) then links.m else before[n]);
      }
    }

    method AppendDigit(i: int, v: int, rows: array<bool>, cols: array<bool>, boxes: array<bool>)
      requires Heading() && IsPuzzle(inout[..]) && 0 <= i < 9 && 1 <= v <= 9 && links.tot + 3 < MAX_NODES
      requires rows.Length == cols.Length == boxes.Length == 810
      requires Marks(rows[..], inout[..], Row, 81) && Marks(cols[..], inout[..], Col, 81) && Marks(boxes[..], inout[..], Box, 81)
      requires forall n | 0 <= n < 400 :: columns[n] != 0 <==> Reached(inout[..], n, i, v)
      modifies links, links.L, links.R, links.U, links.D, links.siz, links.col, name, columns
      ensures Heading() && links.m <= old(links.m) + 3
      ensures forall n | 0 <= n < 400 :: columns[n] != 0 <==> Reached(inout[..], n, i, v + 1)
    {
      hide Heading, Marks, Reached, OpenUnit;
      NameParts(Row, i, v);
      NameParts(Col, i, v);
      NameParts(Box, i, v);
      NotReached(inout[..], i, v);
      HeadingCount();
      AppendUnit(Row, i, v, rows);
      OtherUnit(inout[..], i, v);
      HeadingCount();
      AppendUnit(Col, i, v, cols);
      HeadingCount();
      AppendUnit(Box, i, v, boxes);
      forall n | 0 <= n < 400 ensures columns[n] != 0 <==> Reached(inout[..], n, i, v + 1) { ReachedNext(inout[..], n, i, v); }
    }

    lemma HeadingCount()
      requires Heading()
      ensures links.tot == links.m && Apart()
    {
    }

    method AppendUnits(rows: array<bool>, cols: array<bool>, boxes: array<bool>)
      requires Heading() && IsPuzzle(inout[..]) && links.m <= 81
      requires rows.Length == cols.Length == boxes.Length == 810
      requires Marks(rows[..], inout[..], Row, 81) && Marks(cols[..], inout[..], Col, 81) && Marks(boxes[..], inout[..], Box, 81)
      requires forall n | 0 <= n < 400 :: columns[n] != 0 <==> Reached(inout[..], n, 0, 1)
      modifies links, links.L, links.R, links.U, links.D, links.siz, links.col, name, columns
      ensures Heading() && links.m <= 324
      ensures forall n | 0 <= n < 400 :: columns[n] != 0 <==> OpenName(inout[..], n)
    {
      hide Heading, Marks, Reached, OpenName;
      ghost var p := inout[..];
      HeadingCount();
      var i := 0;
      while i < 9
        invariant 0 <= i <= 9 && Heading() && Apart() && links.tot == links.m <= 81 + 27 * i && inout[..] == p
        invariant Marks(rows[..], p, Row, 81) && Marks(cols[..], p, Col, 81) && Marks(boxes[..], p, Box, 81)
        invariant forall n | 0 <= n < 400 :: columns[n] != 0 <==> Reached(p, n, i, 1)
      {
        var v := 1;
        while v < 10
          invariant 1 <= v <= 10 && Heading() && Apart() && links.tot == links.m <= 81 + 27 * i + 3 * (v - 1) && inout[..] == p
          invariant Marks(rows[..], p, Row, 81) && Marks(cols[..], p, Col, 81) && Marks(boxes[..], p, Box, 81)
          invariant forall n | 0 <= n < 400 :: columns[n] != 0 <==> Reached(p, n, i, v)
        {
          AppendDigit(i, v, rows, cols, boxes);
          HeadingCount();
          v := v + 1;
        }
        forall n | 0 <= n < 400 ensures columns[n] != 0 <==> Reached(p, n, i + 1, 1) { ReachedRow(p, n, i); }
        i := i + 1;
      }
      forall n | 0 <= n < 400 ensures columns[n] != 0 <==> OpenName(p, n) { ReachedAll(p, n); }
    }

    // ----- rows for the candidates --------------------------------------------------------------

    /** All columns are there, and the rows of the candidates numbered below last. */
    ghost predicate Loading(p: seq<int>, last: int)
      requires |p| == 81
      reads links, links.L, links.R, links.U, links.D, links.siz, links.col, name, columns
    {
      && Valid() && ColumnsOk() && Complete(links.matrix, links.View())
      && (forall n | 0 <= n < 400 :: columns[n] != 0 <==> OpenName(p, n))
      && EncodesOpenUpTo(links.matrix, name[..links.m + 1], p, last)
      && RowsNamed(links.matrix, name[..links.tot + 1])
    }

    lemma StartLoading(p: seq<int>)
      requires |p| == 81 && Heading() && forall n | 0 <= n < 400 :: columns[n] != 0 <==> OpenName(p, n)
      ensures Loading(p, 0)
    {
      hide Complete, OpenName, NamesInTable;
      TableMatches(name[..], columns[..], links.m, p);
      assert name[..][..links.m + 1] == name[..links.m + 1];
    }

    /** The nodes in use. */
    ghost function Pool(): (s: Nodes)
      reads links`m, links`tot, links.L, links.R, links.U, links.D, links.siz, links.col, name
      requires Apart() && links.Open()
      ensures s.Sound() && |s.col| == links.tot + 1 && |s.siz| == links.m + 1
    {
      Nodes(links.H(), links.V(), links.S(), links.col[..links.tot + 1], name[..links.tot + 1])
    }

    /** A new node named n, in the column of that name. */
    method NewRow(n: int) returns (r: int)
      requires Apart() && links.Open() && links.tot + 1 < MAX_NODES && 0 <= n < 400 && 1 <= columns[n] <= links.m
      modifies links`tot, links.L, links.R, links.U, links.D, links.siz, links.col, name
      ensures links.Open() && r == links.tot == old(links.tot) + 1
      ensures Pool() == old(Pool()).With(columns[n], n)
    {
      hide InsertAlone, InsertLast, Grown;
      r := links.NewInColumn(columns[n]);
      name[r] := n;
      assert name[..r + 1] == old(name[..r]) + [n];
    }

    method PutLeft(a: int, x: int)
      requires Apart() && links.Open() && 0 <= a <= links.tot && 0 <= x <= links.tot && a != x
      modifies links.L, links.R
      ensures links.Open() && Pool() == old(Pool()).(h := PutBefore(old(Pool()).h, a, x))
    {
      hide PutBefore;
      links.PutLeft(a, x);
    }

    /** Four nodes, not linked to each other yet. */
    method NewRows(a: int, b: int, c: int, d: int) returns (n0: int, n1: int, n2: int, n3: int)
      requires Apart() && links.Open() && links.tot + 4 < MAX_NODES
      requires 0 <= a < 400 && 0 <= b < 400 && 0 <= c < 400 && 0 <= d < 400
      requires 1 <= columns[a] <= links.m && 1 <= columns[b] <= links.m && 1 <= columns[c] <= links.m && 1 <= columns[d] <= links.m
      modifies links`tot, links.L, links.R, links.U, links.D, links.siz, links.col, name
      ensures links.Open() && links.tot == old(links.tot) + 4
      ensures n0 == old(links.tot) + 1 && n1 == n0 + 1 && n2 == n0 + 2 && n3 == n0 + 3
      ensures Pool() == old(Pool()).With(columns[a], a).With(columns[b], b).With(columns[c], c).With(columns[d], d)
    {
      hide Pool, Nodes.With, LinkTable.Open;
      n0 := NewRow(a);
      n1 := NewRow(b);
      n2 := NewRow(c);
      n3 := NewRow(d);
    }

    /** The four nodes of a row, linked to each other. */
    method FourNodes(a: int, b: int, c: int, d: int)
      requires Apart() && links.Open() && links.tot + 4 < MAX_NODES
      requires 0 <= a < 400 && 0 <= b < 400 && 0 <= c < 400 && 0 <= d < 400
      requires 1 <= columns[a] <= links.m && 1 <= columns[b] <= links.m && 1 <= columns[c] <= links.m && 1 <= columns[d] <= links.m
      modifies links`tot, links.L, links.R, links.U, links.D, links.siz, links.col, name
      ensures links.Open() && links.tot == old(links.tot) + 4
      ensures Pool() == old(Pool()).WithFour(columns[a], columns[b], columns[c], columns[d], a, b, c, d)
    {
      hide Pool, PutBefore, Nodes.With, FourLinked;
      ghost var s := Pool();
      var n0, nr, nc, nb := NewRows(a, b, c, d);
      s.FourRows(columns[a], columns[b], columns[c], columns[d], a, b, c, d);
      PutLeft(n0, nr);
      PutLeft(n0, nc);
      PutLeft(n0, nb);
    }

    /** Add the row of digit v in cell i. */
    method AddCandidate(i: int, v: int, ghost p: seq<int>)
      requires |p| == 81 && IsCell(i) && 1 <= v <= 9 && Loading(p, i * 10 + v) && Candidate(p, i * 10 + v)
      requires links.tot + 4 < MAX_NODES
      modifies links, links.L, links.R, links.U, links.D, links.siz, links.col, name
      ensures Loading(p, i * 10 + v + 1) && links.tot == old(links.tot) + 4 && links.m == old(links.m)
    {
      hide Loading, OpenName, Candidate, NamesOf, UnitName;
      var row := i / 9;
      var col := i % 9;
      var box := row / 3 * 3 + col / 3;
      var rn, cn, bn := UnitName(Row, row, v), UnitName(Col, col, v), UnitName(Box, box, v);
      NamesAre(i, v, rn, cn, bn);
      CandidateOpen(p, i * 10 + v, i, rn, cn, bn);
      assert CandidateAt(p, i, v, rn, cn, bn);
      AddRow(i, v, rn, cn, bn, p);
    }

    method AddRow(i: int, ghost v: int, rn: int, cn: int, bn: int, ghost p: seq<int>)
      requires |p| == 81 && IsCell(i) && 1 <= v <= 9 && Loading(p, i * 10 + v) && CandidateAt(p, i, v, rn, cn, bn)
      requires OpenName(p, i) && OpenName(p, rn) && OpenName(p, cn) && OpenName(p, bn)
      requires 0 <= i < 100 < rn < 200 < cn < 300 < bn < 400 && links.tot + 4 < MAX_NODES
      modifies links, links.L, links.R, links.U, links.D, links.siz, links.col, name
      ensures Loading(p, i * 10 + v + 1) && links.tot == old(links.tot) + 4 && links.m == old(links.m)
    {
      hide Loading, CandidateAt, OpenName, Four, Nodes.WithFour, WithRow, Loaded, NamesInTable, Pool;
      CandidateColumns(p, i * 10 + v, i, rn, cn, bn);
      ghost var mx, s := links.matrix, Pool();
      FourNodes(i, rn, cn, bn);
      links.matrix := WithRow(mx, i * 10 + v, columns[i], columns[rn], columns[cn], columns[bn]);
      AddDone(mx, s, p, i, v, rn, cn, bn);
    }

    lemma SkipId(p: seq<int>, id: int)
      requires |p| == 81 && Loading(p, id) && !Candidate(p, id)
      ensures Loading(p, id + 1)
    {
      hide Candidate, OpenName, NamesInTable, Complete, RowsNamed, EncodesOpenUpTo;
      NextId(links.matrix, name[..links.m + 1], p, id);
    }

    lemma LoadingApart(p: seq<int>, id: int)
      requires |p| == 81 && Loading(p, id)
      ensures Apart()
    {
    }

    /** The rows of one cell. */
    method AppendCellRows(i: int, rows: array<bool>, cols: array<bool>, boxes: array<bool>)
      requires IsCell(i) && inout.Length == 81 && IsPuzzle(inout[..])
      requires Loading(inout[..], i * 10) && links.tot <= 324 + 36 * i
      requires rows.Length == cols.Length == boxes.Length == 810
      requires Marks(rows[..], inout[..], Row, 81) && Marks(cols[..], inout[..], Col, 81) && Marks(boxes[..], inout[..], Box, 81)
      modifies links, links.L, links.R, links.U, links.D, links.siz, links.col, name
      ensures Loading(inout[..], (i + 1) * 10) && links.tot <= 324 + 36 * (i + 1)
    {
      hide Loading, Marks, Candidate;
      ghost var p := inout[..];
      LoadingApart(p, i * 10);
      NoCandidate(p, i, 0);
      SkipId(p, i * 10);
      if inout[i] == 0 {
        var row := i / 9;
        var col := i % 9;
        var box := row / 3 * 3 + col / 3;
        ghost var r, c, b := rows[..], cols[..], boxes[..];
        var v := 1;
        while v < 10
          invariant 1 <= v <= 10 && inout[..] == p
          invariant rows[..] == r && cols[..] == c && boxes[..] == b
          invariant Loading(p, i * 10 + v) && links.tot <= 324 + 36 * i + 4 * (v - 1)
        {
          MarkedCandidate(r, c, b, p, i, v);
          if !(rows[row * 10 + v] || cols[col * 10 + v] || boxes[box * 10 + v]) {
            AddCandidate(i, v, p);
          } else {
            SkipId(p, i * 10 + v);
          }
          v := v + 1;
        }
      } else {
        SkipTen(p, i, 9);
      }
    }

    lemma {:induction false} SkipTen(p: seq<int>, i: int, n: nat)
      requires |p| == 81 && IsCell(i) && p[i] != 0 && n <= 9 && Loading(p, i * 10 + 1)
      ensures Loading(p, i * 10 + 1 + n)
    {
      hide Loading, Candidate;
      if n > 0 {
        SkipTen(p, i, n - 1);
        NoCandidate(p, i, n);
        SkipId(p, i * 10 + n);
      }
    }

    method AppendRows(rows: array<bool>, cols: array<bool>, boxes: array<bool>)
      requires inout.Length == 81 && IsPuzzle(inout[..]) && Heading() && links.m <= 324
      requires forall n | 0 <= n < 400 :: columns[n] != 0 <==> OpenName(inout[..], n)
      requires rows.Length == cols.Length == boxes.Length == 810
      requires Marks(rows[..], inout[..], Row, 81) && Marks(cols[..], inout[..], Col, 81) && Marks(boxes[..], inout[..], Box, 81)
      modifies links, links.L, links.R, links.U, links.D, links.siz, links.col, name
      ensures Loading(inout[..], 810)
    {
      hide Loading, Marks, Heading, OpenName;
      StartLoading(inout[..]);
      HeadingCount();
      ghost var p := inout[..];
      var i := 0;
      while i < 81
        invariant 0 <= i <= 81 && inout[..] == p
        invariant Marks(rows[..], p, Row, 81) && Marks(cols[..], p, Col, 81) && Marks(boxes[..], p, Box, 81)
        invariant Loading(p, i * 10) && links.tot <= 324 + 36 * i
      {
        AppendCellRows(i, rows, cols, boxes);
        i := i + 1;
      }
    }

    /** The columns of open names that differ are there, and differ. */
    lemma CandidateColumns(p: seq<int>, id: int, a: int, b: int, c: int, d: int)
      requires |p| == 81 && Loading(p, id)
      requires OpenName(p, a) && OpenName(p, b) && OpenName(p, c) && OpenName(p, d)
      requires 0 <= a < 100 < b < 200 < c < 300 < d < 400
      ensures Apart() && links.Open() && Loaded(links.matrix, Pool(), p, id) && |links.matrix.columns| == links.matrix.m + 1 == links.m + 1
      ensures Four(links.matrix, columns[a], columns[b], columns[c], columns[d]) && NamesInTable(Pool().name, columns[..], links.m)
      ensures 1 <= columns[a] <= links.m && 1 <= columns[b] <= links.m && 1 <= columns[c] <= links.m && 1 <= columns[d] <= links.m
      ensures Pool().name[columns[a]] == a && Pool().name[columns[b]] == b && Pool().name[columns[c]] == c && Pool().name[columns[d]] == d
      ensures forall n | 0 <= n < 400 :: columns[n] != 0 <==> OpenName(p, n)
    {
      hide OpenName, RowsNamed, EncodesOpenUpTo;
      CompleteFits(links.matrix, links.View());
      assert Pool().name[..links.m + 1] == name[..links.m + 1];
    }

    lemma AddDone(mx: Matrix, s: Nodes, p: seq<int>, i: int, v: int, b: int, c: int, d: int)
      requires Apart() && links.Open() && |p| == 81 && IsCell(i) && 1 <= v <= 9 && 0 <= b < 400 && 0 <= c < 400 && 0 <= d < 400
      requires Loaded(mx, s, p, i * 10 + v) && |mx.columns| == mx.m + 1 == links.m + 1 && CandidateAt(p, i, v, b, c, d)
      requires Four(mx, columns[i], columns[b], columns[c], columns[d]) && NamesInTable(s.name, columns[..], links.m)
      requires forall n | 0 <= n < 400 :: columns[n] != 0 <==> OpenName(p, n)
      requires s.name[columns[i]] == i && s.name[columns[b]] == b && s.name[columns[c]] == c && s.name[columns[d]] == d
      requires links.matrix == WithRow(mx, i * 10 + v, columns[i], columns[b], columns[c], columns[d])
      requires Pool() == s.WithFour(columns[i], columns[b], columns[c], columns[d], i, b, c, d)
      ensures Loading(p, i * 10 + v + 1)
    {
      hide Loaded, Candidate, OpenName, Four, NamesInTable, Nodes.WithFour, WithRow, CandidateAt;
      LoadedOneMore(mx, s, p, i, v, b, c, d, columns[i], columns[b], columns[c], columns[d]);
      FourColumns(mx, columns[i], columns[b], columns[c], columns[d]);
      s.FourPrefix(columns[i], columns[b], columns[c], columns[d], i, b, c, d);
      NamesPrefix(s.name, Pool().name, name[..], columns[..], links.m);
      PoolLoading(p, i * 10 + v + 1);
    }

    lemma PoolLoading(p: seq<int>, last: int)
      requires |p| == 81 && Apart() && links.Open() && ColumnsOk() && Loaded(links.matrix, Pool(), p, last)
      requires forall n | 0 <= n < 400 :: columns[n] != 0 <==> OpenName(p, n)
      ensures Loading(p, last)
    {
      hide OpenName, NamesInTable, EncodesOpenUpTo, RowsNamed, Complete;
      CompleteFits(links.matrix, State(Pool().h, Pool().v, Pool().siz));
      assert Pool().name[..links.m + 1] == name[..links.m + 1];
    }

    // ----- solving ---------------------------------------------------------------------------

    /** The structure represents the columns in heads, and the stack holds nodes of the matrix. */
    ghost predicate Solving(heads: seq<int>)
      reads this, links, links.L, links.R, links.U, links.D, links.siz, links.col, name
    {
      && Valid() && Represents(links.matrix, links.View(), heads)
      && RowsNamed(links.matrix, name[..links.tot + 1]) && LinkMatrix.Nodes(links.matrix, stack)
    }

    /** The first active column of size at most one, or else the first of least size. */
    method GetMinColumn(ghost heads: seq<int>) returns (c: int, ghost k: nat)
      requires Apart() && links.Valid() && Represents(links.matrix, links.View(), heads) && heads != []
      ensures forall t | 0 <= t < |heads| :: 1 <= heads[t] <= links.m < links.siz.Length
      ensures Chosen(Sizes(links.siz[..], heads), k) && c == heads[k]
    {
      hide LinkTable.Valid, LinkTable.View, Represents, Chosen, Scanned;
      links.HeadStep(heads, 0);
      HeadsInRange(heads);
      ghost var sizes := Sizes(links.siz[..], heads);
      k := 0;
      c := links.R[0];
      var minSize := links.siz[c];
      if minSize > 1 {
        ghost var j: nat := 1;
        links.HeadStep(heads, 1);
        var cc := links.R[c];
        ScanStarts(sizes);
        while cc != 0
          invariant j <= |heads| && cc == At(0, heads, j + 1) && (cc == 0 <==> j == |heads|)
          invariant k < |heads| && c == heads[k] && minSize == sizes[k] && Scanned(sizes, j, k)
          decreases |heads| - j
        {
          links.HeadStep(heads, j);
          ScanNext(sizes, j, k);
          if minSize > links.siz[cc] {
            c, k := cc, j;
            minSize := links.siz[cc];
            if minSize <= 1 { return; }
          }
          j := j + 1;
          links.HeadStep(heads, j);
          cc := links.R[cc];
        }
        ScanEnds(sizes, k);
      } else {
        FirstChosen(sizes);
      }
    }

    lemma HeadsInRange(heads: seq<int>)
      requires Apart() && links.Valid() && Represents(links.matrix, links.View(), heads)
      ensures forall t | 0 <= t < |heads| :: 1 <= heads[t] <= links.m < links.siz.Length
    {
      forall t | 0 <= t < |heads| ensures 1 <= heads[t] <= links.m { assert heads[t] in heads; }
    }

    /** Whichever of a row's four nodes n is: the row's cell and digit. */
    method DecodeNode(n: int) returns (cell: int, val: int)
      requires Valid() && links.View().Fits(links.matrix) && RowsOk(links.matrix, links.View())
      requires RowsNamed(links.matrix, name[..links.tot + 1]) && links.m < n <= links.tot
      ensures cell == CellOfRow(links.matrix.row[n]) && val == DigitOfRow(links.matrix.row[n]) && IsCell(cell)
    {
      hide Matrix.WellFormed, CellOfRow, DigitOfRow, LinkTable.View, State.Fits, RowsOk, RowsNamed;
      ghost var r, id := NodeRow(n);
      ghost var q0, s := IndexOf(r, n), 0;
      ghost var q := q0;
      var x := n;
      cell, val := -1, -1;
      while cell == -1 || val == -1
        invariant 0 <= s <= 4 && 0 <= q < 4 && q == (if q0 + s < 4 then q0 + s else q0 + s - 4) && x == r[q]
        invariant cell == if (q0 == 0 && s >= 1) || q0 + s > 4 then CellOfRow(id) else -1
        invariant val == if (q0 > 0 && s >= 1) || s >= 2 then DigitOfRow(id) else -1
        decreases 4 - s
      {
        if name[x] < 100 { cell := name[x]; } else { val := name[x] % 10; }
        links.LinkValues(x);
        x := links.R[x];
        q, s := if q == 3 then 0 else q + 1, s + 1;
      }
    }

    /** A node's row: four named nodes in a ring, n among them. */
    lemma NodeRow(n: int) returns (r: seq<int>, id: int)
      requires Valid() && links.View().Fits(links.matrix) && RowsOk(links.matrix, links.View())
      requires RowsNamed(links.matrix, name[..links.tot + 1]) && links.m < n <= links.tot
      ensures id == links.matrix.row[n] && |r| == 4 && n in r && IsCell(CellOfRow(id)) && 1 <= DigitOfRow(id)
      ensures forall q | 0 <= q < 4 :: links.m < r[q] <= links.tot && links.View().h.next[r[q]] == r[if q == 3 then 0 else q + 1]
      ensures name[r[0]] == CellOfRow(id) && forall q | 1 <= q < 4 :: name[r[q]] >= 100 && name[r[q]] % 10 == DigitOfRow(id)
    {
      id := links.matrix.row[n];
      r := links.matrix.rows[id];
      assert FourNamed(links.matrix, name[..links.tot + 1], id);
      assert IsRing(links.View().h, r);
      forall q | 0 <= q < 4 ensures links.View().h.next[r[q]] == r[if q == 3 then 0 else q + 1] {
        assert links.View().h.next[r[q]] == After(r, q);
      }
    }

    /** Write the cell and digit of each stacked node into the board. */
    method WriteStack()
      requires Valid() && links.View().Fits(links.matrix) && RowsOk(links.matrix, links.View())
      requires RowsNamed(links.matrix, name[..links.tot + 1]) && LinkMatrix.Nodes(links.matrix, stack)
      modifies inout
      ensures inout[..] == Written(old(inout[..]), RowIds(links.matrix, stack))
    {
      hide RowsNamed, Matrix.WellFormed, RowsOk, State.Fits, LinkTable.View, CellOfRow, DigitOfRow;
      ghost var board := inout[..];
      var i := 0;
      while i < |stack|
        invariant 0 <= i <= |stack| && inout[..] == Written(board, RowIds(links.matrix, stack[..i]))
      {
        var n := stack[i];
        links.LinkValues(n);
        var cell, val := DecodeNode(n);
        assert RowIds(links.matrix, stack[..i + 1]) == RowIds(links.matrix, stack[..i]) + [links.matrix.row[n]];
        inout[cell] := val;
        i := i + 1;
      }
      assert stack[..i] == stack;
    }

    /**
      Search for an exact cover of the active columns. On success the board is
      written with the cover found, together with what the stack held before. On
      failure there is no cover, and everything is as it was.
     */
    method Solve(ghost heads: seq<int>) returns (ok: bool, ghost rs: seq<int>)
      requires Solving(heads)
      modifies this`stack, links.L, links.R, links.U, links.D, links.siz, inout
      ensures Valid()
      ensures ok ==> Covers(links.matrix, rs, Elems(heads))
      ensures ok ==> inout[..] == Written(old(inout[..]), RowIds(links.matrix, old(stack)) + rs)
      ensures !ok ==> links.View() == old(links.View()) && inout[..] == old(inout[..]) && stack == old(stack)
      ensures !ok ==> NoCover(links.matrix, Elems(heads))
      decreases |heads|, 1
    {
      RingStep(links.View().h, 0, heads, |heads|);
      links.LinkValues(0);
      if links.L[0] == 0 {
        WriteStack();
        assert RowIds(links.matrix, stack) + [] == RowIds(links.matrix, stack);
        return true, [];
      }
      ok, rs := Branch(heads);
    }

    /** Choose a column and try its rows one after another. */
    method Branch(ghost heads: seq<int>) returns (ok: bool, ghost rs: seq<int>)
      requires Solving(heads) && heads != []
      modifies this`stack, links.L, links.R, links.U, links.D, links.siz, inout
      ensures Valid()
      ensures ok ==> Covers(links.matrix, rs, Elems(heads))
      ensures ok ==> inout[..] == Written(old(inout[..]), RowIds(links.matrix, old(stack)) + rs)
      ensures !ok ==> links.View() == old(links.View()) && inout[..] == old(inout[..]) && stack == old(stack)
      ensures !ok ==> NoCover(links.matrix, Elems(heads))
      decreases |heads|, 0, 1
    {
      hide Represents, InBranch, Matrix.WellFormed, Removed, State.Fits, Covers, Written, RowsNamed, RowIds, LinkTable.Valid, LinkTable.View;
      var c, k := GetMinColumn(heads);
      assert c in heads;
      ghost var st := links.View();
      StartBranch(links.matrix, heads, st, c);
      links.Remove(c, heads);
      ghost var s1 := links.View();
      links.LinkValues(c);
      var row := links.D[c];
      ghost var p: nat := 0;
      while row != c
        invariant Valid() && links.View() == s1 && InBranch(links.matrix, heads, st, c, p, row)
        invariant stack == old(stack) && inout[..] == old(inout[..])
        decreases |ColList(links.matrix, Elems(heads), c)| - p
      {
        BranchFacts(links.matrix, heads, st, c, p, row);
        ok, rs := TryRow(row, c, heads);
        if ok { return; }
        NextBranch(links.matrix, heads, st, c, p, row);
        p := p + 1;
        links.LinkValues(row);
        row := links.D[row];
      }
      BranchFacts(links.matrix, heads, st, c, p, row);
      links.Recover(c, st, heads);
      return false, [];
    }

    /** The body of that loop: stack the row, cover its other columns, search on, and undo on failure. */
    method TryRow(row: int, ghost c: int, ghost heads: seq<int>) returns (ok: bool, ghost rs: seq<int>)
      requires c in heads && Solving(Without(heads, c))
      requires Elems(Without(heads, c)) == Elems(heads) - {c}
      requires links.matrix.m < row <= links.matrix.tot && row in links.matrix.AliveNodes(Elems(heads)) && links.matrix.col[row] == c
      modifies this`stack, links.L, links.R, links.U, links.D, links.siz, inout
      ensures Valid()
      ensures ok ==> Covers(links.matrix, rs, Elems(heads))
      ensures ok ==> inout[..] == Written(old(inout[..]), RowIds(links.matrix, old(stack)) + rs)
      ensures !ok ==> links.View() == old(links.View()) && inout[..] == old(inout[..]) && stack == old(stack)
      ensures !ok ==> NoCoverWith(links.matrix, Elems(heads), links.matrix.row[row])
      decreases |heads|, 0, 0
    {
      hide Represents, Matrix.WellFormed, Removed, State.Fits, Covers, Trace, NoCover, NoCoverWith, Written, RowsNamed,
           LinkTable.Valid, LinkTable.View;
      links.LinkValues(row);
      ghost var before, id := stack, links.matrix.row[row];
      stack := stack + [row];
      ghost var tr := links.CoverRow(row, Elems(heads), Without(heads, c));
      RowCovered(links.matrix, row, Elems(heads), tr);
      assert RowIds(links.matrix, stack) == RowIds(links.matrix, before) + [id];
      ok, rs := Solve(tr[|tr| - 1].heads);
      if ok {
        Extend(links.matrix, id, rs, Elems(heads));
        assert RowIds(links.matrix, before) + [id] + rs == RowIds(links.matrix, before) + ([id] + rs);
        rs := [id] + rs;
      } else {
        stack := stack[..|stack| - 1];
        RowFails(links.matrix, Elems(heads), id);
        StartUncover(links.matrix, row, tr, links.View());
        links.UncoverRow(row, tr, |tr| - 1);
      }
    }
  }

  // ----- what a solved board holds -------------------------------------------------------------

  ghost function RowIds(mx: Matrix, ns: seq<int>): (ids: seq<int>)
    requires mx.WellFormed() && LinkMatrix.Nodes(mx, ns)
    ensures |ids| == |ns|
  {
    seq(|ns|, k requires 0 <= k < |ns| => mx.row[ns[k]])
  }

  /** The board after the digits of ids are written into their cells, in order. */
  ghost function Written(board: seq<int>, ids: seq<int>): (g: seq<int>)
    ensures |g| == |board|
  {
    if ids == [] then board
    else
      var id := ids[|ids| - 1];
      var g := Written(board, ids[..|ids| - 1]);
      if 0 <= CellOfRow(id) < |g| then g[CellOfRow(id) := DigitOfRow(id)] else g
  }

  lemma {:induction false} WrittenAt(board: seq<int>, ids: seq<int>, k: int)
    requires 0 <= k < |board|
    ensures (exists id :: id in ids && CellOfRow(id) == k && Written(board, ids)[k] == DigitOfRow(id))
         || (Written(board, ids)[k] == board[k] && forall id | id in ids :: CellOfRow(id) != k)
  {
    if ids != [] {
      var t, id := ids[..|ids| - 1], ids[|ids| - 1];
      assert ids == t + [id];
      WrittenAt(board, t, k);
      assert id in ids;
    }
  }

  /** Written into the puzzle, a cover is what it reads as. */
  lemma WrittenReads(p: seq<int>, rs: seq<int>)
    requires |p| == 81 && CoversOpen(p, rs)
    ensures ReadsOpen(Written(p, rs), p, rs)
  {
    hide NamesOf, OpenName, Written, CoversOpen, Candidate;
    var g := Written(p, rs);
    forall k | IsCell(k) ensures if p[k] != 0 then g[k] == p[k] else k * 10 + g[k] in rs && 1 <= g[k] <= 9 {
      WrittenReadsAt(p, rs, k);
    }
  }

  lemma WrittenReadsAt(p: seq<int>, rs: seq<int>, k: int)
    requires |p| == 81 && CoversOpen(p, rs) && IsCell(k)
    ensures var g := Written(p, rs); if p[k] != 0 then g[k] == p[k] else k * 10 + g[k] in rs && 1 <= g[k] <= 9
  {
    hide Written, CoversOpen, CellOfRow, DigitOfRow;
    WrittenAt(p, rs, k);
    forall id | id in rs
      ensures IsCell(CellOfRow(id)) && p[CellOfRow(id)] == 0 && CellOfRow(id) * 10 + DigitOfRow(id) == id && 1 <= DigitOfRow(id) <= 9
    {
      WrittenCell(p, rs, id);
    }
    if p[k] == 0 {
      var v := DigitFor(p, rs, k);
      RowParts(k, v);
    }
  }

  lemma WrittenCell(p: seq<int>, rs: seq<int>, id: int)
    requires |p| == 81 && CoversOpen(p, rs) && id in rs
    ensures IsCell(CellOfRow(id)) && p[CellOfRow(id)] == 0 && 1 <= DigitOfRow(id) <= 9 && CellOfRow(id) * 10 + DigitOfRow(id) == id
  {
    assert Candidate(p, rs[IndexOf(rs, id)]);
  }

  /**
    The pointer solver on any board of digits 0..9, whatever its givens: it
    returns true if and only if the board can be completed, and then leaves it
    completed, every given kept; otherwise the board is as it was.
   */
  method SolveDancingLinks(board: array<int>) returns (ok: bool)
    requires board.Length == 81 && IsPuzzle(board[..])
    modifies board
    ensures ok <==> Completable(old(board[..]))
    ensures ok ==> Completes(board[..], old(board[..]))
    ensures !ok ==> board[..] == old(board[..])
  {
    hide Completes, Completable, NoCover, Written, Covers, IsPuzzle, Dance.Loading, EncodesOpen;
    ghost var p := board[..];
    var d := new Dance(board);
    LoadedSolving(d, p);
    ghost var mx, names := d.links.matrix, d.name[..d.links.m + 1];
    ghost var rs;
    ok, rs := d.Solve(AllHeads(d.links.m));
    SearchDecides(mx, names, p, board[..], rs, ok);
  }

  /** The board after a search that started with an empty stack. */
  lemma SearchDecides(mx: Matrix, names: seq<int>, p: seq<int>, g: seq<int>, rs: seq<int>, ok: bool)
    requires IsPuzzle(p) && EncodesOpen(mx, names, p)
    requires ok ==> Covers(mx, rs, Elems(AllHeads(mx.m))) && g == Written(p, RowIds(mx, []) + rs)
    requires !ok ==> NoCover(mx, Elems(AllHeads(mx.m)))
    ensures (ok <==> Completable(p)) && (ok ==> Completes(g, p))
  {
    hide Completes, Written, Covers, IsPuzzle, NoCover, Matrix.WellFormed;
    OpenEncodingFaithful(mx, names, p);
    if ok {
      assert RowIds(mx, []) + rs == rs;
      FoundCompletes(mx, names, p, rs);
    }
  }

  lemma LoadedSolving(d: Dance, p: seq<int>)
    requires IsPuzzle(p) && d.stack == [] && d.Loading(p, 810)
    ensures d.Solving(AllHeads(d.links.m)) && EncodesOpen(d.links.matrix, d.name[..d.links.m + 1], p) && d.links.m == d.links.matrix.m
    ensures d.Apart()
  {
    CompleteRepresents(d.links.matrix, d.links.View());
  }

  lemma FoundCompletes(mx: Matrix, names: seq<int>, p: seq<int>, rs: seq<int>)
    requires IsPuzzle(p) && EncodesOpen(mx, names, p) && Covers(mx, rs, Elems(AllHeads(mx.m)))
    ensures Completes(Written(p, rs), p)
  {
    CoverNames(mx, names, p, rs);
    WrittenReads(p, rs);
    OpenCoverCompletes(p, rs, Written(p, rs));
  }

  // ----- lemmas on the matrix -----------------------------------------------------------------

  lemma TableMatches(names: seq<int>, table: seq<int>, m: nat, p: seq<int>)
    requires m < |names| && |table| == 400 && |p| == 81 && NamesInTable(names, table, m)
    requires forall n | 0 <= n < 400 :: table[n] != 0 <==> OpenName(p, n)
    ensures NamesMatch(names[..m + 1], m, p)
  {
    forall n | OpenName(p, n) ensures HasHeader(names[..m + 1], m, n) {
      assert names[..m + 1][table[n]] == n;
    }
  }

  /** b, c and d name digit v in the row, the column and the box of cell i. */
  ghost predicate CandidateAt(p: seq<int>, i: int, v: int, b: int, c: int, d: int)
    requires |p| == 81
  {
    && IsCell(i) && 1 <= v <= 9 && Candidate(p, i * 10 + v) && NamesOf(i * 10 + v) == {i, b, c, d}
    && b >= 100 && c >= 100 && d >= 100 && b % 10 == c % 10 == d % 10 == v
  }

  /** A candidate's names are open. */
  lemma CandidateOpen(p: seq<int>, id: int, i: int, b: int, c: int, d: int)
    requires |p| == 81 && Candidate(p, id) && NamesOf(id) == {i, b, c, d}
    ensures OpenName(p, i) && OpenName(p, b) && OpenName(p, c) && OpenName(p, d)
  {
    hide Candidate, OpenName, NamesOf;
    NamesOpen(p, id, i);
    NamesOpen(p, id, b);
    NamesOpen(p, id, c);
    NamesOpen(p, id, d);
  }

  lemma NamesAre(i: int, v: int, b: int, c: int, d: int)
    requires IsCell(i) && 1 <= v <= 9
    requires b == UnitName(Row, RowOf(i), v) && c == UnitName(Col, ColOf(i), v) && d == UnitName(Box, BoxOf(i), v)
    ensures 0 <= i < 100 < b < 200 < c < 300 < d < 400 && NamesOf(i * 10 + v) == {i, b, c, d}
    ensures b % 10 == c % 10 == d % 10 == v
  {
    hide RowOf, ColOf, BoxOf, CellOfRow, DigitOfRow;
    RowParts(i, v);
    UnitNameRange(Row, i, v);
    UnitNameRange(Col, i, v);
    UnitNameRange(Box, i, v);
  }

  lemma UnitNameRange(u: Unit, i: int, v: int)
    requires IsCell(i) && 1 <= v <= 9
    ensures UnitBase(u) < UnitName(u, UnitOf(u, i), v) < UnitBase(u) + 100 && UnitName(u, UnitOf(u, i), v) % 10 == v
  {
    CellInUnit(u, i);
    NameParts(u, UnitOf(u, i), v);
  }

  lemma FourColumns(mx: Matrix, c0: int, c1: int, c2: int, c3: int)
    requires Four(mx, c0, c1, c2, c3)
    ensures 1 <= c0 <= mx.m && 1 <= c1 <= mx.m && 1 <= c2 <= mx.m && 1 <= c3 <= mx.m
  {
  }

  lemma NoSuchRow(mx: Matrix, names: seq<int>, p: seq<int>, id: int)
    requires |p| == 81 && EncodesOpenUpTo(mx, names, p, id)
    ensures mx.WellFormed() && id !in mx.rows
  {
  }

  lemma NextId(mx: Matrix, names: seq<int>, p: seq<int>, id: int)
    requires |p| == 81 && EncodesOpenUpTo(mx, names, p, id) && !Candidate(p, id)
    ensures EncodesOpenUpTo(mx, names, p, id + 1)
  {
    hide Candidate;
    assert forall r | Candidate(p, r) && r < id + 1 :: r < id;
  }

  lemma RowFourNamed(mx: Matrix, names: seq<int>, p: seq<int>, i: int, v: int, b: int, c: int, d: int, c0: int, c1: int, c2: int, c3: int)
    requires |p| == 81 && |names| == mx.tot + 1 && mx.m <= mx.tot && RowsNamed(mx, names)
    requires CandidateAt(p, i, v, b, c, d) && Four(mx, c0, c1, c2, c3) && |mx.columns| == mx.m + 1
    requires WithRow(mx, i * 10 + v, c0, c1, c2, c3).WellFormed()
    ensures RowsNamed(WithRow(mx, i * 10 + v, c0, c1, c2, c3), names + [i] + [b] + [c] + [d])
  {
    hide Candidate, Matrix.WellFormed, NamesOf;
    var id := i * 10 + v;
    RowParts(i, v);
    var x, all := WithRow(mx, id, c0, c1, c2, c3), names + [i] + [b] + [c] + [d];
    forall r | r in x.rows ensures FourNamed(x, all, r) {
      if r != id { assert FourNamed(mx, names, r); } else { NewFourNamed(mx, names, id, i, b, c, d, c0, c1, c2, c3); }
    }
  }

  /** The matrix with the candidate's row encodes one more. */
  lemma RowEncoded(mx: Matrix, names: seq<int>, p: seq<int>, i: int, v: int, b: int, c: int, d: int, c0: int, c1: int, c2: int, c3: int)
    requires |p| == 81 && |names| == mx.tot + 1 && mx.m <= mx.tot && RowsNamed(mx, names)
    requires EncodesOpenUpTo(mx, names[..mx.m + 1], p, i * 10 + v) && CandidateAt(p, i, v, b, c, d)
    requires Four(mx, c0, c1, c2, c3) && names[c0] == i && names[c1] == b && names[c2] == c && names[c3] == d
    requires WithRow(mx, i * 10 + v, c0, c1, c2, c3).WellFormed()
    ensures var x := WithRow(mx, i * 10 + v, c0, c1, c2, c3);
            EncodesOpenUpTo(x, names[..mx.m + 1], p, i * 10 + v + 1) && RowsNamed(x, names + [i] + [b] + [c] + [d])
  {
    hide Candidate, Matrix.WellFormed, Matrix.RowCols, NamesOf, OpenName, RowsNamed;
    var id := i * 10 + v;
    NoSuchRow(mx, names[..mx.m + 1], p, id);
    var x, hs := WithRow(mx, id, c0, c1, c2, c3), names[..mx.m + 1];
    NoSuchRow(mx, hs, p, id);
    assert |x.columns| == x.m + 1 && x.tot == mx.tot + 4;
    WithRowCols(mx, id, c0, c1, c2, c3);
    RowParts(i, v);
    forall r | r in x.rows ensures RowNamed(x, hs, r) {
      if r == id { NewNamed(hs, mx.m, i, b, c, d, c0, c1, c2, c3); } else { assert RowNamed(mx, hs, r); }
    }
    RowFourNamed(mx, names, p, i, v, b, c, d, c0, c1, c2, c3);
  }

  lemma NewFourNamed(mx: Matrix, names: seq<int>, id: int, i: int, b: int, c: int, d: int, c0: int, c1: int, c2: int, c3: int)
    requires |names| == mx.tot + 1 && mx.m <= mx.tot && |mx.columns| == mx.m + 1 && Four(mx, c0, c1, c2, c3)
    requires IsCell(i) && CellOfRow(id) == i && 1 <= DigitOfRow(id)
    requires b >= 100 && c >= 100 && d >= 100 && b % 10 == c % 10 == d % 10 == DigitOfRow(id)
    ensures FourNamed(WithRow(mx, id, c0, c1, c2, c3), names + [i] + [b] + [c] + [d], id)
  {
    var x, all := WithRow(mx, id, c0, c1, c2, c3), names + [i] + [b] + [c] + [d];
    var n := |names|;
    assert all[n] == i && all[n + 1] == b && all[n + 2] == c && all[n + 3] == d;
  }

  lemma NewNamed(hs: seq<int>, m: nat, i: int, b: int, c: int, d: int, c0: int, c1: int, c2: int, c3: int)
    requires |hs| == m + 1 && 1 <= c0 <= m && 1 <= c1 <= m && 1 <= c2 <= m && 1 <= c3 <= m
    requires forall x, y | 1 <= x < y <= m :: hs[x] != hs[y]
    requires hs[c0] == i && hs[c1] == b && hs[c2] == c && hs[c3] == d
    ensures forall x | 1 <= x <= m :: x in {c0, c1, c2, c3} <==> hs[x] in {i, b, c, d}
  {
  }

  /** The pool with the candidate's four nodes holds one row more. */
  lemma LoadedOneMore(mx: Matrix, s: Nodes, p: seq<int>, i: int, v: int, b: int, c: int, d: int, c0: int, c1: int, c2: int, c3: int)
    requires |p| == 81 && Loaded(mx, s, p, i * 10 + v) && CandidateAt(p, i, v, b, c, d) && |mx.columns| == mx.m + 1
    requires Four(mx, c0, c1, c2, c3) && s.name[c0] == i && s.name[c1] == b && s.name[c2] == c && s.name[c3] == d
    ensures s.Sound() && |s.siz| == mx.m + 1
    ensures Loaded(WithRow(mx, i * 10 + v, c0, c1, c2, c3), s.WithFour(c0, c1, c2, c3, i, b, c, d), p, i * 10 + v + 1)
  {
    hide Complete, EncodesOpenUpTo, RowsNamed, CandidateAt, InsertLast, Grown, FourLinked, Matrix.WellFormed, Nodes.WithFour;
    s.FourParts(c0, c1, c2, c3, i, b, c, d);
    var x, t := WithRow(mx, i * 10 + v, c0, c1, c2, c3), s.WithFour(c0, c1, c2, c3, i, b, c, d);
    NoSuchRow(mx, s.name[..mx.m + 1], p, i * 10 + v);
    RowComplete(mx, State(s.h, s.v, s.siz), i * 10 + v, c0, c1, c2, c3, t.v, t.siz);
    RowEncoded(mx, s.name, p, i, v, b, c, d, c0, c1, c2, c3);
    assert t.name[..x.m + 1] == s.name[..mx.m + 1];
  }

  lemma NamesPrefix(a: seq<int>, b: seq<int>, names: seq<int>, table: seq<int>, m: nat)
    requires m < |a| && |table| == 400 && NamesInTable(a, table, m) && a <= b <= names
    ensures NamesInTable(names, table, m)
  {
    assert forall c | 1 <= c <= m :: names[c] == a[c];
  }

  // ----- lemmas on the marks -----------------------------------------------------------------

  /** given says which digits the cells below upto put into the units of one kind. */
  ghost predicate Marks(given: seq<bool>, p: seq<int>, u: Unit, upto: int)
    requires |p| == 81
  {
    |given| == 810 && forall i, v | 0 <= i < 9 && 0 <= v <= 9 :: MarkAt(given, p, u, i, v, upto)
  }

  ghost predicate MarkAt(given: seq<bool>, p: seq<int>, u: Unit, i: int, v: int, upto: int)
    requires |given| == 810 && |p| == 81 && 0 <= i < 9 && 0 <= v <= 9
  {
    given[i * 10 + v] <==> GivenBelow(p, u, i, v, upto)
  }

  ghost predicate GivenBelow(p: seq<int>, u: Unit, i: int, v: int, upto: int)
    requires |p| == 81
  {
    exists k :: 0 <= k < upto && IsCell(k) && UnitOf(u, k) == i && p[k] == v
  }

  lemma MarksNone(r: seq<bool>, c: seq<bool>, b: seq<bool>, p: seq<int>)
    requires |p| == 81 && |r| == |c| == |b| == 810 && forall k | 0 <= k < 810 :: !r[k] && !c[k] && !b[k]
    ensures Marks(r, p, Row, 0) && Marks(c, p, Col, 0) && Marks(b, p, Box, 0)
  {
  }

  lemma UnitsAt(k: int)
    requires IsCell(k)
    ensures k / 9 == UnitOf(Row, k) && k % 9 == UnitOf(Col, k) && k / 9 / 3 * 3 + k % 9 / 3 == UnitOf(Box, k)
  {
  }

  lemma MarkStep(given: seq<bool>, p: seq<int>, u: Unit, k: int)
    requires IsPuzzle(p) && Marks(given, p, u, k) && IsCell(k)
    ensures 0 <= UnitOf(u, k) < 9
    ensures Marks(given[UnitOf(u, k) * 10 + p[k] := true], p, u, k + 1)
  {
    hide UnitOf;
    CellInUnit(u, k);
    var given2, next := given[UnitOf(u, k) * 10 + p[k] := true], k + 1;
    forall i, v | 0 <= i < 9 && 0 <= v <= 9 ensures MarkAt(given2, p, u, i, v, next) {
      assert MarkAt(given, p, u, i, v, k);
      if GivenBelow(p, u, i, v, k) {
        var l :| 0 <= l < k && IsCell(l) && UnitOf(u, l) == i && p[l] == v;
        assert GivenBelow(p, u, i, v, k + 1);
      }
      RowParts(i, 0);
      if i * 10 + v == UnitOf(u, k) * 10 + p[k] {
        assert i == UnitOf(u, k) && v == p[k];
        assert GivenBelow(p, u, i, v, k + 1);
      }
    }
  }

  lemma MarksGiven(given: seq<bool>, p: seq<int>, u: Unit, i: int, v: int)
    requires |p| == 81 && Marks(given, p, u, 81) && 0 <= i < 9 && 1 <= v <= 9
    ensures |given| == 810 && i * 10 + v < 810
    ensures given[i * 10 + v] <==> Given(p, u, i, v)
  {
    assert MarkAt(given, p, u, i, v, 81);
    assert GivenBelow(p, u, i, v, 81) <==> Given(p, u, i, v);
  }

  lemma NoCandidate(p: seq<int>, i: int, v: int)
    requires |p| == 81 && IsCell(i) && 0 <= v <= 9 && (p[i] != 0 || v == 0)
    ensures !Candidate(p, i * 10 + v)
  {
    RowParts(i, v);
  }

  lemma MarkedCandidate(rows: seq<bool>, cols: seq<bool>, boxes: seq<bool>, p: seq<int>, i: int, v: int)
    requires |p| == 81 && IsCell(i) && 1 <= v <= 9 && p[i] == 0
    requires Marks(rows, p, Row, 81) && Marks(cols, p, Col, 81) && Marks(boxes, p, Box, 81)
    ensures |rows| == |cols| == |boxes| == 810 && 0 <= RowOf(i) < 9 && 0 <= ColOf(i) < 9 && 0 <= BoxOf(i) < 9
    ensures Candidate(p, i * 10 + v) <==> !(rows[RowOf(i) * 10 + v] || cols[ColOf(i) * 10 + v] || boxes[BoxOf(i) * 10 + v])
  {
    hide Given, Marks;
    CellInUnit(Row, i);
    CellInUnit(Col, i);
    CellInUnit(Box, i);
    RowParts(i, v);
    MarksGiven(rows, p, Row, RowOf(i), v);
    MarksGiven(cols, p, Col, ColOf(i), v);
    MarksGiven(boxes, p, Box, BoxOf(i), v);
  }

  lemma NotReached(p: seq<int>, i: int, v: int)
    requires |p| == 81 && 0 <= i < 9 && 1 <= v <= 9
    ensures !Reached(p, UnitName(Row, i, v), i, v) && !Reached(p, UnitName(Col, i, v), i, v) && !Reached(p, UnitName(Box, i, v), i, v)
  {
    NameParts(Row, i, v);
    NameParts(Col, i, v);
    NameParts(Box, i, v);
  }

  lemma OtherUnit(p: seq<int>, i: int, v: int)
    requires |p| == 81 && 0 <= i < 9 && 1 <= v <= 9
    ensures !OpenUnit(p, UnitName(Col, i, v), Row, i, v) && !OpenUnit(p, UnitName(Box, i, v), Row, i, v)
    ensures !OpenUnit(p, UnitName(Box, i, v), Col, i, v)
  {
  }
}
