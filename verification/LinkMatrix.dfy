/**
  The sparse 0/1 matrix held by a dancing-links solver, and what removing and
  recovering a column does to its links, as functions on values.

  Nodes are numbered as in the solver: 0 is the root, 1..m are the column
  headers, m+1..tot are the ones of the matrix.
 */
module LinkMatrix {
  import opened Rings

  /** What does not change while the solver runs. */
  datatype Matrix = Matrix(
    m: nat, tot: nat,
    col: seq<int>,               // column of a matrix node
    row: seq<int>,               // row identifier of a matrix node
    columns: seq<seq<int>>,      // columns[c]: the nodes of column c, top to bottom
    rows: map<int, seq<int>>     // rows[r]: the nodes of row r, left to right
  ) {
    ghost predicate WellFormed() {
      && m <= tot && |col| == |row| == tot + 1 && |columns| == m + 1
      && (forall x | m < x <= tot :: 1 <= col[x] <= m && x in columns[col[x]])
      && (forall x | m < x <= tot :: row[x] in rows && x in rows[row[x]])
      && (forall c | 1 <= c <= m :: Distinct(columns[c]) && forall x | x in columns[c] :: m < x <= tot && col[x] == c)
      && (forall r | r in rows :: RowOk(r))
    }

    /** y is column c's header or one of its nodes. */
    predicate InColumn(c: int, y: int) {
      y == c || (m < y < |col| && col[y] == c)
    }

    function ColOf(x: int): int { if 0 <= x < |col| then col[x] else 0 }

    /** A row is not empty and has at most one node in each column. */
    ghost predicate RowOk(r: int)
      requires r in rows && |col| == |row| == tot + 1
    {
      && rows[r] != [] && Distinct(rows[r])
      && (forall x | x in rows[r] :: m < x <= tot && row[x] == r)
      && (forall i, j | 0 <= i < j < |rows[r]| :: ColOf(rows[r][i]) != ColOf(rows[r][j]))
    }

    /** The columns in which row r has a one. */
    ghost function RowCols(r: int): (cs: set<int>)
      requires WellFormed() && r in rows
      ensures forall c | c in cs :: 1 <= c <= m
    {
      assert RowOk(r);
      set x | x in rows[r] :: col[x]
    }

    /** Rows all of whose columns are among cs: the rows still in the matrix. */
    ghost function AliveNodes(cs: set<int>): set<int>
      requires WellFormed()
    {
      set x | m < x <= tot && RowCols(row[x]) <= cs
    }

    /** The other nodes of x's row, in the order met going right from x. */
    ghost function Others(x: int): (ys: seq<int>)
      requires WellFormed() && m < x <= tot
      ensures forall k | 0 <= k < |ys| :: m < ys[k] <= tot
    {
      assert RowOk(row[x]);
      var r := rows[row[x]];
      var p := IndexOf(r, x);
      var ys := r[p + 1..] + r[..p];
      assert forall k | 0 <= k < |ys| :: ys[k] in r;
      ys
    }

    lemma OthersMembers(x: int)
      requires WellFormed() && m < x <= tot
      ensures forall y :: y in Others(x) <==> y in rows[row[x]] && y != x
      ensures forall y | y in Others(x) :: m < y <= tot && row[y] == row[x]
      ensures Distinct([x] + Others(x))
    {
      assert RowOk(row[x]);
      RotationMembers(rows[row[x]], IndexOf(rows[row[x]], x));
    }
  }

  /** Going round from position p meets every other member once. */
  lemma RotationMembers(r: seq<int>, p: nat)
    requires Distinct(r) && p < |r|
    ensures forall y :: y in r[p + 1..] + r[..p] <==> y in r && y != r[p]
    ensures Distinct([r[p]] + (r[p + 1..] + r[..p]))
  {
    var ys := r[p + 1..] + r[..p];
    forall y | y in r && y != r[p] ensures y in ys {
      var q := IndexOf(r, y);
      if q < p { assert r[..p][q] == y; } else { assert r[p + 1..][q - p - 1] == y; }
    }
    RotateDistinct(r, p);
  }

  ghost function IndexOf(s: seq<int>, x: int): (k: nat)
    requires x in s
    ensures k < |s| && s[k] == x
  {
    if s[0] == x then 0 else 1 + IndexOf(s[1..], x)
  }

  /** The members of s that are in `alive`, in order. */
  ghost function Keep(s: seq<int>, alive: set<int>): seq<int> {
    if s == [] then [] else KeepOne(s[0], alive) + Keep(s[1..], alive)
  }

  ghost function KeepOne(x: int, alive: set<int>): seq<int> {
    if x in alive then [x] else []
  }

  lemma {:induction false} KeepMembers(s: seq<int>, alive: set<int>)
    ensures forall x :: x in Keep(s, alive) <==> x in s && x in alive
    ensures Distinct(s) ==> Distinct(Keep(s, alive))
  {
    if s != [] {
      KeepMembers(s[1..], alive);
      assert s == [s[0]] + s[1..];
    }
  }

  lemma {:induction false} KeepSame(s: seq<int>, a: set<int>, b: set<int>)
    requires forall x | x in s :: x in a <==> x in b
    ensures Keep(s, a) == Keep(s, b)
  {
    if s != [] {
      assert s[0] in s;
      assert KeepOne(s[0], a) == KeepOne(s[0], b);
      KeepSame(s[1..], a, b);
      assert Keep(s, a) == KeepOne(s[0], a) + Keep(s[1..], a);
      assert Keep(s, b) == KeepOne(s[0], b) + Keep(s[1..], b);
    }
  }

  lemma {:induction false} KeepAll(s: seq<int>, a: set<int>)
    requires forall x | x in s :: x in a
    ensures Keep(s, a) == s
  {
    if s != [] {
      assert s[0] in s;
      KeepAll(s[1..], a);
      assert s == [s[0]] + s[1..];
    }
  }

  lemma {:induction false} KeepConcat(s: seq<int>, t: seq<int>, alive: set<int>)
    ensures Keep(s + t, alive) == Keep(s, alive) + Keep(t, alive)
  {
    if s == [] {
      assert s + t == t;
    } else {
      hide Keep, KeepOne;
      var u := s[1..];
      KeepConcat(u, t, alive);
      KeepCons(s[0], u + t, alive);
      KeepCons(s[0], u, alive);
      Join(s[0], u, t);
      assert s == [s[0]] + u;
    }
  }

  lemma Join(x: int, u: seq<int>, t: seq<int>)
    ensures ([x] + u) + t == [x] + (u + t)
  {
  }

  lemma SplitAround(s: seq<int>, x: int) returns (a: seq<int>, b: seq<int>)
    requires Distinct(s) && x in s
    ensures s == a + ([x] + b) && x !in a && x !in b
  {
    var p := IndexOf(s, x);
    a, b := s[..p], s[p + 1..];
  }

  /** Taking an alive member x out of `alive` drops exactly x from the list. */
  lemma KeepMinus(s: seq<int>, alive: set<int>, x: int) returns (a: seq<int>, b: seq<int>)
    requires Distinct(s) && x in s && x in alive
    ensures Keep(s, alive) == a + [x] + b
    ensures Keep(s, alive - {x}) == a + b
  {
    var s0, s1 := SplitAround(s, x);
    a, b := Keep(s0, alive), Keep(s1, alive);
    KeepAround(s0, x, s1, alive);
    KeepAround(s0, x, s1, alive - {x});
    KeepSame(s0, alive, alive - {x});
    KeepSame(s1, alive, alive - {x});
  }

  lemma KeepAround(a: seq<int>, x: int, b: seq<int>, alive: set<int>)
    ensures Keep(a + ([x] + b), alive) ==
            if x in alive then Keep(a, alive) + [x] + Keep(b, alive) else Keep(a, alive) + Keep(b, alive)
  {
    KeepConcat(a, [x] + b, alive);
    KeepCons(x, b, alive);
  }

  lemma KeepCons(x: int, b: seq<int>, alive: set<int>)
    ensures Keep([x] + b, alive) == KeepOne(x, alive) + Keep(b, alive)
  {
    assert ([x] + b)[1..] == b;
  }

  /** s without the first x in it. */
  ghost function Without(s: seq<int>, x: int): (t: seq<int>)
    requires x in s
    ensures |t| == |s| - 1
  {
    var k := IndexOf(s, x);
    s[..k] + s[k + 1..]
  }

  lemma WithoutMembers(s: seq<int>, x: int)
    requires x in s && Distinct(s)
    ensures Distinct(Without(s, x)) && forall y :: y in Without(s, x) <==> y in s && y != x
  {
    var k, t := IndexOf(s, x), Without(s, x);
    forall y | y in s && y != x ensures y in t {
      var q := IndexOf(s, y);
      if q < k { assert t[q] == y; } else { assert t[q - 1] == y; }
    }
  }

  ghost function Elems(s: seq<int>): set<int> { set x | x in s }

  // ----- the changing state ----------------------------------------------------

  /** h: right/left links, v: down/up links, siz: column sizes. */
  datatype State = State(h: Links, v: Links, siz: seq<int>) {
    ghost predicate Fits(mx: Matrix) {
      && mx.WellFormed() && h.Closed() && v.Closed()
      && |h.next| == |v.next| == mx.tot + 1 && |siz| == mx.m + 1
    }
  }

  /** Column c lists exactly its alive nodes and its size is their number. */
  ghost predicate ColumnOk(mx: Matrix, st: State, c: int, alive: set<int>)
    requires st.Fits(mx) && 1 <= c <= mx.m
  {
    && IsRing(st.v, [c] + Keep(mx.columns[c], alive))
    && st.siz[c] == |Keep(mx.columns[c], alive)|
  }

  ghost predicate ColumnsOk(mx: Matrix, st: State, cs: set<int>, alive: set<int>)
    requires st.Fits(mx)
  {
    forall c | c in cs :: 1 <= c <= mx.m && ColumnOk(mx, st, c, alive)
  }

  ghost predicate RowsOk(mx: Matrix, st: State)
    requires st.Fits(mx)
  {
    forall r | r in mx.rows :: IsRing(st.h, mx.rows[r])
  }

  /** The structure represents the sub-matrix of the columns in `heads` and the rows inside them. */
  ghost predicate Represents(mx: Matrix, st: State, heads: seq<int>) {
    && st.Fits(mx)
    && IsRing(st.h, [0] + heads)
    && (forall c | c in heads :: 1 <= c <= mx.m)
    && RowsOk(mx, st)
    && ColumnsOk(mx, st, Elems(heads), mx.AliveNodes(Elems(heads)))
  }

  /** The nodes linked in column c while the columns in cs are active. */
  ghost function ColList(mx: Matrix, cs: set<int>, c: int): (list: seq<int>)
    requires mx.WellFormed() && 1 <= c <= mx.m
    ensures Nodes(mx, list)
  {
    KeepMembers(mx.columns[c], mx.AliveNodes(cs));
    var list := Keep(mx.columns[c], mx.AliveNodes(cs));
    assert forall k | 0 <= k < |list| :: list[k] in list;
    list
  }

  lemma ColListMembers(mx: Matrix, cs: set<int>, c: int)
    requires mx.WellFormed() && 1 <= c <= mx.m
    ensures Distinct(ColList(mx, cs, c))
    ensures forall x :: x in ColList(mx, cs, c) <==> x in mx.AliveNodes(cs) && mx.col[x] == c
  {
    KeepMembers(mx.columns[c], mx.AliveNodes(cs));
  }

  /** Node x leaves its column. */
  function DropNode(mx: Matrix, st: State, x: int): (r: State)
    requires st.Fits(mx) && mx.m < x <= mx.tot
    ensures r.Fits(mx) && r.h == st.h
  {
    var c := mx.col[x];
    State(st.h, st.v.Unlink(x), st.siz[c := st.siz[c] - 1])
  }

  /** Node x comes back to its column. */
  function BackNode(mx: Matrix, st: State, x: int): (r: State)
    requires st.Fits(mx) && mx.m < x <= mx.tot
    ensures r.Fits(mx) && r.h == st.h
  {
    var c := mx.col[x];
    State(st.h, st.v.Relink(x), st.siz[c := st.siz[c] + 1])
  }

  ghost predicate Nodes(mx: Matrix, xs: seq<int>) {
    forall k | 0 <= k < |xs| :: mx.m < xs[k] <= mx.tot
  }

  ghost function DropNodes(mx: Matrix, st: State, xs: seq<int>): (r: State)
    requires st.Fits(mx) && Nodes(mx, xs)
    ensures r.Fits(mx) && r.h == st.h
  {
    if xs == [] then st
    else
      assert xs[|xs| - 1] in xs;
      DropNode(mx, DropNodes(mx, st, xs[..|xs| - 1]), xs[|xs| - 1])
  }

  /** The nodes that share a row with one of xs, row by row. */
  ghost function Conflicts(mx: Matrix, xs: seq<int>): (ys: seq<int>)
    requires mx.WellFormed() && Nodes(mx, xs)
    ensures Nodes(mx, ys)
  {
    if xs == [] then []
    else
      var i := xs[..|xs| - 1];
      var x := xs[|xs| - 1];
      assert xs == i + [x];
      assert x in xs;
      Conflicts(mx, i) + mx.Others(x)
  }

  lemma {:induction false} ConflictsMembers(mx: Matrix, xs: seq<int>, y: int) returns (x: int)
    requires mx.WellFormed() && Nodes(mx, xs) && y in Conflicts(mx, xs)
    ensures x in xs && mx.m < x <= mx.tot && y in mx.Others(x)
  {
    var i := xs[..|xs| - 1];
    x := xs[|xs| - 1];
    if y !in mx.Others(x) {
      x := ConflictsMembers(mx, i, y);
    }
  }

  lemma {:induction false} ConflictsHave(mx: Matrix, xs: seq<int>, x: int, y: int)
    requires mx.WellFormed() && Nodes(mx, xs) && x in xs && mx.m < x <= mx.tot && y in mx.Others(x)
    ensures y in Conflicts(mx, xs)
  {
    var i := xs[..|xs| - 1];
    if x != xs[|xs| - 1] {
      assert xs == i + [xs[|xs| - 1]];
      ConflictsHave(mx, i, x, y);
    }
  }

  /** What `remove(c)` makes of the structure when the columns in cs are active. */
  ghost function Removed(mx: Matrix, st: State, cs: set<int>, c: int): (r: State)
    requires st.Fits(mx) && 1 <= c <= mx.m
    ensures r.Fits(mx)
  {
    DropNodes(mx, st.(h := st.h.Unlink(c)), Conflicts(mx, ColList(mx, cs, c)))
  }

  // ----- one node ----------------------------------------------------------------

  lemma ColumnMembers(mx: Matrix, c: int, alive: set<int>, y: int)
    requires mx.WellFormed() && 1 <= c <= mx.m
    requires y in [c] + Keep(mx.columns[c], alive)
    ensures mx.InColumn(c, y)
  {
    KeepMembers(mx.columns[c], alive);
  }

  /** An alive node is linked from both sides, by members of its own column's ring. */
  lemma AliveNodeLinked(mx: Matrix, st: State, alive: set<int>, x: int)
    requires st.Fits(mx) && mx.m < x <= mx.tot && x in alive
    requires ColumnOk(mx, st, mx.col[x], alive)
    ensures st.v.Linked(x)
    ensures BackNode(mx, DropNode(mx, st, x), x) == st
    ensures mx.InColumn(mx.col[x], st.v.next[x]) && mx.InColumn(mx.col[x], st.v.prev[x])
  {
    hide ColumnOk, Links.Linked, BackNode, DropNode, Matrix.InColumn, Keep;
    var c := mx.col[x];
    KeepMembers(mx.columns[c], alive);
    AliveNodeRing(mx, st, alive, c, x);
    NodeBack(mx, st, x);
    ColumnMembers(mx, c, alive, st.v.next[x]);
    ColumnMembers(mx, c, alive, st.v.prev[x]);
  }

  lemma NodeBack(mx: Matrix, st: State, x: int)
    requires st.Fits(mx) && mx.m < x <= mx.tot && st.v.Linked(x)
    ensures BackNode(mx, DropNode(mx, st, x), x) == st
  {
    RelinkUndoesUnlink(st.v, x);
    assert BackNode(mx, DropNode(mx, st, x), x).siz == st.siz;
  }

  lemma AliveNodeRing(mx: Matrix, st: State, alive: set<int>, c: int, x: int)
    requires st.Fits(mx) && 1 <= c <= mx.m && mx.m < x <= mx.tot && x in Keep(mx.columns[c], alive) && ColumnOk(mx, st, c, alive)
    ensures st.v.Linked(x)
    ensures st.v.next[x] in [c] + Keep(mx.columns[c], alive) && st.v.prev[x] in [c] + Keep(mx.columns[c], alive)
  {
    var ring := [c] + Keep(mx.columns[c], alive);
    var k := IndexOf(Keep(mx.columns[c], alive), x);
    assert ring[k + 1] == x;
    RingLinked(st.v, ring, k + 1);
    assert st.v.next[x] == After(ring, k + 1) && st.v.prev[x] == Before(ring, k + 1);
  }

  /** Dropping x updates its own column. */
  lemma DropNodeOwn(mx: Matrix, st: State, alive: set<int>, x: int)
    requires st.Fits(mx) && mx.m < x <= mx.tot && x in alive
    requires ColumnOk(mx, st, mx.col[x], alive)
    ensures ColumnOk(mx, DropNode(mx, st, x), mx.col[x], alive - {x})
  {
    var c := mx.col[x];
    var a, b := KeepMinus(mx.columns[c], alive, x);
    assert [c] + Keep(mx.columns[c], alive) == ([c] + a) + [x] + b;
    UnlinkRing(st.v, [c] + a, x, b);
    assert ([c] + a) + b == [c] + (a + b);
  }

  /** Dropping x leaves every other column alone. */
  lemma DropNodeOther(mx: Matrix, st: State, alive: set<int>, x: int, d: int)
    requires st.Fits(mx) && mx.m < x <= mx.tot && x in alive
    requires ColumnOk(mx, st, mx.col[x], alive)
    requires 1 <= d <= mx.m && d != mx.col[x] && ColumnOk(mx, st, d, alive)
    ensures ColumnOk(mx, DropNode(mx, st, x), d, alive - {x})
  {
    AliveNodeLinked(mx, st, alive, x);
    KeepSame(mx.columns[d], alive, alive - {x});
    var other := [d] + Keep(mx.columns[d], alive);
    forall y | y in other ensures mx.InColumn(d, y) { ColumnMembers(mx, d, alive, y); }
    UnlinkFrame(st.v, x, other);
  }

  /** A dropped node was linked from both sides; dropping it updates its column and no other. */
  lemma DropNodeOk(mx: Matrix, st: State, cs: set<int>, alive: set<int>, x: int)
    requires st.Fits(mx) && ColumnsOk(mx, st, cs, alive)
    requires mx.m < x <= mx.tot && x in alive && mx.col[x] in cs
    ensures st.v.Linked(x)
    ensures ColumnsOk(mx, DropNode(mx, st, x), cs, alive - {x})
    ensures BackNode(mx, DropNode(mx, st, x), x) == st
  {
    assert ColumnOk(mx, st, mx.col[x], alive);
    AliveNodeLinked(mx, st, alive, x);
    forall d | d in cs
      ensures 1 <= d <= mx.m && ColumnOk(mx, DropNode(mx, st, x), d, alive - {x})
    {
      assert ColumnOk(mx, st, d, alive);
      if d == mx.col[x] { DropNodeOwn(mx, st, alive, x); } else { DropNodeOther(mx, st, alive, x, d); }
    }
  }

  lemma DropNodesSnoc(mx: Matrix, st: State, xs: seq<int>, x: int)
    requires st.Fits(mx) && Nodes(mx, xs) && mx.m < x <= mx.tot
    ensures Nodes(mx, xs + [x])
    ensures DropNodes(mx, st, xs + [x]) == DropNode(mx, DropNodes(mx, st, xs), x)
  {
    assert (xs + [x])[..|xs|] == xs;
  }

  lemma ElemsSnoc(xs: seq<int>, x: int)
    ensures Elems(xs + [x]) == Elems(xs) + {x}
  {
  }

  /** Dropping a list of alive nodes, one after another. */
  lemma {:induction false} DropNodesOk(mx: Matrix, st: State, cs: set<int>, alive: set<int>, xs: seq<int>)
    requires st.Fits(mx) && ColumnsOk(mx, st, cs, alive)
    requires Nodes(mx, xs) && Distinct(xs)
    requires forall k | 0 <= k < |xs| :: xs[k] in alive && mx.col[xs[k]] in cs
    ensures ColumnsOk(mx, DropNodes(mx, st, xs), cs, alive - Elems(xs))
  {
    if xs == [] {
      assert alive - Elems(xs) == alive;
    } else {
      hide State.Fits, Matrix.WellFormed, ColumnsOk;
      var i, x := xs[..|xs| - 1], xs[|xs| - 1];
      assert xs == i + [x];
      DropNodesOk(mx, st, cs, alive, i);
      DropNodesNext(mx, st, cs, alive, i, x);
    }
  }

  lemma DropNodesNext(mx: Matrix, st: State, cs: set<int>, alive: set<int>, xs: seq<int>, x: int)
    requires st.Fits(mx) && Nodes(mx, xs) && mx.m < x <= mx.tot
    requires ColumnsOk(mx, DropNodes(mx, st, xs), cs, alive - Elems(xs))
    requires x in alive && x !in xs && mx.col[x] in cs
    ensures Nodes(mx, xs + [x])
    ensures DropNodes(mx, st, xs).v.Linked(x)
    ensures BackNode(mx, DropNodes(mx, st, xs + [x]), x) == DropNodes(mx, st, xs)
    ensures ColumnsOk(mx, DropNodes(mx, st, xs + [x]), cs, alive - Elems(xs + [x]))
  {
    DropNodesSnoc(mx, st, xs, x);
    hide Nodes, DropNodes, DropNode, BackNode, ColumnsOk;
    ElemsSnoc(xs, x);
    DropNodeOk(mx, DropNodes(mx, st, xs), cs, alive - Elems(xs), x);
    assert alive - Elems(xs) - {x} == alive - Elems(xs + [x]);
  }

  // ----- one column ----------------------------------------------------------------

  /** The other nodes of an alive row are alive, in active columns, and outside x's column. */
  lemma OthersAlive(mx: Matrix, cs: set<int>, x: int)
    requires mx.WellFormed() && x in mx.AliveNodes(cs)
    ensures forall y | y in mx.Others(x) :: y in mx.AliveNodes(cs) && mx.col[y] in cs && mx.col[y] != mx.col[x]
  {
    forall y | y in mx.Others(x)
      ensures y in mx.AliveNodes(cs) && mx.col[y] in cs && mx.col[y] != mx.col[x]
    {
      mx.OthersMembers(x);
      var row := mx.rows[mx.row[x]];
      assert mx.RowOk(mx.row[x]);
      assert mx.row[y] == mx.row[x];
      assert mx.col[y] in mx.RowCols(mx.row[x]);
      var i, j := IndexOf(row, x), IndexOf(row, y);
      assert mx.ColOf(row[i]) != mx.ColOf(row[j]);
    }
  }

  /** Two nodes of one column are in different rows. */
  lemma OthersDisjoint(mx: Matrix, x: int, z: int, y: int)
    requires mx.WellFormed() && mx.m < x <= mx.tot && mx.m < z <= mx.tot
    requires x != z && mx.col[x] == mx.col[z]
    requires y in mx.Others(x)
    ensures y !in mx.Others(z)
  {
    mx.OthersMembers(x);
    mx.OthersMembers(z);
    var row := mx.rows[mx.row[x]];
    assert mx.RowOk(mx.row[x]) && mx.RowOk(mx.row[z]);
    if z in row {
      assert false;
    }
  }

  lemma DistinctConcat(a: seq<int>, b: seq<int>)
    requires Distinct(a) && Distinct(b) && forall y | y in b :: y !in a
    ensures Distinct(a + b)
  {
    var s := a + b;
    forall i, j | 0 <= i < j < |s| ensures s[i] != s[j] {
      if j >= |a| {
        assert s[j] == b[j - |a|] && s[j] in b;
        if i < |a| { assert s[i] == a[i] && s[i] in a; }
      }
    }
  }

  lemma OthersDistinct(mx: Matrix, x: int)
    requires mx.WellFormed() && mx.m < x <= mx.tot
    ensures Distinct(mx.Others(x))
  {
    mx.OthersMembers(x);
    var b := mx.Others(x);
    var xb := [x] + b;
    assert forall j | 0 <= j < |b| :: b[j] == xb[j + 1];
  }

  /** The nodes dropped by `remove(c)`: alive, pairwise distinct, and none of them in column c. */
  lemma {:induction false} ConflictsOk(mx: Matrix, cs: set<int>, c: int, xs: seq<int>)
    requires mx.WellFormed() && Nodes(mx, xs) && Distinct(xs)
    requires forall k | 0 <= k < |xs| :: mx.col[xs[k]] == c && xs[k] in mx.AliveNodes(cs)
    ensures Distinct(Conflicts(mx, xs))
    ensures forall y | y in Conflicts(mx, xs) ::
              y in mx.AliveNodes(cs) && mx.col[y] in cs && mx.col[y] != c
  {
    if xs != [] {
      var i, x := xs[..|xs| - 1], xs[|xs| - 1];
      ConflictsOk(mx, cs, c, i);
      OthersAlive(mx, cs, x);
      OthersDistinct(mx, x);
      forall y | y in mx.Others(x) ensures y !in Conflicts(mx, i) {
        if y in Conflicts(mx, i) {
          var z := ConflictsMembers(mx, i, y);
          OthersDisjoint(mx, x, z, y);
        }
      }
      DistinctConcat(Conflicts(mx, i), mx.Others(x));
    }
  }

  lemma HeaderConflicts(mx: Matrix, st: State, heads: seq<int>, c: int)
    requires Represents(mx, st, heads) && c in heads
    ensures var list := ColList(mx, Elems(heads), c);
            && st.Fits(mx) && 1 <= c <= mx.m <= mx.tot && Nodes(mx, list) && Distinct(Conflicts(mx, list))
            && ColumnsOk(mx, st.(h := st.h.Unlink(c)), Elems(heads), mx.AliveNodes(Elems(heads)))
            && forall x | x in Conflicts(mx, list) ::
                 mx.col[x] != c && mx.col[x] in heads && x in mx.AliveNodes(Elems(heads)) && mx.m < x <= mx.tot
  {
    hide ColumnsOk, Conflicts;
    var cs := Elems(heads);
    var list := ColList(mx, cs, c);
    ColListMembers(mx, cs, c);
    assert forall j | 0 <= j < |list| :: list[j] in list;
    ConflictsOk(mx, cs, c, list);
    HideKeepsColumns(mx, st, cs, mx.AliveNodes(cs), c);
  }

  /** The state in the middle of `remove(c)`, after the first k of the dropped nodes. */
  lemma PartlyRemoved(mx: Matrix, st: State, heads: seq<int>, c: int, k: nat)
    requires Represents(mx, st, heads) && c in heads
    requires k <= |Conflicts(mx, ColList(mx, Elems(heads), c))|
    ensures var xs := Conflicts(mx, ColList(mx, Elems(heads), c));
            var s1 := st.(h := st.h.Unlink(c));
            && Distinct(xs) && Nodes(mx, xs[..k])
            && ColumnsOk(mx, DropNodes(mx, s1, xs[..k]), Elems(heads),
                         mx.AliveNodes(Elems(heads)) - Elems(xs[..k]))
            && (forall x | x in xs :: mx.col[x] != c && mx.col[x] in heads && x in mx.AliveNodes(Elems(heads)))
  {
    hide ColumnsOk, Represents, Matrix.WellFormed, Conflicts, ColList, Links.Unlink;
    HeaderConflicts(mx, st, heads, c);
    var cs := Elems(heads);
    var xs := Conflicts(mx, ColList(mx, cs, c));
    assert forall j | 0 <= j < |xs| :: xs[j] in xs;
    assert forall j | 0 <= j < k :: xs[..k][j] in xs;
    DropNodesOk(mx, st.(h := st.h.Unlink(c)), cs, mx.AliveNodes(cs), xs[..k]);
  }

  lemma HideKeepsColumns(mx: Matrix, st: State, cs: set<int>, alive: set<int>, c: int)
    requires st.Fits(mx) && ColumnsOk(mx, st, cs, alive) && 1 <= c <= mx.m
    ensures ColumnsOk(mx, st.(h := st.h.Unlink(c)), cs, alive)
  {
    var s1 := st.(h := st.h.Unlink(c));
    forall d | d in cs ensures 1 <= d <= mx.m && ColumnOk(mx, s1, d, alive) {
      assert ColumnOk(mx, st, d, alive);
    }
  }

  /** While `remove(c)` drops nodes, column c's own list stays linked as it was. */
  lemma OwnColumnStays(mx: Matrix, st: State, heads: seq<int>, c: int, k: nat)
    requires Represents(mx, st, heads) && c in heads
    requires k <= |Conflicts(mx, ColList(mx, Elems(heads), c))|
    ensures var list := ColList(mx, Elems(heads), c);
            var xs := Conflicts(mx, list);
            && Nodes(mx, xs[..k])
            && IsRing(DropNodes(mx, st.(h := st.h.Unlink(c)), xs[..k]).v, [c] + list)
  {
    PartlyRemoved(mx, st, heads, c, k);
    var alive := mx.AliveNodes(Elems(heads));
    var xs := Conflicts(mx, ColList(mx, Elems(heads), c));
    assert ColumnOk(mx, DropNodes(mx, st.(h := st.h.Unlink(c)), xs[..k]), c, alive - Elems(xs[..k]));
    KeepSame(mx.columns[c], alive, alive - Elems(xs[..k]));
  }

  /** Hiding a header leaves the ring of the other headers and every row ring. */
  lemma HideHeader(mx: Matrix, st: State, heads: seq<int>, c: int)
    requires Represents(mx, st, heads) && c in heads
    ensures st.h.Linked(c)
    ensures var s1 := st.(h := st.h.Unlink(c));
            IsRing(s1.h, [0] + Without(heads, c)) && RowsOk(mx, s1)
  {
    hide Links.Linked, Links.Unlink;
    HeaderLinked(mx, st, heads, c);
    var k := IndexOf(heads, c);
    var a, b := heads[..k], heads[k + 1..];
    assert [0] + heads == ([0] + a) + [c] + b;
    UnlinkRing(st.h, [0] + a, c, b);
    assert ([0] + a) + b == [0] + Without(heads, c);
    forall r | r in mx.rows ensures IsRing(st.h.Unlink(c), mx.rows[r]) {
      assert mx.RowOk(r);
      UnlinkFrame(st.h, c, mx.rows[r]);
    }
  }

  lemma HeaderLinked(mx: Matrix, st: State, heads: seq<int>, c: int)
    requires Represents(mx, st, heads) && c in heads
    ensures 1 <= c <= mx.m && st.h.Linked(c) && 0 <= st.h.next[c] <= mx.m && 0 <= st.h.prev[c] <= mx.m
  {
    var ring := [0] + heads;
    var k := IndexOf(heads, c);
    assert ring[k + 1] == c;
    RingLinked(st.h, ring, k + 1);
    assert st.h.next[c] == After(ring, k + 1) && st.h.next[c] in ring;
    assert st.h.prev[c] == Before(ring, k + 1) && st.h.prev[c] in ring;
  }

  /** The rows that have a node in column c are exactly the ones whose other nodes get dropped. */
  lemma DroppedNodes(mx: Matrix, cs: set<int>, c: int, x: int)
    requires mx.WellFormed() && 1 <= c <= mx.m && c in cs
    requires mx.m < x <= mx.tot && mx.col[x] != c
    ensures x in mx.AliveNodes(cs - {c}) <==>
            x in mx.AliveNodes(cs) && x !in Conflicts(mx, ColList(mx, cs, c))
  {
    var list := ColList(mx, cs, c);
    ColListMembers(mx, cs, c);
    var r := mx.row[x];
    assert mx.RowOk(r);
    if x in mx.AliveNodes(cs) && c in mx.RowCols(r) {
      var y :| y in mx.rows[r] && mx.col[y] == c;
      assert mx.row[y] == r && y in list;
      mx.OthersMembers(y);
      ConflictsHave(mx, list, y, x);
    }
    if x in Conflicts(mx, list) {
      var y := ConflictsMembers(mx, list, x);
      mx.OthersMembers(y);
      assert mx.RowOk(mx.row[y]);
      assert c in mx.RowCols(r);
    }
  }

  /** `remove(c)` leaves the representation of the matrix without column c and the rows that met it. */
  lemma RemovedRepresents(mx: Matrix, st: State, heads: seq<int>, c: int)
    requires Represents(mx, st, heads) && c in heads
    ensures Represents(mx, Removed(mx, st, Elems(heads), c), Without(heads, c))
    ensures IsRing(Removed(mx, st, Elems(heads), c).v, [c] + ColList(mx, Elems(heads), c))
    ensures Elems(Without(heads, c)) == Elems(heads) - {c}
  {
    var cs := Elems(heads);
    var rest := Without(heads, c);
    DistinctHeads(st.h, heads);
    WithoutMembers(heads, c);
    assert Elems(rest) == cs - {c};
    var list := ColList(mx, cs, c);
    var xs := Conflicts(mx, list);
    HideHeader(mx, st, heads, c);
    PartlyRemoved(mx, st, heads, c, |xs|);
    OwnColumnStays(mx, st, heads, c, |xs|);
    assert xs[..|xs|] == xs;
    var r := Removed(mx, st, cs, c);
    forall d | d in cs - {c} ensures ColumnOk(mx, r, d, mx.AliveNodes(cs - {c})) {
      assert ColumnOk(mx, r, d, mx.AliveNodes(cs) - Elems(xs));
      forall x | x in mx.columns[d]
        ensures x in mx.AliveNodes(cs) - Elems(xs) <==> x in mx.AliveNodes(cs - {c})
      {
        DroppedNodes(mx, cs, c, x);
      }
      KeepSame(mx.columns[d], mx.AliveNodes(cs) - Elems(xs), mx.AliveNodes(cs - {c}));
    }
  }

  lemma DistinctHeads(h: Links, heads: seq<int>)
    requires IsRing(h, [0] + heads)
    ensures Distinct(heads) && 0 !in heads
  {
    var ring := [0] + heads;
    assert forall k | 0 <= k < |heads| :: heads[k] == ring[k + 1];
    assert ring[0] == 0;
  }

  // ----- walking the links ----------------------------------------------------------

  /** Where `remove(c)` stands after it has dropped k nodes. */
  ghost function Removing(mx: Matrix, st: State, heads: seq<int>, c: int, k: nat): (r: State)
    requires Represents(mx, st, heads) && c in heads
    requires k <= |Conflicts(mx, ColList(mx, Elems(heads), c))|
    ensures r.Fits(mx)
  {
    var xs := Conflicts(mx, ColList(mx, Elems(heads), c));
    assert forall j | 0 <= j < k :: xs[..k][j] == xs[j];
    DropNodes(mx, st.(h := st.h.Unlink(c)), xs[..k])
  }

  /** One more node: it was linked from both sides, and putting it back undoes the step. */
  lemma RemovingStep(mx: Matrix, st: State, heads: seq<int>, c: int, k: nat)
    requires Represents(mx, st, heads) && c in heads
    requires k < |Conflicts(mx, ColList(mx, Elems(heads), c))|
    ensures var x := Conflicts(mx, ColList(mx, Elems(heads), c))[k];
            && mx.m < x <= mx.tot
            && Removing(mx, st, heads, c, k).v.Linked(x)
            && Removing(mx, st, heads, c, k + 1) == DropNode(mx, Removing(mx, st, heads, c, k), x)
            && BackNode(mx, Removing(mx, st, heads, c, k + 1), x) == Removing(mx, st, heads, c, k)
  {
    var xs := Conflicts(mx, ColList(mx, Elems(heads), c));
    var s1 := st.(h := st.h.Unlink(c));
    PartlyRemoved(mx, st, heads, c, k);
    hide Represents, ColumnsOk, Matrix.WellFormed, Conflicts, DropNodes;
    SnocPrefix(xs, k);
    assert xs[k] in xs && mx.col[xs[k]] in Elems(heads);
    DropNodesNext(mx, s1, Elems(heads), mx.AliveNodes(Elems(heads)), xs[..k], xs[k]);
    DropNodesSnoc(mx, s1, xs[..k], xs[k]);
  }

  lemma SnocPrefix(xs: seq<int>, k: nat)
    requires k < |xs|
    ensures xs[..k + 1] == xs[..k] + [xs[k]]
    ensures Distinct(xs) ==> xs[k] !in xs[..k]
  {
  }

  /** All along, column c's ring and every row ring stay as they were. */
  lemma RemovingKeeps(mx: Matrix, st: State, heads: seq<int>, c: int, k: nat)
    requires Represents(mx, st, heads) && c in heads
    requires k <= |Conflicts(mx, ColList(mx, Elems(heads), c))|
    ensures IsRing(Removing(mx, st, heads, c, k).v, [c] + ColList(mx, Elems(heads), c))
    ensures Removing(mx, st, heads, c, k).h == st.h.Unlink(c)
    ensures RowsOk(mx, Removing(mx, st, heads, c, k))
  {
    OwnColumnStays(mx, st, heads, c, k);
    HideHeader(mx, st, heads, c);
  }

  /** The first p rows of a column contribute the first part of its conflicts. */
  lemma {:induction false} ConflictsPrefix(mx: Matrix, xs: seq<int>, p: nat)
    requires mx.WellFormed() && Nodes(mx, xs) && p < |xs|
    ensures Nodes(mx, xs[..p])
    ensures Conflicts(mx, xs[..p]) + mx.Others(xs[p]) <= Conflicts(mx, xs)
    ensures Conflicts(mx, xs[..p + 1]) == Conflicts(mx, xs[..p]) + mx.Others(xs[p])
    decreases |xs|
  {
    hide Matrix.Others, Matrix.WellFormed;
    assert xs[..p + 1][..p] == xs[..p];
    if p + 1 == |xs| {
      assert xs[..p + 1] == xs;
    } else {
      var i := xs[..|xs| - 1];
      ConflictsPrefix(mx, i, p);
      assert i[..p] == xs[..p] && i[p] == xs[p];
    }
  }

  /** How many nodes `remove(c)` drops for the first p rows of the column. */
  ghost function Offset(mx: Matrix, xs: seq<int>, p: nat): (k: nat)
    requires mx.WellFormed() && Nodes(mx, xs) && p <= |xs|
    ensures k <= |Conflicts(mx, xs)|
  {
    if p < |xs| then
      ConflictsPrefix(mx, xs, p);
      |Conflicts(mx, xs[..p])|
    else
      |Conflicts(mx, xs)|
  }

  lemma OffsetIsLength(mx: Matrix, xs: seq<int>, p: nat)
    requires mx.WellFormed() && Nodes(mx, xs) && p <= |xs|
    ensures Nodes(mx, xs[..p]) && Offset(mx, xs, p) == |Conflicts(mx, xs[..p])|
    ensures p == 0 ==> Offset(mx, xs, p) == 0
    ensures p == |xs| ==> Offset(mx, xs, p) == |Conflicts(mx, xs)|
  {
    if p == |xs| { assert xs[..p] == xs; }
  }

  /** The q-th other node of the p-th row is dropped at the p-th offset plus q. */
  lemma ConflictAt(mx: Matrix, xs: seq<int>, p: nat, q: nat)
    requires mx.WellFormed() && Nodes(mx, xs) && p < |xs| && q <= |mx.Others(xs[p])|
    ensures Offset(mx, xs, p) + |mx.Others(xs[p])| == Offset(mx, xs, p + 1)
    ensures q < |mx.Others(xs[p])| ==>
              && Offset(mx, xs, p) + q < |Conflicts(mx, xs)|
              && Conflicts(mx, xs)[Offset(mx, xs, p) + q] == mx.Others(xs[p])[q]
  {
    hide Matrix.WellFormed, Conflicts, Matrix.Others, Offset;
    ConflictsPrefix(mx, xs, p);
    OffsetIsLength(mx, xs, p);
    OffsetIsLength(mx, xs, p + 1);
    if q < |mx.Others(xs[p])| {
      PrefixAt(Conflicts(mx, xs[..p]), mx.Others(xs[p]), Conflicts(mx, xs), q);
    }
  }

  lemma PrefixAt(a: seq<int>, b: seq<int>, s: seq<int>, q: nat)
    requires a + b <= s && q < |b|
    ensures |a| + q < |s| && s[|a| + q] == b[q]
  {
    assert (a + b)[|a| + q] == b[q];
  }

  /** Going right or left from x along its row. */
  lemma RowWalk(mx: Matrix, st: State, x: int)
    requires st.Fits(mx) && RowsOk(mx, st) && mx.m < x <= mx.tot
    ensures IsRing(st.h, [x] + mx.Others(x))
  {
    var id := mx.row[x];
    assert id in mx.rows;
    var r := mx.rows[id];
    assert IsRing(st.h, r);
    RotateRing(st.h, r, IndexOf(r, x));
  }

  /** Position p of a walk round x's ring: x itself at both ends. */
  ghost function At(x: int, others: seq<int>, p: nat): int
    requires p <= |others| + 1
  {
    if p == 0 || p == |others| + 1 then x else others[p - 1]
  }

  /** From position p the links lead to position p + 1, and back. */
  ghost predicate Step(l: Links, x: int, others: seq<int>, p: nat)
    requires p <= |others|
  {
    && 0 <= At(x, others, p) < |l.next| && 0 <= At(x, others, p + 1) < |l.prev|
    && l.next[At(x, others, p)] == At(x, others, p + 1)
    && l.prev[At(x, others, p + 1)] == At(x, others, p)
    && (At(x, others, p) == x <==> p == 0)
    && (At(x, others, p + 1) == x <==> p == |others|)
  }

  lemma RingStep(l: Links, x: int, others: seq<int>, p: nat)
    requires IsRing(l, [x] + others) && p <= |others|
    ensures Step(l, x, others, p)
  {
    var ys := [x] + others;
    var q := if p == |others| then 0 else p + 1;
    assert ys[0] == x && ys[p] == At(x, others, p) && ys[q] == At(x, others, p + 1);
    assert l.next[ys[p]] == After(ys, p) && l.prev[ys[q]] == Before(ys, q);
  }

  lemma HeaderHidden(mx: Matrix, st: State, heads: seq<int>, c: int)
    requires Represents(mx, st, heads) && c in heads
    ensures st.(h := st.h.Unlink(c)) == Removing(mx, st, heads, c, 0)
    ensures 1 <= c <= mx.m && Offset(mx, ColList(mx, Elems(heads), c), 0) == 0
  {
    OffsetIsLength(mx, ColList(mx, Elems(heads), c), 0);
  }

  /** Before the p-th row of column c: the column links lead on, and past the last row `remove` is done. */
  lemma ColumnStep(mx: Matrix, st: State, heads: seq<int>, c: int, p: nat)
    requires Represents(mx, st, heads) && c in heads && p <= |ColList(mx, Elems(heads), c)|
    ensures var list := ColList(mx, Elems(heads), c);
            var r := Removing(mx, st, heads, c, Offset(mx, list, p));
            && r.Fits(mx) && Nodes(mx, list) && 1 <= c <= mx.m
            && Step(r.v, c, list, p)
            && (p < |list| ==> At(c, list, p + 1) == list[p])
            && (p == |list| ==> r == Removed(mx, st, Elems(heads), c))
  {
    hide Removing, Removed, Conflicts, Keep;
    var list := ColList(mx, Elems(heads), c);
    RemovingKeeps(mx, st, heads, c, Offset(mx, list, p));
    RingStep(Removing(mx, st, heads, c, Offset(mx, list, p)).v, c, list, p);
    OffsetIsLength(mx, list, p);
    AllRemoved(mx, st, heads, c);
  }

  lemma AllRemoved(mx: Matrix, st: State, heads: seq<int>, c: int)
    requires Represents(mx, st, heads) && c in heads
    ensures Removing(mx, st, heads, c, |Conflicts(mx, ColList(mx, Elems(heads), c))|) == Removed(mx, st, Elems(heads), c)
  {
    var xs := Conflicts(mx, ColList(mx, Elems(heads), c));
    assert xs[..|xs|] == xs;
  }

  /** Before the q-th other node of the p-th row: the row links lead on. */
  lemma RowStep(mx: Matrix, st: State, heads: seq<int>, c: int, p: nat, q: nat)
    requires Represents(mx, st, heads) && c in heads && p < |ColList(mx, Elems(heads), c)|
    requires q <= |mx.Others(ColList(mx, Elems(heads), c)[p])|
    ensures var list := ColList(mx, Elems(heads), c);
            var others := mx.Others(list[p]);
            var base := Offset(mx, list, p);
            && mx.m < list[p] <= mx.tot && base + q <= |Conflicts(mx, list)|
            && Removing(mx, st, heads, c, base + q).Fits(mx)
            && Step(Removing(mx, st, heads, c, base + q).h, list[p], others, q)
            && (q == |others| ==> base + q == Offset(mx, list, p + 1))
  {
    var list := ColList(mx, Elems(heads), c);
    var x := list[p];
    var others := mx.Others(x);
    var base := Offset(mx, list, p);
    ConflictAt(mx, list, p, q);
    RemovingKeeps(mx, st, heads, c, base + q);
    hide Represents, ColList, Offset, Removing, Matrix.WellFormed, Conflicts, RowsOk;
    RowWalk(mx, Removing(mx, st, heads, c, base + q), x);
    RingStep(Removing(mx, st, heads, c, base + q).h, x, others, q);
  }

  /** The q-th other node of the p-th row is the next to go, and can come back. */
  lemma RowNode(mx: Matrix, st: State, heads: seq<int>, c: int, p: nat, q: nat)
    requires Represents(mx, st, heads) && c in heads && p < |ColList(mx, Elems(heads), c)|
    requires q < |mx.Others(ColList(mx, Elems(heads), c)[p])|
    ensures var list := ColList(mx, Elems(heads), c);
            var x := mx.Others(list[p])[q];
            var k := Offset(mx, list, p) + q;
            && mx.m < x <= mx.tot && k + 1 <= |Conflicts(mx, list)|
            && Removing(mx, st, heads, c, k).Fits(mx)
            && Removing(mx, st, heads, c, k).v.Linked(x)
            && Removing(mx, st, heads, c, k + 1) == DropNode(mx, Removing(mx, st, heads, c, k), x)
            && BackNode(mx, Removing(mx, st, heads, c, k + 1), x) == Removing(mx, st, heads, c, k)
            && Removing(mx, st, heads, c, k + 1).v.prev[x] != x
  {
    hide ColList, Offset, Conflicts, DropNodes, Removing, BackNode, Keep, ColumnsOk, RowsOk, IsRing, Links.Linked;
    var list := ColList(mx, Elems(heads), c);
    var k := Offset(mx, list, p) + q;
    var x := mx.Others(list[p])[q];
    ConflictAt(mx, list, p, q);
    RemovingStep(mx, st, heads, c, k);
    UnlinkedKeepsOwnLinks(Removing(mx, st, heads, c, k).v, x);
  }

  lemma UnlinkedKeepsOwnLinks(l: Links, x: int)
    requires l.Closed() && 0 <= x < |l.next| && l.Linked(x)
    ensures l.Unlink(x).prev[x] == l.prev[x] != x && l.Unlink(x).next[x] == l.next[x] != x
  {
  }

  // ----- where remove and recover stand ----------------------------------------------

  /** s is `remove(c)` half done: p rows of the column are out, the walk is at i, the next row. */
  ghost predicate InColumnWalk(mx: Matrix, st: State, heads: seq<int>, c: int, p: nat, s: State, i: int) {
    && Represents(mx, st, heads) && c in heads && p <= |ColList(mx, Elems(heads), c)|
    && s == Removing(mx, st, heads, c, Offset(mx, ColList(mx, Elems(heads), c), p))
    && i == At(c, ColList(mx, Elems(heads), c), p + 1)
  }

  /** s is `remove(c)` inside its p-th row: q other nodes are out, the walk is at j, the next node. */
  ghost predicate InRowWalk(mx: Matrix, st: State, heads: seq<int>, c: int, p: nat, q: nat, s: State, i: int, j: int) {
    && Represents(mx, st, heads) && c in heads && p < |ColList(mx, Elems(heads), c)|
    && i == ColList(mx, Elems(heads), c)[p] && q <= |mx.Others(i)|
    && Offset(mx, ColList(mx, Elems(heads), c), p) + q <= |Conflicts(mx, ColList(mx, Elems(heads), c))|
    && s == Removing(mx, st, heads, c, Offset(mx, ColList(mx, Elems(heads), c), p) + q)
    && j == At(i, mx.Others(i), q + 1)
  }

  lemma StartRemove(mx: Matrix, st: State, heads: seq<int>, c: int)
    requires Represents(mx, st, heads) && c in heads
    ensures 1 <= c <= mx.m <= mx.tot && st.Fits(mx)
    ensures var s := st.(h := st.h.Unlink(c));
            s.Fits(mx) && InColumnWalk(mx, st, heads, c, 0, s, s.v.next[c])
  {
    HeaderHidden(mx, st, heads, c);
    ColumnStep(mx, st, heads, c, 0);
  }

  lemma ColumnWalkFacts(mx: Matrix, st: State, heads: seq<int>, c: int, p: nat, s: State, i: int)
    requires InColumnWalk(mx, st, heads, c, p, s, i)
    ensures s.Fits(mx) && (i == c || mx.m < i <= mx.tot) && 1 <= c <= mx.m
    ensures i == c ==> s == Removed(mx, st, Elems(heads), c) && p == |ColList(mx, Elems(heads), c)|
    ensures i != c ==> InRowWalk(mx, st, heads, c, p, 0, s, i, s.h.next[i]) && p < |ColList(mx, Elems(heads), c)|
  {
    ColumnStep(mx, st, heads, c, p);
    if p < |ColList(mx, Elems(heads), c)| { RowStep(mx, st, heads, c, p, 0); }
  }

  lemma RowWalkNode(mx: Matrix, st: State, heads: seq<int>, c: int, p: nat, q: nat, s: State, i: int, j: int)
    requires InRowWalk(mx, st, heads, c, p, q, s, i, j) && q < |mx.Others(i)|
    ensures s.Fits(mx) && mx.m < i <= mx.tot && mx.m < j <= mx.tot && j != i && s.v.Linked(j)
    ensures InRowWalk(mx, st, heads, c, p, q + 1, DropNode(mx, s, j), i, s.h.next[j])
  {
    hide Represents, Removing, Offset, Conflicts, ColList, Matrix.Others, Matrix.WellFormed, Links.Linked, State.Fits;
    RowStep(mx, st, heads, c, p, q);
    RowNode(mx, st, heads, c, p, q);
    RowStep(mx, st, heads, c, p, q + 1);
  }

  lemma RowWalkEnd(mx: Matrix, st: State, heads: seq<int>, c: int, p: nat, q: nat, s: State, i: int, j: int)
    requires InRowWalk(mx, st, heads, c, p, q, s, i, j) && q == |mx.Others(i)|
    ensures s.Fits(mx) && mx.m < i <= mx.tot && j == i
    ensures InColumnWalk(mx, st, heads, c, p + 1, s, s.v.next[i])
  {
    hide Represents, Removing, Offset, Conflicts, ColList, Matrix.Others, Matrix.WellFormed, State.Fits;
    RowStep(mx, st, heads, c, p, q);
    ColumnStep(mx, st, heads, c, p + 1);
  }

  lemma RowWalkFacts(mx: Matrix, st: State, heads: seq<int>, c: int, p: nat, q: nat, s: State, i: int, j: int)
    requires InRowWalk(mx, st, heads, c, p, q, s, i, j)
    ensures s.Fits(mx) && mx.m < i <= mx.tot && mx.m < j <= mx.tot
    ensures j == i ==> q == |mx.Others(i)| && InColumnWalk(mx, st, heads, c, p + 1, s, s.v.next[i])
    ensures j != i ==>
              && q < |mx.Others(i)| && s.v.Linked(j)
              && InRowWalk(mx, st, heads, c, p, q + 1, DropNode(mx, s, j), i, s.h.next[j])
  {
    if q < |mx.Others(i)| {
      RowWalkNode(mx, st, heads, c, p, q, s, i, j);
    } else {
      RowWalkEnd(mx, st, heads, c, p, q, s, i, j);
    }
  }

  /** s is `recover(c)` half done: p rows of the column are still out, the walk is at i, the last of them. */
  ghost predicate InColumnBack(mx: Matrix, st: State, heads: seq<int>, c: int, p: nat, s: State, i: int) {
    && Represents(mx, st, heads) && c in heads && p <= |ColList(mx, Elems(heads), c)|
    && s == Removing(mx, st, heads, c, Offset(mx, ColList(mx, Elems(heads), c), p))
    && i == At(c, ColList(mx, Elems(heads), c), p)
  }

  /** s is `recover(c)` inside the p-th row: q other nodes are still out, the walk is at j, the last of them. */
  ghost predicate InRowBack(mx: Matrix, st: State, heads: seq<int>, c: int, p: nat, q: nat, s: State, i: int, j: int) {
    && Represents(mx, st, heads) && c in heads && p < |ColList(mx, Elems(heads), c)|
    && i == ColList(mx, Elems(heads), c)[p] && q <= |mx.Others(i)|
    && Offset(mx, ColList(mx, Elems(heads), c), p) + q <= |Conflicts(mx, ColList(mx, Elems(heads), c))|
    && s == Removing(mx, st, heads, c, Offset(mx, ColList(mx, Elems(heads), c), p) + q)
    && j == At(i, mx.Others(i), q)
  }

  lemma StartRecover(mx: Matrix, st: State, heads: seq<int>, c: int, s: State)
    requires Represents(mx, st, heads) && c in heads && s == Removed(mx, st, Elems(heads), c)
    ensures 1 <= c <= mx.m <= mx.tot && s.Fits(mx)
    ensures InColumnBack(mx, st, heads, c, |ColList(mx, Elems(heads), c)|, s, s.v.prev[c])
  {
    ColumnStep(mx, st, heads, c, |ColList(mx, Elems(heads), c)|);
  }

  lemma EndRecover(mx: Matrix, st: State, heads: seq<int>, c: int, s: State, i: int)
    requires InColumnBack(mx, st, heads, c, 0, s, i)
    ensures 1 <= c <= mx.m && s.Fits(mx) && s.(h := s.h.Relink(c)) == st && s.h.prev[c] != c
  {
    HeaderHidden(mx, st, heads, c);
    HideHeader(mx, st, heads, c);
    RelinkUndoesUnlink(st.h, c);
    UnlinkedKeepsOwnLinks(st.h, c);
  }

  lemma ColumnBackRow(mx: Matrix, st: State, heads: seq<int>, c: int, p: nat, s: State, i: int)
    requires InColumnBack(mx, st, heads, c, p + 1, s, i)
    ensures s.Fits(mx) && mx.m < i <= mx.tot
    ensures InRowBack(mx, st, heads, c, p, |mx.Others(i)|, s, i, s.h.prev[i])
  {
    var list := ColList(mx, Elems(heads), c);
    var others := mx.Others(list[p]);
    hide Represents, Removing, Offset, Conflicts, Matrix.Others, Matrix.WellFormed, State.Fits, ColList, Links.Closed;
    RowStep(mx, st, heads, c, p, |others|);
    assert i == list[p] && mx.Others(i) == others;
    assert s == Removing(mx, st, heads, c, Offset(mx, list, p) + |others|);
    assert s.h.prev[i] == At(i, others, |others|);
  }

  lemma ColumnBackFacts(mx: Matrix, st: State, heads: seq<int>, c: int, p: nat, s: State, i: int)
    requires InColumnBack(mx, st, heads, c, p, s, i)
    ensures s.Fits(mx) && (i == c <==> p == 0)
    ensures p > 0 ==> mx.m < i <= mx.tot && InRowBack(mx, st, heads, c, p - 1, |mx.Others(i)|, s, i, s.h.prev[i])
  {
    hide Represents, Removing, Offset, Conflicts, Matrix.Others, Matrix.WellFormed, State.Fits, ColList, InRowBack, Keep;
    ColumnStep(mx, st, heads, c, p);
    if p > 0 { ColumnBackRow(mx, st, heads, c, p - 1, s, i); }
  }

  lemma RowBackNode(mx: Matrix, st: State, heads: seq<int>, c: int, p: nat, q: nat, s: State, i: int, j: int)
    requires InRowBack(mx, st, heads, c, p, q + 1, s, i, j)
    ensures s.Fits(mx) && mx.m < i <= mx.tot && mx.m < j <= mx.tot && s.v.prev[j] != j
    ensures InRowBack(mx, st, heads, c, p, q, BackNode(mx, s, j), i, s.h.prev[j])
  {
    hide Represents, Removing, Offset, Conflicts, ColList, Matrix.Others, Matrix.WellFormed, Links.Linked, State.Fits;
    RowNode(mx, st, heads, c, p, q);
    RowStep(mx, st, heads, c, p, q + 1);
    RowStep(mx, st, heads, c, p, q);
  }

  lemma RowBackFacts(mx: Matrix, st: State, heads: seq<int>, c: int, p: nat, q: nat, s: State, i: int, j: int)
    requires InRowBack(mx, st, heads, c, p, q, s, i, j)
    ensures s.Fits(mx) && mx.m < i <= mx.tot && mx.m < j <= mx.tot && (j == i <==> q == 0)
    ensures j == i ==> InColumnBack(mx, st, heads, c, p, s, s.v.prev[i])
  {
    hide Represents, Removing, Offset, Conflicts, Matrix.Others, Matrix.WellFormed, State.Fits;
    RowStep(mx, st, heads, c, p, q);
    ColumnStep(mx, st, heads, c, p);
  }
}
