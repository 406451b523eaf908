/**
  The link arrays of a dancing-links solver, changed in place. Nodes are named
  by their number; a pointer to a node is the node's number in the pool.
 */
module LinkTables {
  import opened Rings
  import opened LinkMatrix
  import opened ExactCover
  import opened MatrixBuild
  import opened RowBuild

  class LinkTable {
    const maxSize: nat
    var m: nat       // column headers in use: 1..m
    var tot: nat     // nodes in use: 0..tot
    const siz: array<int>
    const L: array<int>
    const R: array<int>
    const U: array<int>
    const D: array<int>
    const col: array<int>

    /** The matrix built so far. */
    ghost var matrix: Matrix

    ghost predicate Apart() {
      && siz.Length == L.Length == R.Length == U.Length == D.Length == col.Length == maxSize
      && siz != L && siz != R && siz != U && siz != D && siz != col && L != R && L != U && L != D && L != col
      && R != U && R != D && R != col && U != D && U != col && D != col
    }

    ghost predicate Valid()
      reads this, L, R, U, D, siz, col
    {
      && Apart()
      && m <= tot < maxSize
      && matrix.m == m && matrix.tot == tot && matrix.WellFormed()
      && col[..tot + 1] == matrix.col
    }

    /** The links and sizes in use, as a value. */
    ghost function View(): State
      reads this, L, R, U, D, siz, col
      requires Valid()
    {
      State(Links(R[..tot + 1], L[..tot + 1]), Links(D[..tot + 1], U[..tot + 1]), siz[..m + 1])
    }

    /** The parts of the view, also while nodes are being added to the matrix. */
    ghost predicate Open()
      reads this`m, this`tot, L, R, U, D
    {
      Apart() && m <= tot < maxSize && H().Closed() && V().Closed()
    }

    ghost function H(): Links
      reads this`tot, L, R
      requires Apart() && tot < maxSize
    {
      Links(R[..tot + 1], L[..tot + 1])
    }

    ghost function V(): Links
      reads this`tot, U, D
      requires Apart() && tot < maxSize
    {
      Links(D[..tot + 1], U[..tot + 1])
    }

    ghost function S(): seq<int>
      reads this`m, siz
      requires Apart() && m < maxSize
    {
      siz[..m + 1]
    }

    lemma ViewParts()
      requires Valid() && View().Fits(matrix)
      ensures Open() && View() == State(H(), V(), S()) && matrix.m == m && matrix.tot == tot && col[..tot + 1] == matrix.col
    {
    }

    /** Take the next node of the pool: alone in its row and its column, of size 0. */
    method NewNode() returns (x: int)
      requires Open() && tot + 1 < maxSize
      modifies this`tot, L, R, U, D, siz
      ensures Open() && tot == x == old(tot) + 1 && S() == old(S())
      ensures H() == InsertAlone(old(H())) && V() == InsertAlone(old(V())) && siz[x] == 0
      ensures forall k | 0 <= k < maxSize && k != x :: siz[k] == old(siz[k])
    {
      ghost var h, v := H(), V();
      tot := tot + 1;
      x := tot;
      L[x] := x;
      R[x] := x;
      U[x] := x;
      D[x] := x;
      siz[x] := 0;
      assert H() == InsertAlone(h) && V() == InsertAlone(v);
    }

    /** Link x in just before a, to its left. */
    method PutLeft(a: int, x: int)
      requires Open() && 0 <= a <= tot && 0 <= x <= tot && a != x
      modifies L, R
      ensures Open() && H() == PutBefore(old(H()), a, x)
    {
      ghost var h := H();
      L[x] := L[a];
      R[x] := a;
      R[L[a]] := x;
      L[a] := x;
      assert H().next == PutBefore(h, a, x).next && H().prev == PutBefore(h, a, x).prev;
    }

    /** A new header, at the end of the header list. */
    method NewHeader() returns (c: int)
      requires Open() && m == tot && tot + 1 < maxSize
      modifies this`tot, this`m, L, R, U, D, siz, col
      ensures Open() && c == m == tot == old(tot) + 1
      ensures H() == InsertLast(old(H()), 0) && V() == InsertAlone(old(V())) && S() == old(S()) + [0]
    {
      hide PutBefore, InsertAlone;
      ghost var s := S();
      c := NewNode();
      col[c] := c;
      PutLeft(0, c);
      m := c;
      assert S() == s + [0];
    }

    /** Link x in at the bottom of column a. */
    method PutUp(a: int, x: int)
      requires Open() && 1 <= a <= m && m < x <= tot
      modifies U, D, siz, col
      ensures Open() && V() == PutBefore(old(V()), a, x) && S() == Grown(old(S()), a)
      ensures col[x] == a && forall k | 0 <= k < maxSize && k != x :: col[k] == old(col[k])
    {
      ghost var v := V();
      U[x] := U[a];
      D[x] := a;
      D[U[a]] := x;
      U[a] := x;
      siz[a] := siz[a] + 1;
      col[x] := a;
      assert V().next == PutBefore(v, a, x).next && V().prev == PutBefore(v, a, x).prev;
    }

    constructor (size: nat)
      ensures Apart() && maxSize == size
      ensures fresh(siz) && fresh(L) && fresh(R) && fresh(U) && fresh(D) && fresh(col)
    {
      maxSize := size;
      m, tot := 0, 0;
      matrix := NoRows(0, [0], [0]);
      siz := new int[size];
      L := new int[size];
      R := new int[size];
      U := new int[size];
      D := new int[size];
      col := new int[size];
    }

    /** A new node, alone in its row, at the bottom of column c. */
    method NewInColumn(c: int) returns (x: int)
      requires Open() && tot + 1 < maxSize && 1 <= c <= m
      modifies this`tot, L, R, U, D, siz, col
      ensures Open() && x == tot == old(tot) + 1
      ensures H() == InsertAlone(old(H())) && V() == InsertLast(old(V()), c) && S() == Grown(old(S()), c)
      ensures col[..x + 1] == old(col[..x]) + [c]
    {
      hide PutBefore, InsertAlone, Grown;
      ghost var before := col[..tot + 1];
      x := NewNode();
      PutUp(c, x);
      assert col[..x + 1] == before + [c];
    }

    /** Node x, numbered after all others in use, comes in just after node a. */
    static method LinkAfter(next: array<int>, prev: array<int>, a: int, x: int)
      requires next != prev && 0 <= a < x < next.Length == prev.Length
      requires Links(next[..x], prev[..x]).Closed()
      modifies next, prev
      ensures Links(next[..x + 1], prev[..x + 1]) == InsertAfter(old(Links(next[..x], prev[..x])), a)
    {
      ghost var l := Links(next[..x], prev[..x]);
      next[x] := next[a];
      prev[next[a]] := x;
      prev[x] := a;
      next[a] := x;
      assert next[..x + 1] == InsertAfter(l, a).next;
      assert prev[..x + 1] == InsertAfter(l, a).prev;
    }

    /** Node x, numbered after all others in use, alone in its ring. */
    static method LinkAlone(next: array<int>, prev: array<int>, x: int)
      requires next != prev && 0 <= x < next.Length == prev.Length
      requires Links(next[..x], prev[..x]).Closed()
      modifies next, prev
      ensures Links(next[..x + 1], prev[..x + 1]) == InsertAlone(old(Links(next[..x], prev[..x])))
    {
      prev[x] := x;
      next[x] := x;
    }

    /** Reading a link array reads the value of the link. */
    lemma LinkValues(x: int)
      requires Valid() && 0 <= x <= matrix.tot
      ensures matrix.WellFormed() && |matrix.col| == |matrix.row| == matrix.tot + 1
      ensures |View().h.next| == |View().v.next| == |View().h.prev| == |View().v.prev| == matrix.tot + 1
      ensures x < L.Length == R.Length == U.Length == D.Length == col.Length
      ensures R[x] == View().h.next[x] && L[x] == View().h.prev[x]
      ensures D[x] == View().v.next[x] && U[x] == View().v.prev[x]
      ensures col[x] == matrix.col[x]
    {
    }

    /** Following the header list, right from position k, or back. */
    lemma HeadStep(heads: seq<int>, k: nat)
      requires Valid() && Represents(matrix, View(), heads) && k <= |heads|
      ensures m < siz.Length && 0 <= At(0, heads, k) < R.Length && 0 <= At(0, heads, k + 1) < L.Length
      ensures R[At(0, heads, k)] == At(0, heads, k + 1) && L[At(0, heads, k + 1)] == At(0, heads, k)
      ensures (At(0, heads, k) == 0 <==> k == 0) && (At(0, heads, k + 1) == 0 <==> k == |heads|)
      ensures k < |heads| ==> At(0, heads, k + 1) == heads[k] && heads[k] in heads && 1 <= heads[k] <= m
    {
      RingStep(View().h, 0, heads, k);
      LinkValues(At(0, heads, k));
      LinkValues(At(0, heads, k + 1));
    }

    /** A new node at the top of column c. */
    method NewAtTop(c: int) returns (x: int)
      requires Open() && tot + 1 < maxSize && 1 <= c <= m
      modifies this`tot, U, D, siz, col
      ensures Apart() && x == tot == old(tot) + 1 && Links(R[..x], L[..x]) == old(H())
      ensures V() == InsertAfter(old(V()), c) && S() == Grown(old(S()), c)
      ensures col[..x + 1] == old(col[..x]) + [c]
    {
      ghost var before := col[..tot + 1];
      tot := tot + 1;
      x := tot;
      col[x] := c;
      siz[c] := siz[c] + 1;
      LinkAfter(D, U, c, x);
      assert col[..x + 1] == before + [c];
    }

    method HideNode(j: int)
      requires Valid() && View().Fits(matrix) && matrix.m < j <= matrix.tot && View().v.Linked(j)
      modifies U, D, siz
      ensures Valid() && View() == DropNode(matrix, old(View()), j)
    {
      ghost var st := View();
      U[D[j]] := U[j];
      D[U[j]] := D[j];
      siz[col[j]] := siz[col[j]] - 1;
      assert View().v.next == st.v.Unlink(j).next;
      assert View().v.prev == st.v.Unlink(j).prev;
      assert View().siz == st.siz[matrix.col[j] := st.siz[matrix.col[j]] - 1];
    }

    method ShowNode(j: int)
      requires Valid() && View().Fits(matrix) && matrix.m < j <= matrix.tot && U[j] != j
      modifies U, D, siz
      ensures Valid() && View() == BackNode(matrix, old(View()), j)
    {
      ghost var st := View();
      D[U[j]] := j;
      U[D[j]] := j;
      siz[col[j]] := siz[col[j]] + 1;
      assert View().v.next == st.v.Relink(j).next;
      assert View().v.prev == st.v.Relink(j).prev;
      assert View().siz == st.siz[matrix.col[j] := st.siz[matrix.col[j]] + 1];
    }

    method HideHeader(c: int, ghost heads: seq<int>)
      requires Valid() && Represents(matrix, View(), heads) && c in heads
      modifies L, R
      ensures Valid() && View().Fits(matrix) && 1 <= c <= matrix.m <= matrix.tot
      ensures InColumnWalk(matrix, old(View()), heads, c, 0, View(), View().v.next[c])
    {
      hide Represents, InColumnWalk;
      ghost var st := View();
      StartRemove(matrix, st, heads, c);
      L[R[c]] := L[c];
      R[L[c]] := R[c];
      assert View().h.next == st.h.Unlink(c).next;
      assert View().h.prev == st.h.Unlink(c).prev;
    }

    method ShowHeader(c: int)
      requires Valid() && View().Fits(matrix) && 1 <= c <= matrix.m && View().h.prev[c] != c
      modifies L, R
      ensures Valid() && View() == old(View()).(h := old(View()).h.Relink(c))
    {
      ghost var st := View();
      R[L[c]] := c;
      L[R[c]] := c;
      assert View().h.next == st.h.Relink(c).next;
      assert View().h.prev == st.h.Relink(c).prev;
    }

    /**
      Take column c out of the header list, and every row that meets it out of
      the other columns.
     */
    method Remove(c: int, ghost heads: seq<int>)
      requires Valid() && Represents(matrix, View(), heads) && c in heads
      modifies L, R, U, D, siz
      ensures Valid() && View() == Removed(matrix, old(View()), Elems(heads), c)
    {
      hide Valid, View, InColumnWalk, InRowWalk, State.Fits, Represents, Removed;
      ghost var st := View();
      HideHeader(c, heads);
      LinkValues(c);
      var i := D[c];
      ghost var p: nat := 0;
      ColumnWalkFacts(matrix, st, heads, c, p, View(), i);
      while i != c
        invariant Valid() && InColumnWalk(matrix, st, heads, c, p, View(), i)
        decreases |ColList(matrix, Elems(heads), c)| - p
      {
        ColumnWalkFacts(matrix, st, heads, c, p, View(), i);
        HideRow(i, st, heads, c, p, |matrix.Others(i)|);
        p := p + 1;
        LinkValues(i);
        i := D[i];
      }
      ColumnWalkFacts(matrix, st, heads, c, p, View(), i);
    }

    /** The inner loop of `remove`: the other nodes of i's row leave their columns. */
    method HideRow(i: int, ghost st: State, ghost heads: seq<int>, ghost c: int, ghost p: nat, ghost n: nat)
      requires Valid() && View().Fits(matrix) && matrix.m < i <= matrix.tot && n == |matrix.Others(i)|
      requires InRowWalk(matrix, st, heads, c, p, 0, View(), i, View().h.next[i])
      modifies U, D, siz
      ensures Valid() && View().Fits(matrix)
      ensures InColumnWalk(matrix, st, heads, c, p + 1, View(), View().v.next[i])
    {
      hide Valid, View, InColumnWalk, InRowWalk, State.Fits;
      LinkValues(i);
      var j := R[i];
      ghost var q: nat := 0;
      while j != i
        invariant Valid() && InRowWalk(matrix, st, heads, c, p, q, View(), i, j)
        decreases n - q
      {
        RowWalkFacts(matrix, st, heads, c, p, q, View(), i, j);
        j := HideNext(i, j, st, heads, c, p, q);
        q := q + 1;
      }
      RowWalkFacts(matrix, st, heads, c, p, q, View(), i, j);
    }

    /** The body of that loop: j leaves its column, the walk goes on to the right. */
    method HideNext(i: int, j: int, ghost st: State, ghost heads: seq<int>, ghost c: int, ghost p: nat, ghost q: nat)
      returns (next: int)
      requires Valid() && InRowWalk(matrix, st, heads, c, p, q, View(), i, j) && j != i
      modifies U, D, siz
      ensures Valid() && InRowWalk(matrix, st, heads, c, p, q + 1, View(), i, next)
    {
      hide Valid, View, InRowWalk, State.Fits;
      RowWalkFacts(matrix, st, heads, c, p, q, View(), i, j);
      LinkValues(j);
      HideNode(j);
      LinkValues(j);
      next := R[j];
    }

    /**
      Put back what `remove(c)` took out of the structure st: every link and
      every size is again as it was in st.
     */
    method Recover(c: int, ghost st: State, ghost heads: seq<int>)
      requires Valid() && Represents(matrix, st, heads) && c in heads
      requires View() == Removed(matrix, st, Elems(heads), c)
      modifies L, R, U, D, siz
      ensures Valid() && View() == st
    {
      hide Valid, View, InColumnBack, InRowBack, State.Fits, Represents, Removed;
      StartRecover(matrix, st, heads, c, View());
      LinkValues(c);
      var i := U[c];
      ghost var p: nat := |ColList(matrix, Elems(heads), c)|;
      while i != c
        invariant Valid() && InColumnBack(matrix, st, heads, c, p, View(), i)
        decreases p
      {
        ColumnBackFacts(matrix, st, heads, c, p, View(), i);
        p := p - 1;
        ShowRow(i, st, heads, c, p, |matrix.Others(i)|);
        LinkValues(i);
        i := U[i];
      }
      ColumnBackFacts(matrix, st, heads, c, p, View(), i);
      EndRecover(matrix, st, heads, c, View(), i);
      ShowHeader(c);
    }

    /** The inner loop of `recover`: the other nodes of i's row come back, last one first. */
    method ShowRow(i: int, ghost st: State, ghost heads: seq<int>, ghost c: int, ghost p: nat, ghost n: nat)
      requires Valid() && View().Fits(matrix) && matrix.m < i <= matrix.tot
      requires InRowBack(matrix, st, heads, c, p, n, View(), i, View().h.prev[i])
      modifies U, D, siz
      ensures Valid() && View().Fits(matrix)
      ensures InColumnBack(matrix, st, heads, c, p, View(), View().v.prev[i])
    {
      hide Valid, View, InColumnBack, InRowBack, State.Fits;
      LinkValues(i);
      var j := L[i];
      ghost var q := n;
      while j != i
        invariant Valid() && InRowBack(matrix, st, heads, c, p, q, View(), i, j)
        decreases q
      {
        RowBackFacts(matrix, st, heads, c, p, q, View(), i, j);
        q := q - 1;
        j := ShowNext(i, j, st, heads, c, p, q);
      }
      RowBackFacts(matrix, st, heads, c, p, q, View(), i, j);
    }

    /** The body of that loop: j comes back to its column, the walk goes on to the left. */
    method ShowNext(i: int, j: int, ghost st: State, ghost heads: seq<int>, ghost c: int, ghost p: nat, ghost q: nat)
      returns (next: int)
      requires Valid() && InRowBack(matrix, st, heads, c, p, q + 1, View(), i, j)
      modifies U, D, siz
      ensures Valid() && InRowBack(matrix, st, heads, c, p, q, View(), i, next)
    {
      hide Valid, View, InRowBack, State.Fits;
      RowBackNode(matrix, st, heads, c, p, q, View(), i, j);
      LinkValues(j);
      ShowNode(j);
      LinkValues(j);
      next := L[j];
    }

    /** Remove the columns of the other nodes of i's row, going right. */
    method CoverRow(i: int, ghost cs: set<int>, ghost heads: seq<int>) returns (ghost tr: seq<Stage>)
      requires Valid() && Represents(matrix, View(), heads)
      requires matrix.m < i <= matrix.tot && i in matrix.AliveNodes(cs)
      requires Elems(heads) == cs - {matrix.col[i]}
      modifies L, R, U, D, siz
      ensures Valid()
      ensures Trace(matrix, matrix.Others(i), tr) && |tr| == |matrix.Others(i)| + 1
      ensures tr[0] == Stage(old(View()), heads) && View() == tr[|tr| - 1].st
    {
      hide Represents, InCover, Matrix.WellFormed, Matrix.Others, State.Fits;
      ghost var n := |matrix.Others(i)|;
      tr := [Stage(View(), heads)];
      StartCover(matrix, i, cs, View(), heads);
      LinkValues(i);
      var j := R[i];
      CoverFacts(matrix, i, cs, tr, View(), j);
      while j != i
        invariant Valid() && InCover(matrix, i, cs, tr, View(), j)
        invariant 0 < |tr| <= n + 1 && tr[0] == Stage(old(View()), heads)
        decreases n + 1 - |tr|
      {
        j, tr := CoverColumn(i, j, cs, tr);
        CoverFacts(matrix, i, cs, tr, View(), j);
      }
      CoverDone(matrix, i, cs, tr, View());
    }

    /** The body of that loop: remove j's column, and go on to the right. */
    method CoverColumn(i: int, j: int, ghost cs: set<int>, ghost tr: seq<Stage>)
      returns (next: int, ghost more: seq<Stage>)
      requires Valid() && InCover(matrix, i, cs, tr, View(), j) && j != i
      modifies L, R, U, D, siz
      ensures Valid() && InCover(matrix, i, cs, more, View(), next)
      ensures tr != [] && |more| == |tr| + 1 && more[0] == tr[0]
    {
      hide InCover, Valid, Represents, Matrix.WellFormed, State.Fits;
      CoverNext(matrix, i, cs, tr, View(), j);
      LinkValues(j);
      ghost var b := NextOf(matrix, tr, j);
      more := tr + [b];
      Remove(col[j], tr[|tr| - 1].heads);
      LinkValues(j);
      next := R[j];
    }

    /** Recover the columns of the other nodes of i's row, going left: back to the first stage. */
    method UncoverRow(i: int, ghost tr: seq<Stage>, ghost n: nat)
      requires Valid() && View().Fits(matrix) && matrix.m < i <= matrix.tot
      requires InUncover(matrix, i, tr, n, View(), View().h.prev[i])
      modifies L, R, U, D, siz
      ensures Valid() && tr != [] && View() == tr[0].st
    {
      hide Valid, View, InUncover, State.Fits;
      LinkValues(i);
      var j := L[i];
      ghost var q := n;
      UncoverFacts(matrix, i, tr, q, View(), j);
      while j != i
        invariant Valid() && InUncover(matrix, i, tr, q, View(), j)
        invariant j == i <==> q == 0
        decreases q
      {
        q := q - 1;
        j := UncoverColumn(i, j, tr, q);
        UncoverFacts(matrix, i, tr, q, View(), j);
      }
      UncoverFacts(matrix, i, tr, q, View(), j);
    }

    /** The body of that loop: recover j's column, and go on to the left. */
    method UncoverColumn(i: int, j: int, ghost tr: seq<Stage>, ghost q: nat) returns (next: int)
      requires Valid() && InUncover(matrix, i, tr, q + 1, View(), j)
      modifies L, R, U, D, siz
      ensures Valid() && InUncover(matrix, i, tr, q, View(), next)
    {
      hide InUncover, Valid, Represents, Matrix.WellFormed, State.Fits, Trace;
      UncoverNext(matrix, i, tr, q, View(), j);
      LinkValues(j);
      Recover(col[j], tr[q].st, tr[q].heads);
      LinkValues(j);
      next := L[j];
    }
  }
}
