/**
  Building a matrix as the pointer solver does: headers one after another, then
  whole rows of four nodes, each at the bottom of its column.
 */
module RowBuild {
  import opened Rings
  import opened LinkMatrix
  import opened MatrixBuild

  /** Node x, so far alone, comes in just before node a. */
  function PutBefore(l: Links, a: int, x: int): (r: Links)
    requires l.Closed() && 0 <= a < |l.next| && 0 <= x < |l.next|
    ensures r.Closed() && |r.next| == |l.next|
  {
    Links(l.next[x := a][l.prev[a] := x], l.prev[x := l.prev[a]][a := x])
  }

  /** A new node, numbered after all others, comes in just before node a: last in a's ring. */
  function InsertLast(l: Links, a: int): (r: Links)
    requires l.Closed() && 0 <= a < |l.next|
    ensures r.Closed() && |r.next| == |l.next| + 1
  {
    PutBefore(InsertAlone(l), a, |l.next|)
  }

  /** In a ring, just before a is just after the node before it. */
  lemma InsertLastIsAfter(l: Links, a: int)
    requires l.Closed() && 0 <= a < |l.next| && l.next[l.prev[a]] == a
    ensures InsertLast(l, a) == InsertAfter(l, l.prev[a])
  {
    var p, q := InsertLast(l, a), InsertAfter(l, l.prev[a]);
    assert p.next == q.next && p.prev == q.prev;
  }

  /** Going backwards round the ring, the new node is met first. */
  lemma InsertLastRing(l: Links, a: int, ys: seq<int>)
    requires IsRing(l, [a] + ys)
    ensures 0 <= a < |l.next| && IsRing(InsertLast(l, a), [a] + ys + [|l.next|])
  {
    var x, ws := |l.next|, [a] + ys;
    var zs := ws + [x];
    assert ws[0] == a && l.prev[ws[0]] == Before(ws, 0) && l.next[ws[|ws| - 1]] == After(ws, |ws| - 1);
    var r := InsertLast(l, a);
    forall i | 0 <= i < |zs|
      ensures 0 <= zs[i] <= x && r.next[zs[i]] == After(zs, i) && r.prev[zs[i]] == Before(zs, i)
    {
      if i < |ws| {
        assert l.next[ws[i]] == After(ws, i) && l.prev[ws[i]] == Before(ws, i);
      }
    }
  }

  lemma PrevNext(l: Links, ring: seq<int>, k: nat)
    requires IsRing(l, ring) && k < |ring|
    ensures l.next[l.prev[ring[k]]] == ring[k]
  {
    var p := if k == 0 then |ring| - 1 else k - 1;
    assert l.prev[ring[k]] == ring[p];
    assert l.next[ring[p]] == After(ring, p);
  }

  lemma InsertLastFrame(l: Links, a: int, ring: seq<int>, zs: seq<int>)
    requires IsRing(l, zs) && IsRing(l, ring) && a in ring && (forall y | y in ring :: y !in zs)
    ensures IsRing(InsertLast(l, a), zs)
  {
    var k := IndexOf(ring, a);
    assert l.prev[ring[k]] == Before(ring, k);
    var b := l.prev[a];
    assert b in ring;
    var j := IndexOf(ring, b);
    assert l.next[ring[j]] == After(ring, j);
    PrevNext(l, ring, k);
    InsertLastIsAfter(l, a);
    InsertAfterFrame(l, b, zs);
  }

  // ----- headers -----------------------------------------------------------------------------

  /** The structure with one header more, at the end of the header list. */
  ghost function OneHeaderMore(st: State): State
    requires st.h.Closed() && st.v.Closed() && |st.h.next| > 0
  {
    State(InsertLast(st.h, 0), InsertAlone(st.v), st.siz + [0])
  }

  lemma HeaderComplete(m: nat, col: seq<int>, row: seq<int>, st: State, col2: seq<int>, row2: seq<int>)
    requires |col| == |row| == m + 1 && |col2| == |row2| == m + 2 && Complete(NoRows(m, col, row), st)
    ensures Complete(NoRows(m + 1, col2, row2), OneHeaderMore(st))
  {
    var st2, mx, mx2 := OneHeaderMore(st), NoRows(m, col, row), NoRows(m + 1, col2, row2);
    NoRowsWellFormed(m + 1, col2, row2);
    assert IsRing(st.h, [0] + AllHeads(m));
    InsertLastRing(st.h, 0, AllHeads(m));
    assert [0] + AllHeads(m) + [m + 1] == [0] + AllHeads(m + 1);
    forall c | 1 <= c <= m + 1 ensures FullColumn(mx2, st2, c) {
      if c <= m {
        assert FullColumn(mx, st, c);
        InsertAloneFrame(st.v, [c] + []);
      } else {
        InsertAloneFrame(st.v, []);
        assert [c] + mx2.columns[c] == [c];
      }
    }
  }

  // ----- columns, one node at a time ---------------------------------------------------------

  /** What is linked vertically: columns[c] below header c, for the nodes numbered up to |col| - 1. */
  ghost predicate ColumnsBuilt(v: Links, siz: seq<int>, m: nat, col: seq<int>, columns: seq<seq<int>>) {
    && v.Closed() && |v.next| == |col| && m < |col| && |columns| == |siz| == m + 1
    && (forall x | m < x < |col| :: 1 <= col[x] <= m && x in columns[col[x]])
    && (forall c | 1 <= c <= m :: ColumnBuilt(v, siz, m, col, columns, c))
  }

  ghost predicate ColumnBuilt(v: Links, siz: seq<int>, m: nat, col: seq<int>, columns: seq<seq<int>>, c: int)
    requires v.Closed() && |v.next| == |col| && |columns| == |siz| == m + 1 && 1 <= c <= m
  {
    && IsRing(v, [c] + columns[c]) && siz[c] == |columns[c]| && Distinct(columns[c])
    && forall x | x in columns[c] :: m < x < |col| && col[x] == c
  }

  /** columns with one node more at the bottom of column c. */
  function AtBottom(columns: seq<seq<int>>, c: int, x: int): (r: seq<seq<int>>)
    requires 0 <= c < |columns|
    ensures |r| == |columns|
  {
    columns[c := columns[c] + [x]]
  }

  lemma ColumnsStep(v: Links, siz: seq<int>, m: nat, col: seq<int>, columns: seq<seq<int>>, c: int)
    requires ColumnsBuilt(v, siz, m, col, columns) && 1 <= c <= m
    ensures ColumnsBuilt(InsertLast(v, c), siz[c := siz[c] + 1], m, col + [c], AtBottom(columns, c, |col|))
  {
    hide IsRing, InsertAfter;
    var v2, siz2, col2, columns2 := InsertLast(v, c), siz[c := siz[c] + 1], col + [c], AtBottom(columns, c, |col|);
    forall d | 1 <= d <= m ensures ColumnBuilt(v2, siz2, m, col2, columns2, d) {
      ColumnStepAt(v, siz, m, col, columns, c, d);
    }
  }

  lemma ColumnStepAt(v: Links, siz: seq<int>, m: nat, col: seq<int>, columns: seq<seq<int>>, c: int, d: int)
    requires ColumnsBuilt(v, siz, m, col, columns) && 1 <= c <= m && 1 <= d <= m
    ensures ColumnBuilt(InsertLast(v, c), siz[c := siz[c] + 1], m, col + [c], AtBottom(columns, c, |col|), d)
  {
    hide InsertLast;
    assert ColumnBuilt(v, siz, m, col, columns, c) && ColumnBuilt(v, siz, m, col, columns, d);
    if d == c {
      InsertLastRing(v, c, columns[c]);
      assert [c] + columns[c] + [|col|] == [c] + (columns[c] + [|col|]);
      assert |col| !in columns[c];
    } else {
      InsertLastFrame(v, c, [c] + columns[c], [d] + columns[d]);
    }
  }

  lemma CompleteColumns(mx: Matrix, st: State)
    requires Complete(mx, st)
    ensures ColumnsBuilt(st.v, st.siz, mx.m, mx.col, mx.columns)
  {
    forall c | 1 <= c <= mx.m ensures ColumnBuilt(st.v, st.siz, mx.m, mx.col, mx.columns, c) {
      assert FullColumn(mx, st, c);
    }
  }

  // ----- rows of four ------------------------------------------------------------------------

  /** The matrix with one row more, of four nodes: each at the bottom of its column. */
  function WithRow(mx: Matrix, id: int, c0: int, c1: int, c2: int, c3: int): Matrix
    requires |mx.columns| == mx.m + 1 && 1 <= c0 <= mx.m && 1 <= c1 <= mx.m && 1 <= c2 <= mx.m && 1 <= c3 <= mx.m
  {
    var t := mx.tot;
    Matrix(mx.m, t + 4, mx.col + [c0] + [c1] + [c2] + [c3], mx.row + [id, id, id, id],
           AtBottom(AtBottom(AtBottom(AtBottom(mx.columns, c0, t + 1), c1, t + 2), c2, t + 3), c3, t + 4),
           mx.rows[id := [t + 1, t + 2, t + 3, t + 4]])
  }

  /** Four new nodes linked to each other, left to right. */
  function FourLinked(h: Links): Links {
    var n := |h.next|;
    Links(h.next + [n + 1, n + 2, n + 3, n], h.prev + [n + 3, n, n + 1, n + 2])
  }

  /** Put one after another before the first, the three others follow it in order. */
  lemma FourPut(h: Links)
    requires h.Closed()
    ensures var n := |h.next|;
            var alone := InsertAlone(InsertAlone(InsertAlone(InsertAlone(h))));
            PutBefore(PutBefore(PutBefore(alone, n, n + 1), n, n + 2), n, n + 3) == FourLinked(h)
  {
    var n := |h.next|;
    var a0 := InsertAlone(InsertAlone(InsertAlone(InsertAlone(h))));
    assert a0.next == h.next + [n, n + 1, n + 2, n + 3] && a0.prev == h.prev + [n, n + 1, n + 2, n + 3];
    var a1 := PutBefore(a0, n, n + 1);
    assert a1.next == h.next + [n + 1, n, n + 2, n + 3] && a1.prev == h.prev + [n + 1, n, n + 2, n + 3];
    var a2 := PutBefore(a1, n, n + 2);
    assert a2.next == h.next + [n + 1, n + 2, n, n + 3] && a2.prev == h.prev + [n + 2, n, n + 1, n + 3];
    var a3 := PutBefore(a2, n, n + 3);
    assert a3.next == h.next + [n + 1, n + 2, n + 3, n] && a3.prev == h.prev + [n + 3, n, n + 1, n + 2];
  }

  lemma FourLinkedFrame(h: Links, zs: seq<int>)
    requires IsRing(h, zs)
    ensures IsRing(FourLinked(h), zs)
  {
    forall i | 0 <= i < |zs|
      ensures FourLinked(h).next[zs[i]] == After(zs, i) && FourLinked(h).prev[zs[i]] == Before(zs, i)
    {
      assert h.next[zs[i]] == After(zs, i) && h.prev[zs[i]] == Before(zs, i);
    }
  }

  lemma FourLinkedShape(h: Links)
    requires h.Closed()
    ensures FourLinked(h).Closed() && |FourLinked(h).next| == |h.next| + 4
  {
  }

  lemma FourLinkedRing(h: Links)
    requires h.Closed()
    ensures var n := |h.next|; IsRing(FourLinked(h), [n, n + 1, n + 2, n + 3])
  {
  }

  /** The new nodes, four in four different columns. */
  ghost predicate Four(mx: Matrix, c0: int, c1: int, c2: int, c3: int) {
    && 1 <= c0 <= mx.m && 1 <= c1 <= mx.m && 1 <= c2 <= mx.m && 1 <= c3 <= mx.m
    && c0 != c1 && c0 != c2 && c0 != c3 && c1 != c2 && c1 != c3 && c2 != c3
  }

  lemma WithRowColumns(mx: Matrix, st: State, id: int, c0: int, c1: int, c2: int, c3: int, v: Links, siz: seq<int>)
    requires Complete(mx, st) && Four(mx, c0, c1, c2, c3)
    requires v == InsertLast(InsertLast(InsertLast(InsertLast(st.v, c0), c1), c2), c3)
    requires siz == Grown(Grown(Grown(Grown(st.siz, c0), c1), c2), c3)
    ensures var b := WithRow(mx, id, c0, c1, c2, c3); ColumnsBuilt(v, siz, mx.m, b.col, b.columns)
  {
    hide ColumnsBuilt, InsertLast, AtBottom, Complete;
    CompleteFits(mx, st);
    CompleteColumns(mx, st);
    var m, t := mx.m, mx.tot;
    var v0, s0, l0, k0 := st.v, st.siz, mx.col, mx.columns;
    var v1, s1, l1, k1 := InsertLast(v0, c0), Grown(s0, c0), l0 + [c0], AtBottom(k0, c0, t + 1);
    ColumnsStep(v0, s0, m, l0, k0, c0);
    var v2, s2, l2, k2 := InsertLast(v1, c1), Grown(s1, c1), l1 + [c1], AtBottom(k1, c1, t + 2);
    ColumnsStep(v1, s1, m, l1, k1, c1);
    var v3, s3, l3, k3 := InsertLast(v2, c2), Grown(s2, c2), l2 + [c2], AtBottom(k2, c2, t + 3);
    ColumnsStep(v2, s2, m, l2, k2, c2);
    ColumnsStep(v3, s3, m, l3, k3, c3);
  }

  /** One more node counted in column c. */
  function Grown(siz: seq<int>, c: int): (r: seq<int>)
    requires 0 <= c < |siz|
    ensures |r| == |siz|
  {
    siz[c := siz[c] + 1]
  }

  lemma WithRowWellFormed(mx: Matrix, id: int, c0: int, c1: int, c2: int, c3: int, v: Links, siz: seq<int>)
    requires mx.WellFormed() && Four(mx, c0, c1, c2, c3) && id !in mx.rows
    requires var b := WithRow(mx, id, c0, c1, c2, c3); ColumnsBuilt(v, siz, mx.m, b.col, b.columns)
    ensures WithRow(mx, id, c0, c1, c2, c3).WellFormed()
  {
    hide IsRing;
    var b := WithRow(mx, id, c0, c1, c2, c3);
    assert |b.col| == |b.row| == b.tot + 1;
    forall c | 1 <= c <= b.m
      ensures Distinct(b.columns[c]) && forall x | x in b.columns[c] :: b.m < x <= b.tot && b.col[x] == c
    {
      assert ColumnBuilt(v, siz, mx.m, b.col, b.columns, c);
    }
    forall r | r in b.rows ensures b.RowOk(r) {
      if r == id { NewFourOk(mx, id, c0, c1, c2, c3); } else { OldFourOk(mx, id, c0, c1, c2, c3, r); }
    }
    forall x | b.m < x <= b.tot ensures b.row[x] in b.rows && x in b.rows[b.row[x]] {
      WithRowNode(mx, id, c0, c1, c2, c3, x);
    }
  }

  lemma WithRowNode(mx: Matrix, id: int, c0: int, c1: int, c2: int, c3: int, x: int)
    requires mx.WellFormed() && Four(mx, c0, c1, c2, c3) && id !in mx.rows && mx.m < x <= mx.tot + 4
    ensures var b := WithRow(mx, id, c0, c1, c2, c3);
            |b.row| == b.tot + 1 && b.row[x] in b.rows && x in b.rows[b.row[x]]
  {
    if x <= mx.tot { assert mx.row[x] in mx.rows && x in mx.rows[mx.row[x]]; }
  }

  lemma WithRowCols(mx: Matrix, id: int, c0: int, c1: int, c2: int, c3: int)
    requires mx.WellFormed() && Four(mx, c0, c1, c2, c3) && id !in mx.rows
    requires WithRow(mx, id, c0, c1, c2, c3).WellFormed()
    ensures forall r | r in mx.rows :: WithRow(mx, id, c0, c1, c2, c3).RowCols(r) == mx.RowCols(r)
    ensures WithRow(mx, id, c0, c1, c2, c3).RowCols(id) == {c0, c1, c2, c3}
  {
    var b := WithRow(mx, id, c0, c1, c2, c3);
    forall r | r in mx.rows ensures b.RowCols(r) == mx.RowCols(r) {
      assert mx.RowOk(r);
    }
    var row := b.rows[id];
    assert row[0] in row && row[1] in row && row[2] in row && row[3] in row;
    assert b.col[row[0]] == c0 && b.col[row[1]] == c1 && b.col[row[2]] == c2 && b.col[row[3]] == c3;
  }

  lemma NewFourOk(mx: Matrix, id: int, c0: int, c1: int, c2: int, c3: int)
    requires mx.WellFormed() && Four(mx, c0, c1, c2, c3)
    ensures var b := WithRow(mx, id, c0, c1, c2, c3);
            |b.col| == |b.row| == b.tot + 1 && b.RowOk(id)
  {
    var b := WithRow(mx, id, c0, c1, c2, c3);
    var row := b.rows[id];
    assert b.ColOf(row[0]) == c0 && b.ColOf(row[1]) == c1 && b.ColOf(row[2]) == c2 && b.ColOf(row[3]) == c3;
  }

  lemma OldFourOk(mx: Matrix, id: int, c0: int, c1: int, c2: int, c3: int, r: int)
    requires mx.WellFormed() && Four(mx, c0, c1, c2, c3) && r in mx.rows && r != id
    ensures var b := WithRow(mx, id, c0, c1, c2, c3);
            |b.col| == |b.row| == b.tot + 1 && b.RowOk(r)
  {
    var b := WithRow(mx, id, c0, c1, c2, c3);
    assert mx.RowOk(r);
    var row := mx.rows[r];
    forall i, j | 0 <= i < j < |row| ensures b.ColOf(row[i]) != b.ColOf(row[j]) {
      assert row[i] in row && row[j] in row;
      assert mx.ColOf(row[i]) != mx.ColOf(row[j]);
    }
  }

  /** Adding a row keeps the structure complete, for the matrix with the new row. */
  lemma RowComplete(mx: Matrix, st: State, id: int, c0: int, c1: int, c2: int, c3: int, v: Links, siz: seq<int>)
    requires Complete(mx, st) && Four(mx, c0, c1, c2, c3) && id !in mx.rows
    requires v == InsertLast(InsertLast(InsertLast(InsertLast(st.v, c0), c1), c2), c3)
    requires siz == Grown(Grown(Grown(Grown(st.siz, c0), c1), c2), c3)
    ensures WithRow(mx, id, c0, c1, c2, c3).WellFormed()
    ensures Complete(WithRow(mx, id, c0, c1, c2, c3), State(FourLinked(st.h), v, siz))
  {
    hide InsertLast, ColumnsBuilt, ColumnBuilt, IsRing, WithRow, FourLinked, Matrix.WellFormed, AtBottom, Grown;
    CompleteFits(mx, st);
    var b, st2 := WithRow(mx, id, c0, c1, c2, c3), State(FourLinked(st.h), v, siz);
    WithRowColumns(mx, st, id, c0, c1, c2, c3, v, siz);
    WithRowWellFormed(mx, id, c0, c1, c2, c3, v, siz);
    RowShape(mx, st, id, c0, c1, c2, c3, v, siz);
    FourLinkedFrame(st.h, [0] + AllHeads(mx.m));
    forall c | 1 <= c <= b.m ensures FullColumn(b, st2, c) {
      BuiltIsFull(b, st2, c);
    }
    forall r | r in b.rows ensures IsRing(st2.h, b.rows[r]) {
      RowLinked(mx, st, id, c0, c1, c2, c3, r);
    }
  }

  lemma RowShape(mx: Matrix, st: State, id: int, c0: int, c1: int, c2: int, c3: int, v: Links, siz: seq<int>)
    requires Complete(mx, st) && Four(mx, c0, c1, c2, c3) && WithRow(mx, id, c0, c1, c2, c3).WellFormed()
    requires var b := WithRow(mx, id, c0, c1, c2, c3); ColumnsBuilt(v, siz, mx.m, b.col, b.columns)
    ensures var b := WithRow(mx, id, c0, c1, c2, c3);
            && b.m == mx.m && b.tot == mx.tot + 4 && State(FourLinked(st.h), v, siz).Fits(b)
            && (forall r :: r in b.rows <==> r in mx.rows || r == id)
            && ColumnsBuilt(v, siz, b.m, b.col, b.columns)
  {
    hide IsRing, ColumnBuilt, Matrix.WellFormed, Complete, FourLinked;
    CompleteFits(mx, st);
    FourLinkedShape(st.h);
  }

  lemma BuiltIsFull(b: Matrix, st: State, c: int)
    requires st.Fits(b) && ColumnsBuilt(st.v, st.siz, b.m, b.col, b.columns) && 1 <= c <= b.m
    ensures FullColumn(b, st, c)
  {
    hide IsRing;
    assert ColumnBuilt(st.v, st.siz, b.m, b.col, b.columns, c);
  }

  lemma RowLinked(mx: Matrix, st: State, id: int, c0: int, c1: int, c2: int, c3: int, r: int)
    requires Complete(mx, st) && Four(mx, c0, c1, c2, c3) && id !in mx.rows && (r in mx.rows || r == id)
    ensures IsRing(FourLinked(st.h), WithRow(mx, id, c0, c1, c2, c3).rows[r])
  {
    hide IsRing, FourLinked;
    if r == id {
      FourLinkedRing(st.h);
    } else {
      assert IsRing(st.h, mx.rows[r]);
      FourLinkedFrame(st.h, mx.rows[r]);
    }
  }
}
