/** Building the matrix: no rows at first, then one node at a time. */
module MatrixBuild {
  import opened Rings
  import opened LinkMatrix

  /** The headers 1..m, in order. */
  function AllHeads(m: nat): (hs: seq<int>)
    ensures |hs| == m && forall k | 0 <= k < m :: hs[k] == k + 1
  {
    seq(m, k => k + 1)
  }

  lemma AllHeadsMembers(m: nat)
    ensures forall c :: c in Elems(AllHeads(m)) <==> 1 <= c <= m
  {
    forall c | 1 <= c <= m ensures c in AllHeads(m) {
      assert AllHeads(m)[c - 1] == c;
    }
  }

  function NoRows(m: nat, col: seq<int>, row: seq<int>): Matrix {
    Matrix(m, m, col, row, seq(m + 1, _ => []), map[])
  }

  /** The matrix with a one more, in row r and column c, as `insert` places it: top of the column, second in the row. */
  ghost function WithOne(mx: Matrix, r: int, c: int): Matrix
    requires mx.WellFormed() && 1 <= c <= mx.m
  {
    var x := mx.tot + 1;
    assert r in mx.rows ==> mx.RowOk(r);
    Matrix(mx.m, x, mx.col + [c], mx.row + [r], mx.columns[c := [x] + mx.columns[c]],
           mx.rows[r := if r in mx.rows then [mx.rows[r][0], x] + mx.rows[r][1..] else [x]])
  }

  /** A new one keeps the matrix well formed when its row has none in that column yet. */
  lemma WithOneWellFormed(mx: Matrix, r: int, c: int)
    requires mx.WellFormed() && 1 <= c <= mx.m && (r in mx.rows ==> c !in mx.RowCols(r))
    ensures WithOne(mx, r, c).WellFormed()
    ensures forall s :: s in WithOne(mx, r, c).rows <==> s in mx.rows || s == r
    ensures forall s | s in mx.rows && s != r :: WithOne(mx, r, c).RowCols(s) == mx.RowCols(s)
    ensures WithOne(mx, r, c).RowCols(r) == (if r in mx.rows then mx.RowCols(r) else {}) + {c}
  {
    var b := WithOne(mx, r, c);
    forall s | s in b.rows ensures b.RowOk(s) {
      if s == r && r in mx.rows {
        NewRowOk(mx, r, c);
      } else if s == r {
        assert b.rows[r] == [b.tot] && b.row[b.tot] == r;
      } else {
        OldRowOk(mx, r, c, s);
      }
    }
    WithOneNodes(mx, r, c);
    WithOneColumns(mx, r, c);
    RowColsAfter(mx, r, c);
  }

  lemma OldRowOk(mx: Matrix, r: int, c: int, s: int)
    requires mx.WellFormed() && 1 <= c <= mx.m && s in mx.rows && s != r
    ensures |WithOne(mx, r, c).col| == |WithOne(mx, r, c).row| == WithOne(mx, r, c).tot + 1
    ensures WithOne(mx, r, c).RowOk(s)
  {
    var b := WithOne(mx, r, c);
    assert mx.RowOk(s);
    var row := mx.rows[s];
    forall i, j | 0 <= i < j < |row| ensures b.ColOf(row[i]) != b.ColOf(row[j]) {
      assert row[i] in row && row[j] in row;
      assert mx.ColOf(row[i]) != mx.ColOf(row[j]);
    }
  }

  lemma WithOneNodes(mx: Matrix, r: int, c: int)
    requires mx.WellFormed() && 1 <= c <= mx.m
    ensures var b := WithOne(mx, r, c);
            forall y | b.m < y <= b.tot ::
              && 1 <= b.col[y] <= b.m && y in b.columns[b.col[y]]
              && b.row[y] in b.rows && y in b.rows[b.row[y]]
  {
    var b := WithOne(mx, r, c);
    forall y | b.m < y <= b.tot
      ensures 1 <= b.col[y] <= b.m && y in b.columns[b.col[y]] && b.row[y] in b.rows && y in b.rows[b.row[y]]
    {
      if y <= mx.tot {
        assert y in mx.columns[mx.col[y]] && y in mx.rows[mx.row[y]];
        if mx.row[y] == r { RowOfNew(mx.rows[r], b.tot, y); }
      }
    }
  }

  lemma WithOneColumns(mx: Matrix, r: int, c: int)
    requires mx.WellFormed() && 1 <= c <= mx.m
    ensures var b := WithOne(mx, r, c);
            forall d | 1 <= d <= b.m :: Distinct(b.columns[d]) && forall y | y in b.columns[d] :: b.m < y <= b.tot && b.col[y] == d
  {
    var b := WithOne(mx, r, c);
    forall d | 1 <= d <= b.m
      ensures Distinct(b.columns[d]) && forall y | y in b.columns[d] :: b.m < y <= b.tot && b.col[y] == d
    {
      assert Distinct(mx.columns[d]);
      if d == c {
        forall y | y in b.columns[d] ensures y == b.tot || y in mx.columns[d] {}
        ConsDistinct(b.tot, mx.columns[d]);
      }
    }
  }

  lemma RowOfNew(row: seq<int>, x: int, y: int)
    requires row != []
    ensures y in [row[0], x] + row[1..] <==> y in row || y == x
  {
    assert row == [row[0]] + row[1..];
  }

  lemma NewRowOk(mx: Matrix, r: int, c: int)
    requires mx.WellFormed() && 1 <= c <= mx.m && r in mx.rows && c !in mx.RowCols(r)
    ensures |WithOne(mx, r, c).col| == |WithOne(mx, r, c).row| == WithOne(mx, r, c).tot + 1
    ensures WithOne(mx, r, c).RowOk(r)
  {
    var b := WithOne(mx, r, c);
    var x := b.tot;
    var row := mx.rows[r];
    assert mx.RowOk(r);
    var zs := b.rows[r];
    forall y | y in zs ensures b.m < y <= b.tot && b.row[y] == r { RowOfNew(row, x, y); }
    forall i, j | 0 <= i < j < |zs| ensures zs[i] != zs[j] && b.ColOf(zs[i]) != b.ColOf(zs[j]) {
      NewRowPair(mx, r, c, i, j);
    }
  }

  lemma NewRowPair(mx: Matrix, r: int, c: int, i: nat, j: nat)
    requires mx.WellFormed() && 1 <= c <= mx.m && r in mx.rows && c !in mx.RowCols(r)
    requires i < j < |WithOne(mx, r, c).rows[r]|
    ensures var b := WithOne(mx, r, c); var zs := b.rows[r];
            zs[i] != zs[j] && b.ColOf(zs[i]) != b.ColOf(zs[j])
  {
    var b := WithOne(mx, r, c);
    var row, zs := mx.rows[r], b.rows[r];
    assert mx.RowOk(r);
    hide Matrix.WellFormed;
    if i == 1 || j == 1 {
      var o := if i == 1 then j - 1 else 0;
      assert row[o] in row && mx.col[row[o]] in mx.RowCols(r);
      assert zs[if i == 1 then j else i] == row[o];
    } else {
      var oi := if i == 0 then 0 else i - 1;
      assert zs[i] == row[oi] && zs[j] == row[j - 1] && row[oi] in row && row[j - 1] in row;
      assert mx.ColOf(row[oi]) != mx.ColOf(row[j - 1]);
    }
  }

  lemma RowColsAfter(mx: Matrix, r: int, c: int)
    requires mx.WellFormed() && 1 <= c <= mx.m && WithOne(mx, r, c).WellFormed()
    ensures forall s | s in mx.rows && s != r :: WithOne(mx, r, c).RowCols(s) == mx.RowCols(s)
    ensures WithOne(mx, r, c).RowCols(r) == (if r in mx.rows then mx.RowCols(r) else {}) + {c}
  {
    var b := WithOne(mx, r, c);
    forall s | s in mx.rows && s != r ensures b.RowCols(s) == mx.RowCols(s) {
      assert mx.RowOk(s);
    }
    ChangedRowCols(mx, r, c);
  }

  lemma ChangedRowCols(mx: Matrix, r: int, c: int)
    requires mx.WellFormed() && 1 <= c <= mx.m && WithOne(mx, r, c).WellFormed()
    ensures WithOne(mx, r, c).RowCols(r) == (if r in mx.rows then mx.RowCols(r) else {}) + {c}
  {
    var b := WithOne(mx, r, c);
    assert b.RowOk(r) && b.col[b.tot] == c;
    if r in mx.rows {
      assert mx.RowOk(r);
      forall y ensures y in b.rows[r] <==> y in mx.rows[r] || y == b.tot { RowOfNew(mx.rows[r], b.tot, y); }
    } else {
      assert b.rows[r] == [b.tot];
    }
  }

  // ----- the links -----------------------------------------------------------------

  /** Every column active, every one linked. */
  ghost predicate Complete(mx: Matrix, st: State) {
    && st.Fits(mx)
    && IsRing(st.h, [0] + AllHeads(mx.m))
    && RowsOk(mx, st)
    && (forall c | 1 <= c <= mx.m :: FullColumn(mx, st, c))
  }

  ghost predicate FullColumn(mx: Matrix, st: State, c: int)
    requires st.Fits(mx) && 1 <= c <= mx.m
  {
    IsRing(st.v, [c] + mx.columns[c]) && st.siz[c] == |mx.columns[c]|
  }

  lemma CompleteRepresents(mx: Matrix, st: State)
    requires Complete(mx, st)
    ensures Represents(mx, st, AllHeads(mx.m))
  {
    AllHeadsMembers(mx.m);
    var cs := Elems(AllHeads(mx.m));
    forall c | c in cs ensures 1 <= c <= mx.m && ColumnOk(mx, st, c, mx.AliveNodes(cs)) {
      forall x | x in mx.columns[c] ensures x in mx.AliveNodes(cs) {
        assert mx.RowOk(mx.row[x]);
      }
      KeepAll(mx.columns[c], mx.AliveNodes(cs));
      assert FullColumn(mx, st, c);
    }
    assert forall c | c in AllHeads(mx.m) :: c in cs;
  }

  /** What `insert` makes of the links. */
  ghost function Inserted(mx: Matrix, st: State, r: int, c: int): State
    requires st.Fits(mx) && 1 <= c <= mx.m
  {
    assert r in mx.rows ==> mx.RowOk(r) && mx.rows[r][0] in mx.rows[r];
    State(if r in mx.rows then InsertAfter(st.h, mx.rows[r][0]) else InsertAlone(st.h),
          InsertAfter(st.v, c),
          st.siz[c := st.siz[c] + 1])
  }

  lemma InsertedIs(mx: Matrix, st: State, r: int, c: int)
    requires st.Fits(mx) && 1 <= c <= mx.m
    ensures var t := Inserted(mx, st, r, c);
            && t.v == InsertAfter(st.v, c) && t.siz == st.siz[c := st.siz[c] + 1]
            && (r !in mx.rows ==> t.h == InsertAlone(st.h))
            && (r in mx.rows ==> mx.rows[r] != [] && 0 <= mx.rows[r][0] <= mx.tot && t.h == InsertAfter(st.h, mx.rows[r][0]))
  {
    RowNodes(mx, r);
  }

  lemma InsertedColumn(mx: Matrix, st: State, r: int, c: int, d: int)
    requires Complete(mx, st) && 1 <= c <= mx.m && 1 <= d <= mx.m
    ensures IsRing(InsertAfter(st.v, c), [d] + (if d == c then [mx.tot + 1] + mx.columns[c] else mx.columns[d]))
  {
    assert FullColumn(mx, st, c) && FullColumn(mx, st, d);
    if d == c {
      InsertAfterRing(st.v, c, mx.columns[c]);
      assert [c, mx.tot + 1] + mx.columns[c] == [c] + ([mx.tot + 1] + mx.columns[c]);
    } else {
      var ring, other := [c] + mx.columns[c], [d] + mx.columns[d];
      assert ring[0] == c && st.v.next[ring[0]] == After(ring, 0) && st.v.next[c] in ring;
      InsertAfterFrame(st.v, c, other);
    }
  }

  lemma InsertedRow(mx: Matrix, st: State, r: int, c: int, s: int)
    requires Complete(mx, st) && 1 <= c <= mx.m && s in WithOne(mx, r, c).rows
    ensures IsRing(Inserted(mx, st, r, c).h, WithOne(mx, r, c).rows[s])
  {
    var x := mx.tot + 1;
    if r in mx.rows {
      assert mx.RowOk(r);
      var row := mx.rows[r];
      assert row == [row[0]] + row[1..];
      assert IsRing(st.h, row);
      assert st.h.next[row[0]] == After(row, 0) && st.h.next[row[0]] in row;
      if s == r {
        InsertAfterRing(st.h, row[0], row[1..]);
      } else {
        assert mx.RowOk(s);
        assert IsRing(st.h, mx.rows[s]);
        InsertAfterFrame(st.h, row[0], mx.rows[s]);
      }
    } else {
      InsertAloneFrame(st.h, [0] + AllHeads(mx.m));
      if s != r {
        assert IsRing(st.h, mx.rows[s]);
        InsertAloneFrame(st.h, mx.rows[s]);
      }
    }
  }

  lemma InsertedHeads(mx: Matrix, st: State, r: int, c: int)
    requires Complete(mx, st) && 1 <= c <= mx.m
    ensures IsRing(Inserted(mx, st, r, c).h, [0] + AllHeads(mx.m))
  {
    var ring := [0] + AllHeads(mx.m);
    if r in mx.rows {
      assert mx.RowOk(r);
      var row := mx.rows[r];
      assert IsRing(st.h, row);
      assert st.h.next[row[0]] == After(row, 0) && st.h.next[row[0]] in row;
      InsertAfterFrame(st.h, row[0], ring);
    } else {
      InsertAloneFrame(st.h, ring);
    }
  }

  /** Inserting keeps the structure complete, for the matrix with the new one. */
  lemma InsertedComplete(mx: Matrix, st: State, r: int, c: int)
    requires Complete(mx, st) && 1 <= c <= mx.m && (r in mx.rows ==> c !in mx.RowCols(r))
    ensures Complete(WithOne(mx, r, c), Inserted(mx, st, r, c))
  {
    var b, t := WithOne(mx, r, c), Inserted(mx, st, r, c);
    WithOneWellFormed(mx, r, c);
    assert t.Fits(b);
    InsertedHeads(mx, st, r, c);
    forall s | s in b.rows ensures IsRing(t.h, b.rows[s]) { InsertedRow(mx, st, r, c, s); }
    forall d | 1 <= d <= b.m ensures FullColumn(b, t, d) { InsertedFullColumn(mx, st, r, c, d); }
  }

  lemma InsertedFullColumn(mx: Matrix, st: State, r: int, c: int, d: int)
    requires Complete(mx, st) && 1 <= c <= mx.m && 1 <= d <= mx.m
    requires Inserted(mx, st, r, c).Fits(WithOne(mx, r, c))
    ensures FullColumn(WithOne(mx, r, c), Inserted(mx, st, r, c), d)
  {
    InsertedColumn(mx, st, r, c, d);
    assert FullColumn(mx, st, d);
  }

  lemma RowNodes(mx: Matrix, r: int)
    requires mx.WellFormed()
    ensures r in mx.rows ==> mx.rows[r] != [] && mx.m < mx.rows[r][0] <= mx.tot
    ensures forall s | s in mx.rows :: mx.rows[s] != []
  {
    forall s | s in mx.rows ensures mx.rows[s] != [] && mx.m < mx.rows[s][0] <= mx.tot {
      assert mx.RowOk(s) && mx.rows[s][0] in mx.rows[s];
    }
  }

  lemma NoRowsWellFormed(m: nat, col: seq<int>, row: seq<int>)
    requires |col| == |row| == m + 1
    ensures NoRows(m, col, row).WellFormed()
  {
  }

  lemma CompleteFits(mx: Matrix, st: State)
    requires Complete(mx, st)
    ensures st.Fits(mx) && mx.WellFormed() && st.h.Closed() && st.v.Closed() && |st.siz| == mx.m + 1 && mx.m <= mx.tot
    ensures |st.h.next| == |st.h.prev| == |st.v.next| == |st.v.prev| == mx.tot + 1 == |mx.col| == |mx.row|
    ensures |mx.columns| == mx.m + 1
  {
  }

  lemma InsertedShape(mx: Matrix, st: State, r: int, c: int)
    requires Complete(mx, st) && 1 <= c <= mx.m && (r in mx.rows ==> c !in mx.RowCols(r))
    ensures var b := WithOne(mx, r, c);
            && b.WellFormed() && b.m == mx.m && b.tot == mx.tot + 1 && b.col == mx.col + [c] && b.row == mx.row + [r]
            && (forall s :: s in b.rows <==> s in mx.rows || s == r)
            && (forall s | s in mx.rows && s != r :: b.rows[s] == mx.rows[s])
            && b.rows[r] != [] && b.rows[r][0] == (if r in mx.rows && mx.rows[r] != [] then mx.rows[r][0] else b.tot)
  {
    WithOneWellFormed(mx, r, c);
    RowNodes(mx, r);
  }

  /** The structure left by `build` is complete. */
  lemma EmptyComplete(mx: Matrix, st: State)
    requires |mx.col| == |mx.row| == mx.m + 1 && mx == NoRows(mx.m, mx.col, mx.row)
    requires |st.h.next| == |st.h.prev| == |st.v.next| == |st.v.prev| == |st.siz| == mx.m + 1
    requires forall k | 0 <= k <= mx.m :: st.h.next[k] == (if k == mx.m then 0 else k + 1)
    requires forall k | 0 <= k <= mx.m :: st.h.prev[k] == (if k == 0 then mx.m else k - 1)
    requires forall k | 0 <= k <= mx.m :: st.v.next[k] == k == st.v.prev[k] && st.siz[k] == 0
    ensures mx.WellFormed() && Complete(mx, st)
  {
    var ring := [0] + AllHeads(mx.m);
    assert forall k | 0 <= k < |ring| :: ring[k] == k;
  }
}
