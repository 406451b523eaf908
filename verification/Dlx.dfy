/** The array-based dancing-links solver. */
module Dlx {
  import opened Rings
  import opened LinkMatrix
  import opened ExactCover
  import opened MatrixBuild
  import opened RowBuild
  import opened LinkTables

  /** The row identifiers whose cell lies inside the answer block. */
  predicate IsId(id: int) { 1 <= id <= 810 }

  ghost predicate Decodable(mx: Matrix) {
    forall r | r in mx.rows :: IsId(r)
  }

  function CellOf(id: int): int {
    ((id - 1) / 9 / 9 + 1) * 11 + (id - 1) / 9 % 9 + 1
  }

  function ValueOf(id: int): int { (id - 1) % 9 + 1 }

  predicate AllIds(ids: seq<int>) {
    forall k | 0 <= k < |ids| :: IsId(ids[k])
  }

  lemma CellInBlock(id: int)
    requires IsId(id)
    ensures 0 <= CellOf(id) < 121
  {
    assert id - 1 == 9 * ((id - 1) / 9) + (id - 1) % 9;
    var q := (id - 1) / 9;
    assert q == 9 * (q / 9) + q % 9;
  }

  lemma CellParts(id: int, x: int, y: int, v: int)
    requires x == (id - 1) / 9 / 9 + 1 && y == (id - 1) / 9 % 9 + 1 && v == (id - 1) % 9 + 1
    ensures CellOf(id) == x * 11 + y && ValueOf(id) == v
  {
  }

  /** The answer block after the cells of ids are written, in order. */
  ghost function Decoded(before: seq<int>, ids: seq<int>): (g: seq<int>)
    requires |before| == 121 && AllIds(ids)
    ensures |g| == 121
  {
    if ids == [] then before
    else
      var id := ids[|ids| - 1];
      CellInBlock(id);
      Decoded(before, ids[..|ids| - 1])[CellOf(id) := ValueOf(id)]
  }

  /** first[r] is the first node of row r, or 0 when the row has none. */
  ghost predicate FirstNodes(first: seq<int>, mx: Matrix) {
    forall r | 0 <= r < |first| :: first[r] == if r in mx.rows && mx.rows[r] != [] then mx.rows[r][0] else 0
  }

  class DLX {
    const maxSize: nat
    var n: int
    const links: LinkTable   // m, tot, siz, L, R, U, D and col
    const first: array<int>
    const row: array<int>
    const stk: array<int>
    const ans: array<int>    // an 11 by 11 block, row after row

    /** An array that is none of the link arrays. */
    ghost predicate Other(a: array<int>) {
      a != links.siz && a != links.L && a != links.R && a != links.U && a != links.D && a != links.col
    }

    ghost predicate Apart() {
      && links.Apart() && maxSize == links.maxSize == first.Length == row.Length == stk.Length && ans.Length == 121
      && Other(first) && Other(row) && Other(stk) && Other(ans)
      && first != row && first != stk && first != ans && row != stk && row != ans && stk != ans
    }

    ghost predicate Valid()
      reads links, links.L, links.R, links.U, links.D, links.siz, links.col, row
    {
      Apart() && links.Valid() && row[..links.tot + 1] == links.matrix.row
    }

    ghost predicate FirstOk()
      reads links, first
      requires Apart()
    {
      FirstNodes(first[..], links.matrix)
    }

    /** The structure with all its ones linked in. */
    ghost predicate Ready()
      reads links, links.L, links.R, links.U, links.D, links.siz, links.col, row, first
    {
      Valid() && FirstOk() && Complete(links.matrix, links.View())
    }

    constructor (size: nat)
      ensures Apart() && maxSize == size && fresh(links) && fresh(first) && fresh(row) && fresh(stk) && fresh(ans)
      ensures fresh(links.siz) && fresh(links.L) && fresh(links.R) && fresh(links.U) && fresh(links.D) && fresh(links.col)
    {
      maxSize, n := size, 0;
      links := new LinkTable(size);
      first := new int[size];
      row := new int[size];
      stk := new int[size];
      ans := new int[121];
    }

    /** Headers 0..c in a ring, every column empty, no rows. */
    method Build(r: int, c: nat)
      requires Apart() && c < maxSize
      modifies this, links, links.L, links.R, links.U, links.D, first, links.siz
      ensures Ready() && links.m == c && n == r
      ensures links.matrix == NoRows(c, links.col[..c + 1], row[..c + 1])
    {
      hide Matrix.WellFormed, Complete, NoRows;
      n, links.m := r, c;
      links.matrix := NoRows(c, links.col[..c + 1], row[..c + 1]);
      var i := 0;
      while i <= c
        modifies links.L, links.R, links.U, links.D
        invariant 0 <= i <= c + 1
        invariant forall k | 0 <= k < i :: links.L[k] == k - 1 && links.R[k] == k + 1 && links.U[k] == k && links.D[k] == k
      {
        links.L[i] := i - 1;
        links.R[i] := i + 1;
        links.U[i] := i;
        links.D[i] := i;
        i := i + 1;
      }
      links.L[0] := c;
      links.R[c] := 0;
      links.tot := c;
      Fill(first, 0);
      Fill(links.siz, 0);
      BuildDone();
    }

    lemma BuildDone()
      requires Apart() && links.m == links.tot < maxSize
      requires links.matrix == NoRows(links.m, links.col[..links.m + 1], row[..links.m + 1])
      requires forall k | 0 <= k <= links.m :: links.L[k] == (if k == 0 then links.m else k - 1) && links.R[k] == (if k == links.m then 0 else k + 1)
      requires forall k | 0 <= k <= links.m :: links.U[k] == k && links.D[k] == k
      requires forall k | 0 <= k < maxSize :: first[k] == 0 && links.siz[k] == 0
      ensures Ready()
    {
      hide Matrix.WellFormed, Complete;
      NoRowsWellFormed(links.m, links.matrix.col, links.matrix.row);
      EmptyComplete(links.matrix, links.View());
    }

    static method Fill(a: array<int>, v: int)
      modifies a
      ensures forall k | 0 <= k < a.Length :: a[k] == v
    {
      var i := 0;
      while i < a.Length
        invariant 0 <= i <= a.Length
        invariant forall k | 0 <= k < i :: a[k] == v
      {
        a[i] := v;
        i := i + 1;
      }
    }

    /** A one in row r and column c: top of the column, second in the row. */
    method Insert(r: int, c: int)
      requires Ready() && 1 <= c <= links.m && 0 <= r < maxSize && links.tot + 1 < maxSize
      requires r in links.matrix.rows ==> c !in links.matrix.RowCols(r)
      modifies links, links.L, links.R, links.U, links.D, first, links.siz, links.col, row
      ensures Ready() && links.m == old(links.m) && links.matrix == WithOne(old(links.matrix), r, c)
      ensures links.View() == Inserted(old(links.matrix), old(links.View()), r, c)
    {
      hide Matrix.WellFormed, Complete, State.Fits, InsertAfter, InsertAlone, WithOne, Inserted, Grown, FirstNodes, LinkTable.Valid, LinkTable.View,
           LinkTable.Open;
      ghost var st, mx, f0 := links.View(), links.matrix, first[..];
      CompleteFits(mx, st);
      links.ViewParts();
      FirstInRange(f0, mx, r);
      var x := links.NewAtTop(c);
      row[x] := r;
      InsertRow(r, c, x, mx, st, f0);
    }

    /** The rest of it: the row is linked. */
    method InsertRow(r: int, c: int, x: int, ghost mx: Matrix, ghost st: State, ghost f0: seq<int>)
      requires Apart() && Complete(mx, st) && st.Fits(mx) && 1 <= c <= mx.m && (r in mx.rows ==> c !in mx.RowCols(r))
      requires links.m == mx.m < x == links.tot == mx.tot + 1 < maxSize
      requires |mx.row| == x && links.col[..x + 1] == mx.col + [c] && row[..x] == mx.row && row[x] == r
      requires links.V() == InsertAfter(st.v, c) && links.S() == Grown(st.siz, c) && Links(links.R[..x], links.L[..x]) == st.h
      requires first[..] == f0 && FirstNodes(f0, mx) && 0 <= r < |f0| && 0 <= f0[r] <= mx.tot
      modifies links`matrix, links.R, links.L, first
      ensures Ready() && links.m == mx.m && links.matrix == WithOne(mx, r, c) && links.View() == Inserted(mx, st, r, c)
    {
      hide Complete, InsertAfter, InsertAlone, WithOne, Inserted, Grown, FirstNodes, LinkTable.Valid, LinkTable.View;
      LinkRow(r, x, st.h);
      links.matrix := WithOne(mx, r, c);
      InsertDone(mx, st, f0, r, c);
    }

    static lemma FirstInRange(first: seq<int>, mx: Matrix, r: int)
      requires FirstNodes(first, mx) && mx.WellFormed() && 0 <= r < |first|
      ensures 0 <= first[r] <= mx.tot
    {
      RowNodes(mx, r);
    }

    /** Node x comes in as the second of its row, or is the first. */
    method LinkRow(r: int, x: int, ghost h: Links)
      requires Apart() && 0 <= r < maxSize && 0 <= first[r] < x == links.tot < maxSize
      requires h.Closed() && |h.next| == x && Links(links.R[..x], links.L[..x]) == h
      modifies links.R, links.L, first
      ensures links.H() == if old(first[r]) == 0 then InsertAlone(h) else InsertAfter(h, old(first[r]))
      ensures first[..] == if old(first[r]) == 0 then old(first[..])[r := x] else old(first[..])
    {
      if first[r] == 0 {
        LinkTable.LinkAlone(links.R, links.L, x);
        first[r] := x;
      } else {
        LinkTable.LinkAfter(links.R, links.L, first[r], x);
      }
    }

    lemma InsertDone(mx: Matrix, st: State, f0: seq<int>, r: int, c: int)
      requires Apart() && Complete(mx, st) && 1 <= c <= mx.m && (r in mx.rows ==> c !in mx.RowCols(r))
      requires links.m == mx.m < links.tot == mx.tot + 1 < maxSize && links.matrix == WithOne(mx, r, c)
      requires |mx.row| == links.tot && links.col[..links.tot + 1] == mx.col + [c] && row[..links.tot] == mx.row && row[links.tot] == r
      requires st.Fits(mx) && links.V() == InsertAfter(st.v, c) && links.S() == Grown(st.siz, c)
      requires 0 <= r < |f0| && FirstNodes(f0, mx) && 0 <= f0[r] <= mx.tot
      requires links.H() == if f0[r] == 0 then InsertAlone(st.h) else InsertAfter(st.h, f0[r])
      requires first[..] == if f0[r] == 0 then f0[r := links.tot] else f0
      ensures Ready() && links.View() == Inserted(mx, st, r, c)
    {
      hide Complete, WithOne, Inserted, Matrix.WellFormed, InsertAlone, InsertAfter;
      RowNodes(mx, r);
      InsertedIs(mx, st, r, c);
      assert State(links.H(), links.V(), links.S()) == Inserted(mx, st, r, c);
      InsertedComplete(mx, st, r, c);
      InsertedShape(mx, st, r, c);
      assert row[..links.tot + 1] == mx.row + [r];
    }

    /** The first active column with the fewest rows. */
    method SmallestColumn(ghost heads: seq<int>) returns (c: int)
      requires links.Valid() && Represents(links.matrix, links.View(), heads) && heads != []
      ensures c in heads && forall d | d in heads :: 1 <= d <= links.m && links.siz[c] <= links.siz[d]
    {
      hide LinkTable.Valid, LinkTable.View, Represents;
      ghost var k: nat := 0;
      links.HeadStep(heads, 0);
      c := links.R[0];
      var i := links.R[0];
      while i != 0
        invariant k <= |heads| && i == At(0, heads, k + 1) && (i == 0 <==> k == |heads|)
        invariant c in heads && 1 <= c <= links.m
        invariant forall t | 0 <= t < k :: 1 <= heads[t] <= links.m && links.siz[c] <= links.siz[heads[t]]
        decreases |heads| - k
      {
        links.HeadStep(heads, k);
        if links.siz[i] < links.siz[c] { c := i; }
        k := k + 1;
        links.HeadStep(heads, k);
        i := links.R[i];
      }
      forall d | d in heads ensures 1 <= d <= links.m && links.siz[c] <= links.siz[d] {
        assert heads[IndexOf(heads, d)] == d;
      }
    }

    /** Decode the stacked row identifiers into the answer block. */
    method WriteAnswer(dep: int)
      requires Apart() && 1 <= dep <= stk.Length
      requires AllIds(stk[1..dep])
      modifies ans
      ensures ans[..] == Decoded(old(ans[..]), stk[1..dep])
    {
      hide CellOf, ValueOf;
      var i := 1;
      while i < dep
        invariant 1 <= i <= dep
        invariant AllIds(stk[1..i]) && ans[..] == Decoded(old(ans[..]), stk[1..i])
      {
        assert IsId(stk[1..dep][i - 1]);
        var x := (stk[i] - 1) / 9 / 9 + 1;
        var y := (stk[i] - 1) / 9 % 9 + 1;
        var v := (stk[i] - 1) % 9 + 1;
        CellInBlock(stk[i]);
        CellParts(stk[i], x, y, v);
        assert stk[1..i + 1] == stk[1..i] + [stk[i]];
        ans[x * 11 + y] := v;
        i := i + 1;
      }
    }

    /**
      Search for an exact cover of the active columns, below the dep - 1 rows
      already on the stack. On success the stack holds the rows of a cover and
      `ans` the cells they stand for. On failure there is no cover, and every
      link, every size and `ans` are as they were.
     */
    method Dance(dep: int, ghost heads: seq<int>) returns (ok: bool, ghost e: int)
      requires Valid() && Represents(links.matrix, links.View(), heads) && Decodable(links.matrix)
      requires 1 <= dep && dep + |heads| <= stk.Length
      requires AllIds(stk[1..dep])
      modifies links.L, links.R, links.U, links.D, links.siz, stk, ans
      ensures Valid() && stk[..dep] == old(stk[..dep])
      ensures ok ==> Found(dep, e, Elems(heads)) && ans[..] == Decoded(old(ans[..]), stk[1..e])
      ensures !ok ==> links.View() == old(links.View()) && ans[..] == old(ans[..]) && NoCover(links.matrix, Elems(heads))
      decreases |heads|, 1
    {
      RingStep(links.View().h, 0, heads, 0);
      links.LinkValues(0);
      if links.R[0] == 0 {
        WriteAnswer(dep);
        assert stk[dep..dep] == [];
        return true, dep;
      }
      ok, e := Branch(dep, heads);
    }

    /** The rows stacked from dep on, up to e, exactly cover cs. */
    ghost predicate Found(dep: int, e: int, cs: set<int>)
      reads links, stk
    {
      && links.matrix.WellFormed() && 1 <= dep <= e <= stk.Length
      && AllIds(stk[1..e]) && Covers(links.matrix, stk[dep..e], cs)
    }

    /** Choose a column and try its rows one after another. */
    method Branch(dep: int, ghost heads: seq<int>) returns (ok: bool, ghost e: int)
      requires Valid() && Represents(links.matrix, links.View(), heads) && heads != [] && Decodable(links.matrix)
      requires 1 <= dep && dep + |heads| <= stk.Length
      requires AllIds(stk[1..dep])
      modifies links.L, links.R, links.U, links.D, links.siz, stk, ans
      ensures Valid() && stk[..dep] == old(stk[..dep])
      ensures ok ==> Found(dep, e, Elems(heads)) && ans[..] == Decoded(old(ans[..]), stk[1..e])
      ensures !ok ==> links.View() == old(links.View()) && ans[..] == old(ans[..]) && NoCover(links.matrix, Elems(heads))
      decreases |heads|, 0, 1
    {
      hide Represents, InBranch, Matrix.WellFormed, Removed, State.Fits, Decodable, Covers, AllIds, Decoded, LinkTable.Valid, LinkTable.View;
      var c := SmallestColumn(heads);
      ghost var st := links.View();
      StartBranch(links.matrix, heads, st, c);
      links.Remove(c, heads);
      ghost var s1 := links.View();
      links.LinkValues(c);
      var i := links.D[c];
      ghost var p: nat := 0;
      while i != c
        invariant Valid() && links.View() == s1 && InBranch(links.matrix, heads, st, c, p, i)
        invariant stk[..dep] == old(stk[..dep]) && ans[..] == old(ans[..])
        decreases |ColList(links.matrix, Elems(heads), c)| - p
      {
        BranchFacts(links.matrix, heads, st, c, p, i);
        ok, e := TryRow(i, dep, c, heads);
        if ok { return; }
        NextBranch(links.matrix, heads, st, c, p, i);
        p := p + 1;
        links.LinkValues(i);
        i := links.D[i];
      }
      BranchFacts(links.matrix, heads, st, c, p, i);
      links.Recover(c, st, heads);
      return false, 0;
    }

    lemma RowValue(i: int)
      requires Valid() && 0 <= i <= links.matrix.tot
      ensures i < row.Length && i < |links.matrix.row| && row[i] == links.matrix.row[i]
      ensures links.matrix.m == links.m && links.matrix.WellFormed()
    {
    }

    /** The body of that loop: put row i on the stack, cover its columns, search on, and undo on failure. */
    method TryRow(i: int, dep: int, ghost c: int, ghost heads: seq<int>) returns (ok: bool, ghost e: int)
      requires Valid() && c in heads && Represents(links.matrix, links.View(), Without(heads, c)) && Decodable(links.matrix)
      requires Elems(Without(heads, c)) == Elems(heads) - {c}
      requires links.matrix.m < i <= links.matrix.tot && i in links.matrix.AliveNodes(Elems(heads)) && links.matrix.col[i] == c
      requires 1 <= dep && dep + |heads| <= stk.Length
      requires AllIds(stk[1..dep])
      modifies links.L, links.R, links.U, links.D, links.siz, stk, ans
      ensures Valid() && stk[..dep] == old(stk[..dep])
      ensures ok ==> Found(dep, e, Elems(heads)) && ans[..] == Decoded(old(ans[..]), stk[1..e])
      ensures !ok ==> links.View() == old(links.View()) && ans[..] == old(ans[..])
      ensures !ok ==> NoCoverWith(links.matrix, Elems(heads), links.matrix.row[i])
      decreases |heads|, 0, 0
    {
      hide Represents, Matrix.WellFormed, Removed, State.Fits, Covers, Trace, NoCover, NoCoverWith, Decoded, Decodable, AllIds, Found,
           LinkTable.Valid, LinkTable.View;
      links.LinkValues(i);
      RowValue(i);
      ghost var id, before := links.matrix.row[i], stk[..dep];
      stk[dep] := row[i];
      assert stk[..dep] == before;
      Stacked(dep, i, before);
      ghost var tr := links.CoverRow(i, Elems(heads), Without(heads, c));
      RowCovered(links.matrix, i, Elems(heads), tr);
      ok, e := Dance(dep + 1, tr[|tr| - 1].heads);
      assert stk[..dep] == stk[..dep + 1][..dep];
      if ok {
        FoundMore(dep, e, id, Elems(heads));
      } else {
        RowFails(links.matrix, Elems(heads), id);
        StartUncover(links.matrix, i, tr, links.View());
        links.UncoverRow(i, tr, |tr| - 1);
      }
    }

    lemma Stacked(dep: int, i: int, before: seq<int>)
      requires links.matrix.WellFormed() && Decodable(links.matrix) && links.matrix.m < i <= links.matrix.tot
      requires 1 <= dep < stk.Length && stk[..dep] == before && AllIds(before[1..]) && stk[dep] == links.matrix.row[i]
      ensures AllIds(stk[1..dep + 1])
    {
      hide IsId;
      assert links.matrix.row[i] in links.matrix.rows;
      assert stk[1..dep + 1] == before[1..] + [stk[dep]];
    }

    /** A row under the rows that cover what it leaves. */
    lemma FoundMore(dep: int, e: int, id: int, cs: set<int>)
      requires links.matrix.WellFormed() && id in links.matrix.rows && links.matrix.RowCols(id) <= cs
      requires 1 <= dep < stk.Length && stk[dep] == id && Found(dep + 1, e, cs - links.matrix.RowCols(id))
      ensures Found(dep, e, cs)
    {
      hide Matrix.WellFormed, Matrix.RowCols, Covers, AllIds;
      Extend(links.matrix, id, stk[dep + 1..e], cs);
      assert stk[dep..e] == [id] + stk[dep + 1..e];
    }
  }
}
