/** Exact covers: what the dancing-links search looks for. */
module ExactCover {
  import opened LinkMatrix

  /** rs are rows inside cs that together meet each column of cs exactly once. */
  ghost predicate Covers(mx: Matrix, rs: seq<int>, cs: set<int>)
    requires mx.WellFormed()
  {
    && (forall i | 0 <= i < |rs| :: rs[i] in mx.rows && mx.RowCols(rs[i]) <= cs)
    && (forall i, j | 0 <= i < j < |rs| :: mx.RowCols(rs[i]) !! mx.RowCols(rs[j]))
    && (forall c | c in cs :: exists r :: r in rs && c in mx.RowCols(r))
  }

  /** A row, and a cover of the columns it leaves, make a cover. */
  lemma Extend(mx: Matrix, r: int, rs: seq<int>, cs: set<int>)
    requires mx.WellFormed() && r in mx.rows && mx.RowCols(r) <= cs
    requires Covers(mx, rs, cs - mx.RowCols(r))
    ensures Covers(mx, [r] + rs, cs)
  {
    hide Matrix.WellFormed, Matrix.RowCols;
    var ss := [r] + rs;
    forall c | c in cs ensures exists s :: s in ss && c in mx.RowCols(s) {
      if c in mx.RowCols(r) {
        assert r in ss;
      } else {
        assert c in cs - mx.RowCols(r);
        var s :| s in rs && c in mx.RowCols(s);
        assert s in ss;
      }
    }
  }

  /** A row of a cover, taken away, leaves a cover of the other columns. */
  lemma Reduce(mx: Matrix, rs: seq<int>, cs: set<int>, r: int) returns (rest: seq<int>)
    requires mx.WellFormed() && Covers(mx, rs, cs) && r in rs
    ensures r in mx.rows && mx.RowCols(r) <= cs
    ensures Covers(mx, rest, cs - mx.RowCols(r))
  {
    hide Matrix.WellFormed, Matrix.RowCols;
    var k := IndexOf(rs, r);
    rest := rs[..k] + rs[k + 1..];
    DropAt(rs, k);
    forall d | d in cs - mx.RowCols(r) ensures exists s :: s in rest && d in mx.RowCols(s) {
      var s :| s in rs && d in mx.RowCols(s);
      assert s in rest;
    }
  }

  lemma DropAt(s: seq<int>, k: nat)
    requires k < |s|
    ensures var t := s[..k] + s[k + 1..];
            && (forall i | 0 <= i < |t| :: t[i] == s[if i < k then i else i + 1])
            && (forall x | x in s && x != s[k] :: x in t)
  {
    var t := s[..k] + s[k + 1..];
    forall x | x in s && x != s[k] ensures x in t {
      var i := IndexOf(s, x);
      assert t[if i < k then i else i - 1] == x;
    }
  }

  ghost predicate NoCover(mx: Matrix, cs: set<int>)
    requires mx.WellFormed()
  {
    forall rs: seq<int> :: !Covers(mx, rs, cs)
  }

  /** No cover of cs uses row r. */
  ghost predicate NoCoverWith(mx: Matrix, cs: set<int>, r: int)
    requires mx.WellFormed()
  {
    forall rs: seq<int> | Covers(mx, rs, cs) :: r !in rs
  }

  lemma RowFails(mx: Matrix, cs: set<int>, r: int)
    requires mx.WellFormed() && r in mx.rows && NoCover(mx, cs - mx.RowCols(r))
    ensures NoCoverWith(mx, cs, r)
  {
    forall rs: seq<int> | Covers(mx, rs, cs) ensures r !in rs {
      if r in rs {
        var rest := Reduce(mx, rs, cs, r);
        assert false;
      }
    }
  }

  /** When no row met in column c is in a cover, there is none: c cannot be covered. */
  lemma AllRowsFail(mx: Matrix, cs: set<int>, c: int)
    requires mx.WellFormed() && c in cs && 1 <= c <= mx.m
    requires forall x | x in ColList(mx, cs, c) :: mx.m < x <= mx.tot && NoCoverWith(mx, cs, mx.row[x])
    ensures NoCover(mx, cs)
  {
    forall rs: seq<int> ensures !Covers(mx, rs, cs) {
      if Covers(mx, rs, cs) {
        var x := CoveringNode(mx, rs, cs, c);
      }
    }
  }

  /** A cover of cs uses some row with a node linked in column c. */
  lemma CoveringNode(mx: Matrix, rs: seq<int>, cs: set<int>, c: int) returns (x: int)
    requires mx.WellFormed() && Covers(mx, rs, cs) && c in cs && 1 <= c <= mx.m
    ensures x in ColList(mx, cs, c) && mx.m < x <= mx.tot && mx.row[x] in rs
  {
    var r :| r in rs && c in mx.RowCols(r);
    assert mx.RowOk(r);
    x :| x in mx.rows[r] && mx.col[x] == c;
    ColListMembers(mx, cs, c);
    assert mx.RowCols(rs[IndexOf(rs, r)]) <= cs;
    assert x in mx.AliveNodes(cs);
  }

  // ----- covering the columns of one row ------------------------------------------

  /** The structure after some columns were removed, and the columns then active. */
  datatype Stage = Stage(st: State, heads: seq<int>)

  /** The stages met while the columns of the nodes ys are removed one after another. */
  ghost predicate Trace(mx: Matrix, ys: seq<int>, tr: seq<Stage>) {
    && mx.WellFormed() && Nodes(mx, ys) && 0 < |tr| <= |ys| + 1
    && (forall k | 0 <= k < |tr| :: Represents(mx, tr[k].st, tr[k].heads))
    && (forall k | 0 <= k < |tr| - 1 :: NextStage(mx, ys[k], tr[k], tr[k + 1]))
  }

  ghost predicate NextStage(mx: Matrix, y: int, a: Stage, b: Stage)
    requires mx.WellFormed() && mx.m < y <= mx.tot && Represents(mx, a.st, a.heads)
  {
    && mx.col[y] in a.heads
    && b.st == Removed(mx, a.st, Elems(a.heads), mx.col[y])
    && b.heads == Without(a.heads, mx.col[y])
  }

  ghost function ColsOf(mx: Matrix, ys: seq<int>): set<int>
    requires mx.WellFormed() && Nodes(mx, ys)
  {
    set k | 0 <= k < |ys| :: mx.col[ys[k]]
  }

  lemma {:induction false} TraceHeads(mx: Matrix, ys: seq<int>, tr: seq<Stage>, k: nat)
    requires Trace(mx, ys, tr) && k < |tr|
    ensures Nodes(mx, ys[..k]) && |tr[k].heads| == |tr[0].heads| - k
    ensures Elems(tr[k].heads) == Elems(tr[0].heads) - ColsOf(mx, ys[..k])
  {
    hide Represents, Matrix.WellFormed, NextStage;
    if k == 0 {
      assert ColsOf(mx, ys[..0]) == {};
    } else {
      var j: nat := k - 1;
      TraceHeads(mx, ys, tr, j);
      assert NextStage(mx, ys[j], tr[j], tr[j + 1]);
      StageHeads(mx, ys[j], tr[j], tr[j + 1]);
      ColsOfSnoc(mx, ys, j);
    }
  }

  lemma StageHeads(mx: Matrix, y: int, a: Stage, b: Stage)
    requires mx.WellFormed() && mx.m < y <= mx.tot && Represents(mx, a.st, a.heads) && NextStage(mx, y, a, b)
    ensures |b.heads| == |a.heads| - 1 && Elems(b.heads) == Elems(a.heads) - {mx.col[y]}
  {
    RemovedRepresents(mx, a.st, a.heads, mx.col[y]);
  }

  lemma ColsOfSnoc(mx: Matrix, ys: seq<int>, k: nat)
    requires mx.WellFormed() && Nodes(mx, ys) && k < |ys|
    ensures ColsOf(mx, ys[..k + 1]) == ColsOf(mx, ys[..k]) + {mx.col[ys[k]]}
  {
    var a, b := ys[..k], ys[..k + 1];
    forall c | c in ColsOf(mx, a) + {mx.col[ys[k]]} ensures c in ColsOf(mx, b) {
      if c in ColsOf(mx, a) {
        var i :| 0 <= i < |a| && mx.col[a[i]] == c;
        assert mx.col[b[i]] == c;
      } else {
        assert mx.col[b[k]] == c;
      }
    }
  }

  /** x's column and the columns of the other nodes of its row are the row's columns. */
  lemma OthersCols(mx: Matrix, x: int)
    requires mx.WellFormed() && mx.m < x <= mx.tot
    ensures {mx.col[x]} + ColsOf(mx, mx.Others(x)) == mx.RowCols(mx.row[x])
  {
    mx.OthersMembers(x);
    assert mx.RowOk(mx.row[x]);
    var others := mx.Others(x);
    forall c | c in mx.RowCols(mx.row[x]) ensures c in {mx.col[x]} + ColsOf(mx, others) {
      var y :| y in mx.rows[mx.row[x]] && mx.col[y] == c;
      if y != x {
        var k := IndexOf(others, y);
        assert mx.col[others[k]] == c;
      }
    }
    forall c | c in ColsOf(mx, others) ensures c in mx.RowCols(mx.row[x]) {
      var k :| 0 <= k < |others| && mx.col[others[k]] == c;
      assert others[k] in others;
    }
  }

  /** The q-th other node of an alive row: its column is still active when its turn comes. */
  lemma TraceNext(mx: Matrix, x: int, tr: seq<Stage>, cs: set<int>)
    requires mx.WellFormed() && mx.m < x <= mx.tot && x in mx.AliveNodes(cs)
    requires Trace(mx, mx.Others(x), tr) && |tr| <= |mx.Others(x)|
    requires Elems(tr[0].heads) == cs - {mx.col[x]}
    ensures var q := |tr| - 1; var c := mx.col[mx.Others(x)[q]];
            && c in tr[q].heads
            && Trace(mx, mx.Others(x), tr + [Stage(Removed(mx, tr[q].st, Elems(tr[q].heads), c), Without(tr[q].heads, c))])
  {
    var ys, q := mx.Others(x), |tr| - 1;
    var c := mx.col[ys[q]];
    TraceHeads(mx, ys, tr, q);
    OthersAlive(mx, cs, x);
    assert ys[q] in ys;
    FreshCol(mx, x, q);
    assert c in Elems(tr[q].heads);
    TraceSnoc(mx, ys, tr);
  }

  lemma TraceSnoc(mx: Matrix, ys: seq<int>, tr: seq<Stage>)
    requires Trace(mx, ys, tr) && |tr| <= |ys|
    requires mx.col[ys[|tr| - 1]] in tr[|tr| - 1].heads
    ensures var q := |tr| - 1; var c := mx.col[ys[q]];
            Trace(mx, ys, tr + [Stage(Removed(mx, tr[q].st, Elems(tr[q].heads), c), Without(tr[q].heads, c))])
  {
    var q := |tr| - 1;
    var c := mx.col[ys[q]];
    assert Represents(mx, tr[q].st, tr[q].heads);
    RemovedRepresents(mx, tr[q].st, tr[q].heads, c);
    TraceAppend(mx, ys, tr, Stage(Removed(mx, tr[q].st, Elems(tr[q].heads), c), Without(tr[q].heads, c)));
  }

  lemma TraceAppend(mx: Matrix, ys: seq<int>, tr: seq<Stage>, b: Stage)
    requires Trace(mx, ys, tr) && |tr| <= |ys|
    requires NextStage(mx, ys[|tr| - 1], tr[|tr| - 1], b) && Represents(mx, b.st, b.heads)
    ensures Trace(mx, ys, tr + [b])
  {
    hide Represents, NextStage, Matrix.WellFormed;
    var t2 := tr + [b];
    forall k | 0 <= k < |t2| ensures Represents(mx, t2[k].st, t2[k].heads) {
      if k < |tr| { assert t2[k] == tr[k]; }
    }
    forall k | 0 <= k < |t2| - 1 ensures NextStage(mx, ys[k], t2[k], t2[k + 1]) {
      assert t2[k] == tr[k];
      if k < |tr| - 1 { assert NextStage(mx, ys[k], tr[k], tr[k + 1]); }
    }
  }

  /** The columns met going right from x are all different. */
  lemma FreshCol(mx: Matrix, x: int, q: nat)
    requires mx.WellFormed() && mx.m < x <= mx.tot && q < |mx.Others(x)|
    ensures Nodes(mx, mx.Others(x)[..q]) && mx.col[mx.Others(x)[q]] !in ColsOf(mx, mx.Others(x)[..q])
  {
    mx.OthersMembers(x);
    var ys := mx.Others(x);
    forall i | 0 <= i < q ensures mx.col[ys[i]] != mx.col[ys[q]] {
      assert ([x] + ys)[i + 1] == ys[i] && ([x] + ys)[q + 1] == ys[q];
      assert ys[i] in ys && ys[q] in ys;
      if mx.col[ys[i]] == mx.col[ys[q]] { SameRowSameCol(mx, ys[i], ys[q]); }
    }
  }

  lemma SameRowSameCol(mx: Matrix, x: int, y: int)
    requires mx.WellFormed() && mx.m < x <= mx.tot && mx.m < y <= mx.tot
    requires mx.row[x] == mx.row[y] && mx.col[x] == mx.col[y]
    ensures x == y
  {
    var row := mx.rows[mx.row[x]];
    assert mx.RowOk(mx.row[x]);
    var i, j := IndexOf(row, x), IndexOf(row, y);
    assert mx.ColOf(row[i]) == mx.ColOf(row[j]);
  }

  /** At every stage the links lead right and left along x's row. */
  lemma StageStep(mx: Matrix, x: int, tr: seq<Stage>, k: nat, q: nat)
    requires mx.WellFormed() && mx.m < x <= mx.tot && Trace(mx, mx.Others(x), tr)
    requires k < |tr| && q <= |mx.Others(x)|
    ensures tr[k].st.Fits(mx) && Step(tr[k].st.h, x, mx.Others(x), q)
    ensures q < |mx.Others(x)| ==> At(x, mx.Others(x), q + 1) == mx.Others(x)[q] && mx.m < mx.Others(x)[q] <= mx.tot
  {
    assert Represents(mx, tr[k].st, tr[k].heads);
    RowWalk(mx, tr[k].st, x);
    RingStep(tr[k].st.h, x, mx.Others(x), q);
  }

  // ----- where covering and uncovering a row stand ---------------------------------

  /** s is the last stage so far; the walk to the right is at j, whose column is next. */
  ghost predicate InCover(mx: Matrix, x: int, cs: set<int>, tr: seq<Stage>, s: State, j: int) {
    && mx.WellFormed() && mx.m < x <= mx.tot && x in mx.AliveNodes(cs)
    && Trace(mx, mx.Others(x), tr) && Elems(tr[0].heads) == cs - {mx.col[x]}
    && s == tr[|tr| - 1].st && j == At(x, mx.Others(x), |tr|)
  }

  lemma StartCover(mx: Matrix, x: int, cs: set<int>, s: State, heads: seq<int>)
    requires Represents(mx, s, heads) && mx.m < x <= mx.tot
    requires x in mx.AliveNodes(cs) && Elems(heads) == cs - {mx.col[x]}
    ensures InCover(mx, x, cs, [Stage(s, heads)], s, s.h.next[x])
  {
    StageStep(mx, x, [Stage(s, heads)], 0, 0);
  }

  /** The stage after s: the column of j is removed too. */
  ghost function NextOf(mx: Matrix, tr: seq<Stage>, j: int): Stage
    requires tr != [] && tr[|tr| - 1].st.Fits(mx) && mx.m < j <= mx.tot && mx.col[j] in tr[|tr| - 1].heads
  {
    Stage(Removed(mx, tr[|tr| - 1].st, Elems(tr[|tr| - 1].heads), mx.col[j]), Without(tr[|tr| - 1].heads, mx.col[j]))
  }

  lemma CoverFacts(mx: Matrix, x: int, cs: set<int>, tr: seq<Stage>, s: State, j: int)
    requires InCover(mx, x, cs, tr, s, j)
    ensures s.Fits(mx) && mx.m < j <= mx.tot && tr != [] && |tr| <= |mx.Others(x)| + 1
    ensures Represents(mx, s, tr[|tr| - 1].heads) && s == tr[|tr| - 1].st
    ensures j == x <==> |tr| == |mx.Others(x)| + 1
  {
    StageStep(mx, x, tr, |tr| - 1, |tr| - 1);
  }

  lemma CoverDone(mx: Matrix, x: int, cs: set<int>, tr: seq<Stage>, s: State)
    requires InCover(mx, x, cs, tr, s, x)
    ensures Trace(mx, mx.Others(x), tr) && |tr| == |mx.Others(x)| + 1 && s == tr[|tr| - 1].st
  {
    CoverFacts(mx, x, cs, tr, s, x);
  }

  lemma CoverNext(mx: Matrix, x: int, cs: set<int>, tr: seq<Stage>, s: State, j: int)
    requires InCover(mx, x, cs, tr, s, j) && j != x
    ensures s.Fits(mx) && mx.m < j <= mx.tot && tr != [] && s == tr[|tr| - 1].st
    ensures mx.col[j] in tr[|tr| - 1].heads && Represents(mx, s, tr[|tr| - 1].heads)
    ensures var b := NextOf(mx, tr, j); b.st.Fits(mx) && InCover(mx, x, cs, tr + [b], b.st, b.st.h.next[j])
  {
    hide Represents, Removed, Matrix.WellFormed, NextStage, Matrix.Others;
    StageStep(mx, x, tr, |tr| - 1, |tr| - 1);
    TraceNext(mx, x, tr, cs);
    var b := NextOf(mx, tr, j);
    StageStep(mx, x, tr + [b], |tr|, |tr|);
  }

  /** s is the q-th stage; the walk to the left is at j, whose column was removed last. */
  ghost predicate InUncover(mx: Matrix, x: int, tr: seq<Stage>, q: nat, s: State, j: int) {
    && mx.WellFormed() && mx.m < x <= mx.tot && Trace(mx, mx.Others(x), tr)
    && q < |tr| && s == tr[q].st && j == At(x, mx.Others(x), q)
  }

  lemma StartUncover(mx: Matrix, x: int, tr: seq<Stage>, s: State)
    requires mx.WellFormed() && mx.m < x <= mx.tot && Trace(mx, mx.Others(x), tr)
    requires |tr| == |mx.Others(x)| + 1 && s == tr[|tr| - 1].st
    ensures s.Fits(mx) && InUncover(mx, x, tr, |tr| - 1, s, s.h.prev[x])
  {
    StageStep(mx, x, tr, |tr| - 1, |tr| - 1);
  }

  lemma UncoverFacts(mx: Matrix, x: int, tr: seq<Stage>, q: nat, s: State, j: int)
    requires InUncover(mx, x, tr, q, s, j)
    ensures s.Fits(mx) && mx.m < j <= mx.tot && q < |tr| && s == tr[q].st
    ensures j == x <==> q == 0
  {
    StageStep(mx, x, tr, q, q);
  }

  lemma UncoverNext(mx: Matrix, x: int, tr: seq<Stage>, q: nat, s: State, j: int)
    requires InUncover(mx, x, tr, q + 1, s, j)
    ensures s.Fits(mx) && mx.m < j <= mx.tot && q < |tr|
    ensures Represents(mx, tr[q].st, tr[q].heads) && mx.col[j] in tr[q].heads
    ensures s == Removed(mx, tr[q].st, Elems(tr[q].heads), mx.col[j])
    ensures InUncover(mx, x, tr, q, tr[q].st, tr[q].st.h.prev[j])
  {
    StageStep(mx, x, tr, q, q);
    assert NextStage(mx, mx.Others(x)[q], tr[q], tr[q + 1]);
  }

  // ----- where trying the rows of a column stands -----------------------------------

  /** The first p rows of column c are in no cover; the walk down the column is at i. */
  ghost predicate InBranch(mx: Matrix, heads: seq<int>, st: State, c: int, p: nat, i: int) {
    && Represents(mx, st, heads) && c in heads && p <= |ColList(mx, Elems(heads), c)|
    && i == At(c, ColList(mx, Elems(heads), c), p + 1)
    && TriedRows(mx, Elems(heads), c, p)
  }

  ghost predicate TriedRows(mx: Matrix, cs: set<int>, c: int, p: nat)
    requires mx.WellFormed() && 1 <= c <= mx.m && p <= |ColList(mx, cs, c)|
  {
    forall t | 0 <= t < p :: NoCoverWith(mx, cs, mx.row[ColList(mx, cs, c)[t]])
  }

  /** Column c's own links, once it is removed. */
  lemma BranchStep(mx: Matrix, heads: seq<int>, st: State, c: int, p: nat)
    requires Represents(mx, st, heads) && c in heads && p <= |ColList(mx, Elems(heads), c)|
    ensures var s := Removed(mx, st, Elems(heads), c); var list := ColList(mx, Elems(heads), c);
            && s.Fits(mx) && Step(s.v, c, list, p)
            && (p < |list| ==> At(c, list, p + 1) == list[p])
  {
    RemovedRepresents(mx, st, heads, c);
    RingStep(Removed(mx, st, Elems(heads), c).v, c, ColList(mx, Elems(heads), c), p);
  }

  lemma StartBranch(mx: Matrix, heads: seq<int>, st: State, c: int)
    requires Represents(mx, st, heads) && c in heads
    ensures var s := Removed(mx, st, Elems(heads), c);
            && s.Fits(mx) && 1 <= c <= mx.m <= mx.tot && InBranch(mx, heads, st, c, 0, s.v.next[c])
            && Represents(mx, s, Without(heads, c)) && Elems(Without(heads, c)) == Elems(heads) - {c}
  {
    RemovedRepresents(mx, st, heads, c);
    BranchStep(mx, heads, st, c, 0);
  }

  lemma BranchFacts(mx: Matrix, heads: seq<int>, st: State, c: int, p: nat, i: int)
    requires InBranch(mx, heads, st, c, p, i)
    ensures i != c ==>
              && mx.m < i <= mx.tot && i in mx.AliveNodes(Elems(heads)) && mx.col[i] == c
              && p < |ColList(mx, Elems(heads), c)|
    ensures i == c ==> NoCover(mx, Elems(heads))
  {
    BranchStep(mx, heads, st, c, p);
    ColListMembers(mx, Elems(heads), c);
    var list := ColList(mx, Elems(heads), c);
    if i == c {
      forall x | x in list ensures NoCoverWith(mx, Elems(heads), mx.row[x]) {
        assert list[IndexOf(list, x)] == x;
      }
      AllRowsFail(mx, Elems(heads), c);
    } else {
      assert list[p] in list;
    }
  }

  lemma NextBranch(mx: Matrix, heads: seq<int>, st: State, c: int, p: nat, i: int)
    requires InBranch(mx, heads, st, c, p, i) && i != c
    requires mx.m < i <= mx.tot && NoCoverWith(mx, Elems(heads), mx.row[i])
    ensures var s := Removed(mx, st, Elems(heads), c);
            s.Fits(mx) && InBranch(mx, heads, st, c, p + 1, s.v.next[i])
  {
    hide Removed, NoCoverWith, Keep, Represents;
    BranchStep(mx, heads, st, c, p);
    BranchStep(mx, heads, st, c, p + 1);
  }

  /** Once the columns of row x are covered, the others are what is left to cover. */
  lemma RowCovered(mx: Matrix, x: int, cs: set<int>, tr: seq<Stage>)
    requires mx.WellFormed() && mx.m < x <= mx.tot && Trace(mx, mx.Others(x), tr)
    requires |tr| == |mx.Others(x)| + 1 && Elems(tr[0].heads) == cs - {mx.col[x]} && x in mx.AliveNodes(cs)
    ensures mx.row[x] in mx.rows && mx.RowCols(mx.row[x]) <= cs
    ensures var b := tr[|tr| - 1];
            && |b.heads| <= |tr[0].heads| && Elems(b.heads) == cs - mx.RowCols(mx.row[x])
            && Represents(mx, b.st, b.heads)
  {
    hide Represents, Matrix.Others;
    TraceHeads(mx, mx.Others(x), tr, |tr| - 1);
    OthersCols(mx, x);
    assert mx.Others(x)[..|tr| - 1] == mx.Others(x);
  }
}
