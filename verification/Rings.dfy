/**
  Circular doubly linked lists stored in two index arrays.

  A ring is listed as the sequence of its members in `next` order, starting at
  any member. The dancing-links solvers keep three kinds of ring: the header
  list, one list for each column, and one list for each row.
 */
module Rings {

  /** The two link arrays of one direction: (R, L) horizontally, (D, U) vertically. */
  datatype Links = Links(next: seq<int>, prev: seq<int>) {

    /** Both arrays have the same length and every entry is an index into them. */
    ghost predicate Closed() {
      && |next| == |prev|
      && (forall i | 0 <= i < |next| :: 0 <= next[i] < |next|)
      && (forall i | 0 <= i < |prev| :: 0 <= prev[i] < |prev|)
    }

    /** x is linked in from both sides, and is not alone in its ring. */
    ghost predicate Linked(x: int)
      requires Closed() && 0 <= x < |next|
    {
      next[x] != x && prev[x] != x && next[prev[x]] == x && prev[next[x]] == x
    }

    /** Take x out: its neighbours point past it, its own two links stay. */
    function Unlink(x: int): (l: Links)
      requires Closed() && 0 <= x < |next|
      ensures l.Closed() && |l.next| == |next|
    {
      Links(next[prev[x] := next[x]], prev[next[x] := prev[x]])
    }

    /** Put x back between the two nodes its own links still name. */
    function Relink(x: int): (l: Links)
      requires Closed() && 0 <= x < |next|
      ensures l.Closed() && |l.next| == |next|
    {
      Links(next[prev[x] := x], prev[next[x] := x])
    }
  }

  ghost predicate Distinct(ys: seq<int>) {
    forall i, j | 0 <= i < j < |ys| :: ys[i] != ys[j]
  }

  lemma ConsDistinct(x: int, s: seq<int>)
    requires Distinct(s) && x !in s
    ensures Distinct([x] + s)
  {
    var t := [x] + s;
    forall i, j | 0 <= i < j < |t| ensures t[i] != t[j] {
      assert t[j] == s[j - 1] && s[j - 1] in s;
      if i > 0 { assert t[i] == s[i - 1]; }
    }
  }

  lemma TailDistinct(x: int, s: seq<int>)
    requires Distinct([x] + s)
    ensures Distinct(s) && x !in s
  {
    var t := [x] + s;
    forall i | 0 <= i < |s| ensures s[i] == t[i + 1] {}
    assert t[0] == x;
  }

  /** The member after position k, going round. */
  function After(ys: seq<int>, k: nat): int
    requires k < |ys|
  {
    if k + 1 == |ys| then ys[0] else ys[k + 1]
  }

  /** The member before position k, going round. */
  function Before(ys: seq<int>, k: nat): int
    requires k < |ys|
  {
    if k == 0 then ys[|ys| - 1] else ys[k - 1]
  }

  /** Following `next` from ys[0] visits exactly ys and comes back; `prev` is the way back. */
  ghost predicate IsRing(l: Links, ys: seq<int>) {
    && l.Closed()
    && Distinct(ys)
    && (forall k | 0 <= k < |ys| :: 0 <= ys[k] < |l.next|)
    && (forall k {:trigger l.next[ys[k]]} | 0 <= k < |ys| :: l.next[ys[k]] == After(ys, k))
    && (forall k {:trigger l.prev[ys[k]]} | 0 <= k < |ys| :: l.prev[ys[k]] == Before(ys, k))
  }

  /** Every member of a ring of two or more is linked from both sides. */
  lemma RingLinked(l: Links, ys: seq<int>, k: nat)
    requires IsRing(l, ys) && k < |ys| && |ys| >= 2
    ensures l.Linked(ys[k])
  {
    var n := if k + 1 == |ys| then 0 else k + 1;
    var p := if k == 0 then |ys| - 1 else k - 1;
    assert l.next[ys[k]] == ys[n] && l.prev[ys[k]] == ys[p];
    assert l.next[ys[p]] == ys[k] && l.prev[ys[n]] == ys[k];
  }

  /** Relinking undoes unlinking exactly when x was linked from both sides. */
  lemma RelinkUndoesUnlink(l: Links, x: int)
    requires l.Closed() && 0 <= x < |l.next|
    ensures l.Linked(x) ==> l.Unlink(x).Relink(x) == l
    ensures l.next[x] != x && l.prev[x] != x && l.Unlink(x).Relink(x) == l ==> l.Linked(x)
  {
    var u := l.Unlink(x);
    if l.next[x] != x && l.prev[x] != x {
      assert u.next[x] == l.next[x] && u.prev[x] == l.prev[x];
      var r := u.Relink(x);
      assert r.next == l.next[l.prev[x] := x];
      assert r.prev == l.prev[l.next[x] := x];
      if l.Linked(x) {
        assert r.next == l.next && r.prev == l.prev;
      }
      if r == l {
        assert l.next[l.prev[x]] == x && l.prev[l.next[x]] == x;
      }
    }
  }

  /** Unlinking x leaves the ring of the others. */
  lemma UnlinkRing(l: Links, a: seq<int>, x: int, b: seq<int>)
    requires IsRing(l, a + [x] + b) && |a + b| > 0
    requires 0 <= x < |l.next|
    ensures IsRing(l.Unlink(x), a + b)
  {
    var ys, zs := a + [x] + b, a + b;
    DistinctParts(a, x, b);
    forall i | 0 <= i < |zs|
      ensures 0 <= zs[i] < |l.next|
      ensures l.Unlink(x).next[zs[i]] == After(zs, i) && l.Unlink(x).prev[zs[i]] == Before(zs, i)
    {
      UnlinkRingAt(l, a, x, b, i);
    }
  }

  lemma DistinctParts(a: seq<int>, x: int, b: seq<int>)
    requires Distinct(a + [x] + b)
    ensures Distinct(a + b)
  {
    var ys, zs := a + [x] + b, a + b;
    forall i, j | 0 <= i < j < |zs| ensures zs[i] != zs[j] {
      assert zs[i] == ys[if i < |a| then i else i + 1];
      assert zs[j] == ys[if j < |a| then j else j + 1];
    }
  }

  lemma UnlinkRingAt(l: Links, a: seq<int>, x: int, b: seq<int>, i: nat)
    requires IsRing(l, a + [x] + b) && i < |a + b|
    requires 0 <= x < |l.next|
    ensures 0 <= (a + b)[i] < |l.next|
    ensures l.Unlink(x).next[(a + b)[i]] == After(a + b, i)
    ensures l.Unlink(x).prev[(a + b)[i]] == Before(a + b, i)
  {
    hide IsRing, Links.Unlink;
    RingOthers(l, a, x, b, i);
    UnlinkNextAt(l, a, x, b, i);
    UnlinkPrevAt(l, a, x, b, i);
  }

  /** Node x and its neighbours in the ring, and the other node i with its own. */
  lemma RingOthers(l: Links, a: seq<int>, x: int, b: seq<int>, i: nat)
    requires IsRing(l, a + [x] + b) && i < |a + b|
    requires 0 <= x < |l.next|
    ensures var ys, k, o := a + [x] + b, |a|, if i < |a| then i else i + 1;
            && l.Closed() && l.next[x] == After(ys, k) && l.prev[x] == Before(ys, k) && Distinct(ys)
            && (a + b)[i] == ys[o] && 0 <= ys[o] < |l.next| && l.next[ys[o]] == After(ys, o) && l.prev[ys[o]] == Before(ys, o)
  {
    var ys := a + [x] + b;
    var k, o := |a|, if i < |a| then i else i + 1;
    assert ys[k] == x && l.next[ys[k]] == After(ys, k) && l.prev[ys[k]] == Before(ys, k);
    assert (a + b)[i] == ys[o] && l.next[ys[o]] == After(ys, o) && l.prev[ys[o]] == Before(ys, o);
  }

  lemma UnlinkNextAt(l: Links, a: seq<int>, x: int, b: seq<int>, i: nat)
    requires IsRing(l, a + [x] + b) && i < |a + b|
    requires 0 <= x < |l.next|
    ensures 0 <= (a + b)[i] < |l.next| && l.Unlink(x).next[(a + b)[i]] == After(a + b, i)
  {
    hide IsRing;
    RingOthers(l, a, x, b, i);
  }

  lemma UnlinkPrevAt(l: Links, a: seq<int>, x: int, b: seq<int>, i: nat)
    requires IsRing(l, a + [x] + b) && i < |a + b|
    requires 0 <= x < |l.next|
    ensures 0 <= (a + b)[i] < |l.next| && l.Unlink(x).prev[(a + b)[i]] == Before(a + b, i)
  {
    hide IsRing;
    RingOthers(l, a, x, b, i);
    var ys := a + [x] + b;
    var n, o := if |a| + 1 == |ys| then 0 else |a| + 1, if i < |a| then i else i + 1;
    var j := if i == 0 then |a + b| - 1 else i - 1;
    assert l.next[x] == ys[n] && (ys[n] == ys[o] ==> n == o) && (a + b)[j] == ys[if j < |a| then j else j + 1];
  }

  /** Links of nodes outside the unlinked node's neighbours do not change. */
  lemma UnlinkFrame(l: Links, x: int, zs: seq<int>)
    requires l.Closed() && 0 <= x < |l.next| && IsRing(l, zs)
    requires l.next[x] !in zs && l.prev[x] !in zs
    ensures IsRing(l.Unlink(x), zs)
  {
    var u := l.Unlink(x);
    forall i | 0 <= i < |zs|
      ensures u.next[zs[i]] == After(zs, i) && u.prev[zs[i]] == Before(zs, i)
    {
      assert zs[i] in zs;
      assert l.next[zs[i]] == After(zs, i) && l.prev[zs[i]] == Before(zs, i);
    }
  }

  /** ys listed from position p, going round. */
  function Rotate(ys: seq<int>, p: nat): (zs: seq<int>)
    requires p < |ys|
    ensures |zs| == |ys|
    ensures forall i | 0 <= i < |zs| :: zs[i] == ys[if p + i < |ys| then p + i else p + i - |ys|]
  {
    [ys[p]] + (ys[p + 1..] + ys[..p])
  }

  lemma RotateDistinct(ys: seq<int>, p: nat)
    requires Distinct(ys) && p < |ys|
    ensures Distinct(Rotate(ys, p))
  {
    hide Rotate;
    var zs := Rotate(ys, p);
    forall i, j | 0 <= i < j < |zs| ensures zs[i] != zs[j] {
      var oi := if p + i < |ys| then p + i else p + i - |ys|;
      var oj := if p + j < |ys| then p + j else p + j - |ys|;
      assert zs[i] == ys[oi] && zs[j] == ys[oj] && oi != oj;
    }
  }

  /** A ring may be listed from any of its members. */
  lemma RotateRing(l: Links, ys: seq<int>, p: nat)
    requires IsRing(l, ys) && p < |ys|
    ensures IsRing(l, Rotate(ys, p))
  {
    hide Rotate;
    var zs := Rotate(ys, p);
    forall i | 0 <= i < |zs|
      ensures 0 <= zs[i] < |l.next| && l.next[zs[i]] == After(zs, i) && l.prev[zs[i]] == Before(zs, i)
    {
      var o := if p + i < |ys| then p + i else p + i - |ys|;
      assert zs[i] == ys[o];
      assert l.next[ys[o]] == After(ys, o) && l.prev[ys[o]] == Before(ys, o);
    }
    RotateDistinct(ys, p);
  }

  // ----- growing a ring ---------------------------------------------------------------

  /** A new node, numbered after all others, comes in just after node a. */
  function InsertAfter(l: Links, a: int): (r: Links)
    requires l.Closed() && 0 <= a < |l.next|
    ensures r.Closed() && |r.next| == |l.next| + 1
  {
    var x := |l.next|;
    Links((l.next + [l.next[a]])[a := x], (l.prev + [a])[l.next[a] := x])
  }

  /** A new node alone in its ring. */
  function InsertAlone(l: Links): (r: Links)
    requires l.Closed()
    ensures r.Closed() && |r.next| == |l.next| + 1
  {
    Links(l.next + [|l.next|], l.prev + [|l.prev|])
  }

  lemma InsertDistinct(a: int, x: int, ys: seq<int>)
    requires Distinct([a] + ys) && a != x && x !in ys
    ensures Distinct([a, x] + ys)
  {
    TailDistinct(a, ys);
    ConsDistinct(x, ys);
    ConsDistinct(a, [x] + ys);
    assert [a] + ([x] + ys) == [a, x] + ys;
  }

  lemma RingBelow(l: Links, a: int, ys: seq<int>)
    requires IsRing(l, [a] + ys)
    ensures 0 <= a < |l.next| && |l.next| !in ys && a != |l.next| && l.Closed() && Distinct([a] + ys)
  {
    var ws := [a] + ys;
    assert ws[0] == a;
    forall k | 0 <= k < |ys| ensures ys[k] < |l.next| { assert ws[k + 1] == ys[k]; }
  }

  lemma InsertAfterRing(l: Links, a: int, ys: seq<int>)
    requires IsRing(l, [a] + ys)
    ensures 0 <= a < |l.next| && IsRing(InsertAfter(l, a), [a, |l.next|] + ys)
  {
    hide InsertAfter, Distinct;
    RingBelow(l, a, ys);
    InsertDistinct(a, |l.next|, ys);
    var zs := [a, |l.next|] + ys;
    forall i | 0 <= i < |zs|
      ensures 0 <= zs[i] <= |l.next|
      ensures InsertAfter(l, a).next[zs[i]] == After(zs, i) && InsertAfter(l, a).prev[zs[i]] == Before(zs, i)
    {
      InsertAfterRingAt(l, a, ys, i);
    }
  }

  lemma InsertAfterRingAt(l: Links, a: int, ys: seq<int>, i: nat)
    requires IsRing(l, [a] + ys) && 0 <= a < |l.next| && i < |ys| + 2
    ensures var zs := [a, |l.next|] + ys;
            && 0 <= zs[i] <= |l.next|
            && InsertAfter(l, a).next[zs[i]] == After(zs, i) && InsertAfter(l, a).prev[zs[i]] == Before(zs, i)
  {
    var ws, zs := [a] + ys, [a, |l.next|] + ys;
    assert ws[0] == a && l.next[ws[0]] == After(ws, 0);
    if i != 1 {
      var o := if i == 0 then 0 else i - 1;
      assert zs[i] == ws[o];
      assert l.next[ws[o]] == After(ws, o) && l.prev[ws[o]] == Before(ws, o);
    }
  }

  lemma InsertAfterFrame(l: Links, a: int, zs: seq<int>)
    requires l.Closed() && 0 <= a < |l.next| && IsRing(l, zs)
    requires a !in zs && l.next[a] !in zs
    ensures IsRing(InsertAfter(l, a), zs)
  {
    forall i | 0 <= i < |zs|
      ensures InsertAfter(l, a).next[zs[i]] == After(zs, i) && InsertAfter(l, a).prev[zs[i]] == Before(zs, i)
    {
      assert zs[i] in zs;
      assert l.next[zs[i]] == After(zs, i) && l.prev[zs[i]] == Before(zs, i);
    }
  }

  lemma InsertAloneFrame(l: Links, zs: seq<int>)
    requires IsRing(l, zs)
    ensures IsRing(InsertAlone(l), zs) && IsRing(InsertAlone(l), [|l.next|])
  {
    forall i | 0 <= i < |zs|
      ensures InsertAlone(l).next[zs[i]] == After(zs, i) && InsertAlone(l).prev[zs[i]] == Before(zs, i)
    {
      assert l.next[zs[i]] == After(zs, i) && l.prev[zs[i]] == Before(zs, i);
    }
  }
}
