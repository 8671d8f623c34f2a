/** Building a chain of pool buffers one buffer at a time, and giving everything back when the pool runs out. */
module PbufAlloc {
  import opened Words
  import opened PbufSpec

  /** Octets of a new buffer. */
  function Zeros(n: nat): (s: seq<Byte>)
    ensures |s| == n
  {
    seq(n, _ => 0)
  }

  function Least(a: nat, b: nat): nat { if a < b then a else b }

  /** Pool buffers a chain of this length takes; the first one keeps `offset` octets for headers. */
  function Needed(length: nat, offset: nat): nat
    requires offset <= PBUF_POOL_BUFSIZE
  {
    if length <= PBUF_POOL_BUFSIZE - offset then 1 else 1 + Further(length - (PBUF_POOL_BUFSIZE - offset))
  }

  function Further(n: nat): nat { (n + PBUF_POOL_BUFSIZE - 1) / PBUF_POOL_BUFSIZE }

  /** From state w, in state v: the chain from p is made of the first buffers of the pool, nothing else has changed, and
      `rem` octets are still to come. */
  ghost predicate Building(w: World, v: World, p: nat, rem: nat)
  {
    && Owned(w, -1) && Owned(v, -1) && Sized(w) && |v.bufs| == |w.bufs| && Live(v.bufs, p) && v.path[p] != [] && v.outside[p] == 1
    && |v.path[p]| <= |w.pool| && v.path[p] == w.pool[..|v.path[p]|] && v.pool == w.pool[|v.path[p]|..]
    && (forall k | 0 <= k < |v.path[p]| :: Piece(v, v.path[p][k], rem))
    && (forall x | 0 <= x < |w.bufs| && x !in v.path[p] ::
          v.bufs[x] == w.bufs[x] && v.outside[x] == w.outside[x] && (w.bufs[x].live ==> v.path[x] == w.path[x]))
  }

  /** A buffer of the chain under construction. */
  ghost predicate Piece(v: World, x: int, rem: nat)
    requires Sized(v)
  {
    && Live(v.bufs, x) && v.bufs[x].kind == Pool && v.bufs[x].ref == 1 && v.bufs[x].totLen == |Content(v, x)| + rem
  }

  lemma BuildStart(w: World, data: Piece16, rem: nat)
    requires Owned(w, -1) && w.pool != [] && |data| + rem < 0x1_0000
    ensures 0 <= w.pool[0] < |w.bufs| && Building(w, Pop(w, data, |data| + rem), w.pool[0], rem)
    ensures var v := Pop(w, data, |data| + rem);
            && Sized(v) && |v.bufs| == |w.bufs| && v.pool == w.pool[1..] && v.path[w.pool[0]] == [w.pool[0]]
            && Content(v, w.pool[0]) == data
  {
    var v := Pop(w, data, |data| + rem);
    PopKeeps(w, data, |data| + rem);
    ConcatOne(v.bufs, w.pool[0]);
  }

  /** One more buffer, linked in behind the last one. */
  function Extend(v: World, r: nat, data: Piece16, rem: nat): World
    requires Sized(v) && v.pool != [] && 0 <= v.pool[0] < |v.bufs| && r < |v.bufs| && |data| + rem < 0x1_0000
  {
    Attach(Pop(v, data, |data| + rem), r, v.pool[0])
  }

  lemma BuildStep(w: World, v: World, p: nat, data: Piece16, rem: nat)
    requires |data| + rem < 0x1_0000
    requires Building(w, v, p, |data| + rem) && v.pool != []
    ensures p < |v.path| && 0 <= Last(v.path[p]) < |v.bufs| && 0 <= v.pool[0] < |v.bufs| && Sized(v)
    ensures var t := Extend(v, Last(v.path[p]), data, rem);
            && v.bufs[Last(v.path[p])].next == -1 && t.path[p] == v.path[p] + [v.pool[0]]
            && Building(w, t, p, rem) && Content(t, p) == Content(v, p) + data
  {
    hide Owned, Content, Attach, Pop;
    OwnedSized(v, -1);
    var r, k := Last(v.path[p]), v.pool[0];
    Along(v, -1, p, |v.path[p]| - 1);
    PoolFirst(v);
    NotInPath(v, p, k);
    ExtendKeeps(v, p, r, data, rem);
    var t := Extend(v, r, data, rem);
    ExtendPaths(v, p, r, data, rem);
    BuildFrame(w, v, t, p);
    forall j | 0 <= j < |t.path[p]| ensures Piece(t, t.path[p][j], rem) { ExtendPiece(w, v, p, data, rem, j); }
    ExtendContent(v, p, r, data, rem, p);
    forall x: nat | x < |w.bufs| && x !in t.path[p]
      ensures t.bufs[x] == w.bufs[x] && t.outside[x] == w.outside[x] && (w.bufs[x].live ==> t.path[x] == w.path[x])
    {
      ExtendOther(w, v, p, data, rem, x);
    }
  }

  lemma ExtendKeeps(v: World, p: nat, r: nat, data: Piece16, rem: nat)
    requires |data| + rem < 0x1_0000
    requires Owned(v, -1) && Live(v.bufs, p) && Sized(v) && v.path[p] != [] && r == Last(v.path[p]) && Live(v.bufs, r)
    requires v.bufs[r].next == -1 && v.pool != [] && 0 <= v.pool[0] < |v.bufs| && !v.bufs[v.pool[0]].live
    ensures Owned(Extend(v, r, data, rem), -1)
  {
    hide Owned;
    PopKeeps(v, data, |data| + rem);
    AttachKeeps(Pop(v, data, |data| + rem), r, v.pool[0]);
  }

  lemma ExtendPaths(v: World, p: nat, r: nat, data: Piece16, rem: nat)
    requires |data| + rem < 0x1_0000
    requires Sized(v) && p < |v.bufs| && v.path[p] != [] && r < |v.bufs| && r == Last(v.path[p])
    requires v.pool != [] && 0 <= v.pool[0] < |v.bufs| && v.pool[0] != p
    ensures var t := Extend(v, r, data, rem);
            && Sized(t) && |t.bufs| == |v.bufs| && t.pool == v.pool[1..] && t.path[p] == v.path[p] + [v.pool[0]]
            && t.outside[p] == v.outside[p] && t.path[v.pool[0]] == [v.pool[0]] + if r == v.pool[0] then [v.pool[0]] else []
  {}

  /** The contents of a chain that ended at r. */
  lemma ExtendContent(v: World, p: nat, r: nat, data: Piece16, rem: nat, x: nat)
    requires |data| + rem < 0x1_0000
    requires Sized(v) && x < |v.bufs| && r < |v.bufs| && v.pool != [] && 0 <= v.pool[0] < |v.bufs|
    requires x != v.pool[0] && v.pool[0] !in v.path[x] && r in v.path[x]
    ensures Sized(Extend(v, r, data, rem)) && Content(Extend(v, r, data, rem), x) == Content(v, x) + data
  {
    var u, k := Pop(v, data, |data| + rem), v.pool[0];
    forall y | y in v.path[x] ensures Octets(u.bufs, y) == Octets(v.bufs, y) {}
    assert Sized(u) && u.path[x] == v.path[x] && u.path[k] == [k] && u.bufs[k].data == data && u.outside[k] == 1;
    hide Pop, Octets;
    ConcatOne(u.bufs, k);
    ConcatSame(u.bufs, v.bufs, v.path[x]);
    hide Attach, Concat;
    AttachContent(u, r, k, x);
  }

  lemma ExtendPiece(w: World, v: World, p: nat, data: Piece16, rem: nat, j: nat)
    requires |data| + rem < 0x1_0000
    requires Building(w, v, p, |data| + rem) && v.pool != [] && j <= |v.path[p]|
    ensures Sized(v) && 0 <= Last(v.path[p]) < |v.bufs| && 0 <= v.pool[0] < |v.bufs|
    ensures var t := Extend(v, Last(v.path[p]), data, rem);
            Sized(t) && Piece(t, (v.path[p] + [v.pool[0]])[j], rem)
  {
    hide Owned, Content;
    OwnedSized(v, -1);
    var r, k := Last(v.path[p]), v.pool[0];
    Along(v, -1, p, |v.path[p]| - 1);
    PoolFirst(v);
    NotInPath(v, p, k);
    var t := Extend(v, r, data, rem);
    if j < |v.path[p]| {
      var x := v.path[p][j];
      Along(v, -1, p, j);
      NotInPath(v, x, k);
      assert v.path[p][j..][|v.path[p]| - 1 - j] == r;
      assert Piece(v, x, |data| + rem);
      ExtendContent(v, p, r, data, rem, x);
    } else {
      NewPiece(v, r, data, rem);
    }
  }

  lemma NewPiece(v: World, r: nat, data: Piece16, rem: nat)
    requires |data| + rem < 0x1_0000
    requires Sized(v) && r < |v.bufs| && v.pool != [] && 0 <= v.pool[0] < |v.bufs| && r != v.pool[0]
    ensures Sized(Extend(v, r, data, rem)) && Piece(Extend(v, r, data, rem), v.pool[0], rem)
  {
    var k := v.pool[0];
    var t := Extend(v, r, data, rem);
    assert t.path[k] == [k];
    ConcatOne(t.bufs, k);
  }

  /** Buffers that are not on the chain: no chain of theirs comes to it, for it is made of buffers that were free. */
  lemma ExtendOther(w: World, v: World, p: nat, data: Piece16, rem: nat, x: nat)
    requires |data| + rem < 0x1_0000
    requires Building(w, v, p, |data| + rem) && v.pool != [] && x < |w.bufs|
    requires Sized(v) && 0 <= Last(v.path[p]) < |v.bufs| && 0 <= v.pool[0] < |v.bufs| && x !in v.path[p] + [v.pool[0]]
    ensures var t := Extend(v, Last(v.path[p]), data, rem);
            Sized(t) && |t.bufs| == |w.bufs|
            && t.bufs[x] == w.bufs[x] && t.outside[x] == w.outside[x] && (w.bufs[x].live ==> t.path[x] == w.path[x])
  {
    var r := Last(v.path[p]);
    var n := |v.path[p]|;
    assert r == w.pool[n - 1] && r in v.path[p] && x !in v.path[p] && x != v.pool[0];
    DeadInPool(w, n - 1);
    if w.bufs[x].live { NotInPath(w, x, r); }
  }

  lemma DeadInPool(w: World, n: nat)
    requires Owned(w, -1) && n < |w.pool|
    ensures 0 <= w.pool[n] < |w.bufs| && !w.bufs[w.pool[n]].live
  {
    assert w.pool[n] in w.pool;
  }

  lemma PoolFirst(v: World)
    requires Owned(v, -1) && v.pool != []
    ensures 0 <= v.pool[0] < |v.bufs| && !v.bufs[v.pool[0]].live && v.bufs[v.pool[0]].kind == Pool
  {}

  lemma NotInPath(v: World, p: nat, k: nat)
    requires Owned(v, -1) && Live(v.bufs, p) && k < |v.bufs| && !v.bufs[k].live
    ensures p < |v.path| && k !in v.path[p]
  {
    if k in v.path[p] {
      var j :| 0 <= j < |v.path[p]| && v.path[p][j] == k;
      Along(v, -1, p, j);
    }
  }

  /** The chain and the pool after one more buffer. */
  lemma BuildFrame(w: World, v: World, t: World, p: nat)
    requires v.pool != [] && Sized(v) && Sized(t) && |t.bufs| == |v.bufs| && p < |v.bufs| && t.path[p] == v.path[p] + [v.pool[0]]
    requires t.pool == v.pool[1..] && |v.path[p]| <= |w.pool|
    requires v.path[p] == w.pool[..|v.path[p]|] && v.pool == w.pool[|v.path[p]|..]
    ensures |t.path[p]| <= |w.pool| && t.path[p] == w.pool[..|t.path[p]|] && t.pool == w.pool[|t.path[p]|..]
  {}

  /** Octets and totals of the buffers that were already there. */
  lemma OthersContent(w: World, v: World, p: nat, rem: nat, x: nat)
    requires Building(w, v, p, rem) && x < |w.bufs| && w.bufs[x].live
    ensures Sized(v) && p < |v.path| && x !in v.path[p] && v.bufs[x] == w.bufs[x] && Content(v, x) == Content(w, x)
  {
    NotOnChain(w, v, p, rem, x);
    PathInRange(w, -1, x);
    forall k | 0 <= k < |w.path[x]| ensures Octets(v.bufs, w.path[x][k]) == Octets(w.bufs, w.path[x][k]) {
      Along(w, -1, x, k);
      NotOnChain(w, v, p, rem, w.path[x][k]);
    }
    ConcatSame(v.bufs, w.bufs, w.path[x]);
  }

  lemma NotOnChain(w: World, v: World, p: nat, rem: nat, x: nat)
    requires Building(w, v, p, rem) && x < |w.bufs| && w.bufs[x].live
    ensures Sized(v) && p < |v.path| && x !in v.path[p] && v.bufs[x] == w.bufs[x] && v.path[x] == w.path[x]
  {
    forall k | 0 <= k < |v.path[p]| ensures v.path[p][k] != x { DeadInPool(w, k); }
  }

  lemma BuildDone(w: World, v: World, p: nat)
    requires Building(w, v, p, 0) && Totals(w)
    ensures Sized(v) && Totals(v) && Owned(v, -1)
  {
    hide Owned, Content;
    OwnedSized(v, -1);
    forall x: nat | x < |v.bufs| && v.bufs[x].live ensures v.bufs[x].totLen == |Content(v, x)| {
      if x in v.path[p] {
        var k :| 0 <= k < |v.path[p]| && v.path[p][k] == x;
        assert Piece(v, v.path[p][k], 0);
      } else {
        OthersContent(w, v, p, 0, x);
      }
    }
  }

  lemma {:induction false} OnesAll(bufs: seq<Buf>, p: seq<int>)
    requires InRange(bufs, p) && forall k | 0 <= k < |p| :: bufs[p[k]].ref == 1
    ensures Ones(bufs, p) == |p|
    decreases |p|
  {
    if p != [] {
      forall k | 0 <= k < |p[1..]| ensures 0 <= p[1..][k] < |bufs| && bufs[p[1..][k]].ref == 1 { assert p[1..][k] == p[k + 1]; }
      OnesAll(bufs, p[1..]);
    }
  }

  /** Everything given back: the pool holds the buffers it held, and nothing else has changed. */
  ghost predicate Restored(w: World, t: World)
  {
    && Sized(w) && Sized(t) && |t.bufs| == |w.bufs| && multiset(t.pool) == multiset(w.pool)
    && forall x | 0 <= x < |w.bufs| :: if w.bufs[x].live then t.bufs[x] == w.bufs[x] && t.outside[x] == w.outside[x] && t.path[x] == w.path[x]
                                       else !t.bufs[x].live
  }

  /** The pool has run out: freeing what has been built so far restores it. */
  lemma BuildFails(w: World, v: World, p: nat, rem: nat)
    requires Building(w, v, p, rem) && v.pool == []
    ensures Sized(v) && Live(v.bufs, p) && v.outside[p] > 0 && InRange(v.bufs, v.path[p]) && Owned(GiveUp(v, p), p)
    ensures var t := FreePath(GiveUp(v, p), v.path[p]);
            Owned(t, -1) && Restored(w, t)
  {
    hide Owned, FreePath, Ones, Returned, Content;
    OwnedSized(v, -1);
    var g := GiveUp(v, p);
    PathFirst(v, -1, p);
    GiveUpKeeps(v, p);
    FreeKeeps(g, p);
    PathDistinct(g, p, p);
    PathInRange(v, -1, p);
    var f := v.path[p];
    forall k | 0 <= k < |f| ensures v.bufs[f[k]].ref == 1 && v.bufs[f[k]].kind == Pool { assert Piece(v, f[k], rem); }
    OnesAll(v.bufs, f);
    FreeReleases(g, f);
    FreeReturns(g, f);
    var t := FreePath(g, f);
    assert f[..|f|] == f;
    ReturnedAll(v.bufs, f);
    assert |f| == |w.pool| && w.pool[..|f|] == w.pool;
    assert t.pool == Returned(v.bufs, f) + [] == Returned(v.bufs, f);
    assert multiset(t.pool) == multiset(w.pool);
    hide Building, Piece, Freed, InRange, Distinct;
    forall x: nat | x < |w.bufs|
      ensures if w.bufs[x].live then t.bufs[x] == w.bufs[x] && t.outside[x] == w.outside[x] && t.path[x] == w.path[x] else !t.bufs[x].live
    {
      assert t.bufs[x] == Freed(v.bufs, f, |f|, x);
      RestoredAt(w, v, p, rem, x);
    }
    assert Restored(w, t);
  }

  lemma RestoredAt(w: World, v: World, p: nat, rem: nat, x: nat)
    requires Building(w, v, p, rem) && x < |w.bufs| && Sized(v) && p in v.path[p]
    ensures var y := Freed(v.bufs, v.path[p], |v.path[p]|, x);
            if w.bufs[x].live then y == w.bufs[x] && v.outside[p := 0][x] == w.outside[x] && v.path[x] == w.path[x] else !y.live
  {
    assert v.path[p][..|v.path[p]|] == v.path[p];
    if w.bufs[x].live { NotOnChain(w, v, p, rem, x); } else { DeadBefore(w, v, p, rem, x); }
  }

  lemma DeadBefore(w: World, v: World, p: nat, rem: nat, x: nat)
    requires Building(w, v, p, rem) && x < |w.bufs| && !w.bufs[x].live
    ensures Sized(v) && (x in v.path[p] || !v.bufs[x].live)
  {}

  lemma RestoredTotals(w: World, t: World)
    requires Restored(w, t) && Totals(w) && Owned(w, -1)
    ensures Totals(t)
  {
    forall x: nat | x < |t.bufs| && t.bufs[x].live ensures t.bufs[x].totLen == |Content(t, x)| {
      forall k | 0 <= k < |w.path[x]| ensures Octets(t.bufs, w.path[x][k]) == Octets(w.bufs, w.path[x][k]) { Along(w, -1, x, k); }
      ConcatSame(t.bufs, w.bufs, w.path[x]);
    }
  }

  lemma FurtherStep(rem: nat)
    requires rem > 0
    ensures Further(rem) == 1 + Further(rem - Least(rem, PBUF_POOL_BUFSIZE)) && Further(0) == 0
  {}
}
