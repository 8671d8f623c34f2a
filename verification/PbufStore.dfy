/** pbuf.c as it runs: loops over chains that update lengths, links and counts in place. */
module PbufStore {
  import opened Words
  import opened PbufSpec
  import opened PbufAlloc
  import opened PbufOps

  function Chain(path: seq<seq<int>>, i: int): seq<int>
    requires i == -1 || 0 <= i < |path|
  {
    if i == -1 then [] else path[i]
  }

  /** Every total is right. */
  ghost predicate Right(w: World) { Sized(w) && Totals(w) }

  class Store {
    var bufs: seq<Buf>
    var pool: seq<int>
    ghost var outside: seq<nat>
    ghost var path: seq<seq<int>>

    ghost function View(): World
      reads this
    {
      World(bufs, pool, outside, path)
    }

    ghost predicate Valid()
      reads this
    {
      Owned(View(), -1)
    }

    /** pbuf_init: all buffers in the pool. */
    constructor (size: nat)
      ensures Valid() && Right(View()) && pool == seq(size, i => i) && |bufs| == size
      ensures forall i | 0 <= i < size :: bufs[i].kind == Pool && !bufs[i].live
    {
      bufs := seq(size, _ => Buf(Pool, false, -1, [], PBUF_POOL_BUFSIZE, 0));
      pool := seq(size, i => i);
      outside := seq(size, _ => 0);
      path := seq(size, i => [i]);
      new;
      forall i: nat | i < |bufs| ensures CountOk(View(), i, -1) { NoLinks(bufs, i); }
      forall i | 0 <= i < size ensures i in pool { assert pool[i] == i; }
      assert PoolOk(View());
    }

    /** A buffer whose count has come to zero. */
    method Deallocate(p: nat)
      requires p < |bufs|
      modifies this`bufs, this`pool
      ensures View() == Release(old(View()), p) && path == old(path) && outside == old(outside)
    {
      if bufs[p].kind == Pool { pool := [p] + pool; }
      bufs := bufs[p := bufs[p].(live := false, ref := 0)];
    }

    /** One reference fewer. */
    method Lower(p: nat)
      requires p < |bufs|
      modifies this`bufs
      ensures View() == Decrement(old(View()), p)
    {
      bufs := bufs[p := bufs[p].(ref := Wrap16(bufs[p].ref - 1))];
    }

    /** pbuf_free without the caller's part: drop one reference to `start` and to what it held. */
    method Unreference(start: nat) returns (count: nat)
      requires Owned(View(), start) && Live(bufs, start)
      modifies this`bufs, this`pool
      ensures start < |path| && InRange(old(bufs), path[start]) && View() == FreePath(old(View()), path[start])
      ensures Valid() && count == Ones(old(bufs), path[start]) % 256
    {
      hide Owned, FreePath, Ones, Release, Decrement, InRange, Underway;
      ghost var w := View();
      FreeStarts(w, start);
      ghost var freed := 0;
      count := 0;
      var p: int := start;
      while p != -1
        invariant Underway(w, path[start], View(), p, freed) && count == freed % 256
        invariant (p == -1 || 0 <= p < |path|) && path == w.path && outside == w.outside && start < |path|
        decreases |Chain(path, p)|
      {
        ghost var v := View();
        FreeRound(w, path[start], v, p, freed);
        if bufs[p].ref == 1 {
          var q := bufs[p].next;
          Deallocate(p);
          freed := freed + 1;
          count := (count + 1) % 256;
          p := q;
        } else {
          Lower(p);
          p := -1;
        }
      }
      FreeEnds(w, path[start], View(), freed);
    }

    /** pbuf_free of a reference that the caller holds. */
    method Free(p: nat) returns (count: nat)
      requires Valid() && Live(bufs, p) && outside[p] > 0
      modifies this
      ensures View() == Given(old(View()), p) && Valid() && (Right(old(View())) ==> Right(View()))
      ensures Survives(old(View()).(outside := outside), View())
      ensures InRange(old(bufs), old(path)[p]) && count == Ones(old(bufs), old(path)[p]) % 256
    {
      hide FreePath, Ones, Totals, Survives, Owned;
      OwnedSized(View(), -1);
      GivenKeeps(View(), p);
      GiveUpKeeps(View(), p);
      PathInRange(View(), -1, p);
      outside := outside[p := outside[p] - 1];
      FreeSurvives(View(), p);
      count := Unreference(p);
    }

    /** pbuf_ref: in order afterwards unless the count was at its greatest. */
    method AddRef(p: nat)
      requires Valid() && Live(bufs, p)
      modifies this
      ensures View() == Ref(old(View()), p) && (Valid() <==> old(bufs)[p].ref < 0xffff)
      ensures Right(View()) <==> Right(old(View()))
    {
      hide Owned, Totals;
      OwnedSized(View(), -1);
      RefKeeps(View(), p);
      RefTotals(View(), p);
      bufs := bufs[p := bufs[p].(ref := Wrap16(bufs[p].ref + 1))];
      outside := outside[p := outside[p] + 1];
    }

    /** The totals along h's chain grow by n; returns its last buffer. */
    method RaiseTotals(h: nat, n: int) returns (p: nat)
      requires Valid() && Live(bufs, h)
      modifies this`bufs
      ensures h < |path| && path[h] != [] && bufs == Raise(old(bufs), path[h], n) && p < |bufs| && p == Last(path[h])
    {
      hide Owned, Raise;
      ghost var w := View();
      ghost var k := 0;
      p := h;
      PlaceOnPath(w, h, 0);
      RaiseNone(bufs, n);
      assert path[h][..0] == [];
      while bufs[p].next != -1
        invariant 0 <= k < |path[h]| && p == path[h][k] && 0 <= p < |bufs|
        invariant bufs == Raise(w.bufs, path[h][..k], n)
        invariant bufs[p].next == -1 <==> k == |path[h]| - 1
        decreases |path[h]| - k
      {
        RaiseStep(w, h, k, n);
        bufs := bufs[p := bufs[p].(totLen := Wrap16(bufs[p].totLen + n))];
        p := bufs[p].next;
        k := k + 1;
      }
      RaiseStep(w, h, k, n);
      assert path[h][..k + 1] == path[h];
      bufs := bufs[p := bufs[p].(totLen := Wrap16(bufs[p].totLen + n))];
    }

    /** pbuf_cat: t's chain goes on the end of h's, and the caller's reference to t goes with it. */
    method Concatenate(h: nat, t: nat)
      requires MayCat(View(), h, t)
      modifies this
      ensures View() == Cat(old(View()), h, t) && Valid()
      ensures Right(old(View())) ==> (Right(View()) <==> CatFits(old(View()), h, t))
    {
      hide Owned, Totals, NoSideChain, Raise, Joined, CatFits;
      OwnedSized(View(), -1);
      CatKeeps(View(), h, t);
      if Totals(View()) { CatTotals(View(), h, t); }
      var p := RaiseTotals(h, bufs[t].totLen);
      bufs := bufs[p := bufs[p].(next := t)];
      outside := outside[t := outside[t] - 1];
      path := Joined(path, p, t);
    }

    /** pbuf_chain: the caller keeps its reference to t. */
    method Link(h: nat, t: nat)
      requires MayCat(View(), h, t)
      modifies this
      ensures View() == Ref(Cat(old(View()), h, t), t) && (Valid() <==> old(bufs)[t].ref < 0xffff)
      ensures Right(old(View())) ==> (Right(View()) <==> CatFits(old(View()), h, t))
    {
      hide Owned, Totals, Cat, CatFits;
      CatRef(View(), h, t);
      Concatenate(h, t);
      AddRef(t);
    }

    /** pbuf_alloc for the pool: a chain for `length` octets, or nothing at all when the pool is too small for it. */
    method AllocPool(length: U16, offset: nat) returns (p: int)
      requires Valid() && offset <= PBUF_POOL_BUFSIZE
      modifies this
      ensures (View(), p) == Allocated(old(View()), length, offset) && Valid()
      ensures p == -1 <==> |old(pool)| < Needed(length, offset)
      ensures p == -1 ==> Restored(old(View()), View())
      ensures p != -1 ==> 0 <= p && Building(old(View()), View(), p, 0) && Sized(View()) && p < |bufs| && |Content(View(), p)| == length
      ensures Right(old(View())) ==> Right(View())
    {
      hide Owned, Totals, Building, FreePath, Content, Restored, Pop, Extend, Grown, Further;
      ghost var w := View();
      OwnedSized(w, -1);
      AllocIs(w, length, offset);
      if Totals(w) { AllocTotals(w, length, offset); }
      if |pool| == 0 { return -1; }
      var len := Least(length, PBUF_POOL_BUFSIZE - offset);
      var rem := length - len;
      BuildStart(w, Zeros(len), rem);
      FurtherStep(1);
      p := pool[0];
      PopHere(Zeros(len), length);
      var r := p;
      ghost var t := Grown(w, View(), p, rem);
      while rem > 0
        invariant 0 <= rem <= length && 0 <= p && Building(w, View(), p, rem) && Grown(w, View(), p, rem) == t
        invariant Sized(View()) && p < |bufs| && path[p] != [] && r == Last(path[p])
        invariant |pool| - Further(rem) == |w.pool| - Needed(length, offset)
      {
        ghost var v := View();
        FurtherStep(rem);
        if |pool| == 0 {
          GrownEnds(w, v, p, rem);
          GivesBack(w, v, p, rem);
          outside := outside[p := outside[p] - 1];
          var _ := Unreference(p);
          return -1;
        }
        GrownStep(w, v, p, rem);
        var n := Least(rem, PBUF_POOL_BUFSIZE);
        var q := pool[0];
        ExtendHere(r, Zeros(n), rem);
        rem := rem - n;
        r := q;
      }
      GrownEnds(w, View(), p, rem);
    }

    /** pbuf_alloc for memory from the heap or held elsewhere; `ok` says whether it could be had. */
    method AllocOther(kind: Kind, data: Piece16, ok: bool) returns (p: int)
      requires Valid() && kind != Pool
      modifies this
      ensures Valid() && (p == -1 <==> !ok) && (Right(old(View())) ==> Right(View()))
      ensures ok ==> View() == Fresh(old(View()), kind, data) && p == |old(bufs)| && Sized(View()) && Content(View(), p) == data
      ensures !ok ==> View() == old(View())
    {
      hide Owned, Totals, Content;
      if !ok { return -1; }
      OwnedSized(View(), -1);
      FreshKeeps(View(), kind, data);
      FreshContent(View(), kind, data);
      if Totals(View()) { FreshTotals(View(), kind, data); }
      p := |bufs|;
      bufs := bufs + [Buf(kind, true, -1, data, |data|, 1)];
      outside, path := outside + [1], path + [[p]];
    }

    /** The first buffer of the pool taken out of it. */
    method PopHere(data: Piece16, total: U16)
      requires Sized(View()) && pool != [] && 0 <= pool[0] < |bufs|
      modifies this
      ensures View() == Pop(old(View()), data, total)
    {
      var k := pool[0];
      pool := pool[1..];
      bufs := bufs[k := Buf(Pool, true, -1, data, total, 1)];
      outside, path := outside[k := 1], path[k := [k]];
    }

    /** The next buffer of the pool, linked in behind r. */
    method ExtendHere(r: nat, data: Piece16, total: U16)
      requires Sized(View()) && pool != [] && 0 <= pool[0] < |bufs| && r < |bufs| && |data| <= total
      modifies this
      ensures View() == Extend(old(View()), r, data, total - |data|)
    {
      var k := pool[0];
      PopHere(data, total);
      bufs := bufs[r := bufs[r].(next := k)];
      outside, path := outside[k := outside[k] - 1], Joined(path, r, k);
    }

    /** What follows q is cut off, and the reference q held to it dropped. */
    method CutAfter(q: nat) returns (count: nat)
      requires Valid() && Live(bufs, q) && bufs[q].next != -1
      modifies this
      ensures Valid()
      ensures var d := Detach(old(View()), q);
              var n := old(bufs)[q].next;
              && 0 <= n < |d.path| && InRange(d.bufs, d.path[n])
              && View() == FreePath(d, d.path[n]) && count == Ones(d.bufs, d.path[n]) % 256
    {
      hide Owned, FreePath, Ones, InRange, CutPath;
      ghost var w := View();
      OwnedSized(w, -1);
      DetachKeeps(w, q);
      DetachLive(w, q);
      var n := bufs[q].next;
      bufs := bufs[q := bufs[q].(next := -1)];
      path := Detach(w, q).path;
      count := Unreference(n);
    }

    /** pbuf_dechain: the first buffer on its own, and the rest of the chain if something still refers to it. A chain
        of 256 buffers that are all freed would not be recognised as gone: the count is one octet. */
    method Dechain(p: nat) returns (q: int)
      requires Valid() && Live(bufs, p)
      modifies this
      ensures View() == Dechained(old(View()), p) && Valid()
      ensures Right(old(View())) ==> (Right(View()) <==> old(bufs[p].totLen == |bufs[p].data| || NoSideChain(View(), path[p], p)))
      ensures q == Rest(old(View()), p)
      ensures Sized(View()) && p < |bufs| && Content(View(), p) == old(bufs)[p].data
    {
      hide Owned, Totals, NoSideChain, Content, FreePath, Ones, Cut;
      ghost var w := View();
      OwnedSized(w, -1);
      DechainKeeps(w, p);
      DechainContent(w, p);
      if Totals(w) { DechainTotals(w, p); }
      if bufs[p].next == -1 { return -1; }
      var n := bufs[p].next;
      DechainCuts(w, p);
      bufs := bufs[n := bufs[n].(totLen := Wrap16(bufs[p].totLen - |bufs[p].data|))];
      bufs := bufs[p := bufs[p].(totLen := |bufs[p].data|)];
      var count := CutAfter(p);
      q := if count > 0 then -1 else n;
    }

    /** pbuf_realloc: the chain shortened to n octets; what it no longer needs is dropped. */
    method Shrink(p: nat, n: U16)
      requires MayShrink(View(), p, n)
      modifies this
      ensures View() == Reallocated(old(View()), p, n) && Valid() && Sized(View()) && p < |bufs|
      ensures n >= old(bufs)[p].totLen ==> View() == old(View())
      ensures n < old(bufs)[p].totLen ==>
                && Content(View(), p) == old(Content(View(), p))[..n]
                && (Right(old(View())) ==>
                      var m := Place(old(bufs), old(path)[p], n).0;
                      m < |old(path)[p]| && (Right(View()) <==> NoSideChain(old(View()), old(path)[p], old(path)[p][m])))
    {
      hide Owned, Totals, NoSideChain, Content, Place, Concat, Cut, FreePath, Ones, Raise;
      ghost var w := View();
      OwnedSized(w, -1);
      ReallocKeeps(w, p, n);
      if n >= bufs[p].totLen { return; }
      ReallocContent(w, p, n);
      if Totals(w) { ReallocTotals(w, p, n); }
      ReallocCuts(w, p, n);
      var q, rem := StepOver(p, n);
      ShrinkCuts(w, p, n);
      bufs := bufs[q := bufs[q].(data := bufs[q].data[..rem], totLen := rem)];
      if bufs[q].next != -1 {
        var _ := CutAfter(q);
      }
    }

    /** The buffers that stay as they are: their totals change, and what is left for the next one is counted. */
    method StepOver(p: nat, n: nat) returns (q: nat, rem: nat)
      requires MayShrink(View(), p, n) && n < bufs[p].totLen
      modifies this`bufs
      ensures p < |path| && var (m, r) := Place(old(bufs), path[p], n);
              && rem == r && m < |path[p]| && q == path[p][m]
              && bufs == Raise(old(bufs), path[p][..m], n - old(bufs)[p].totLen)
    {
      hide Owned, Content, Raise, Place, Concat;
      ghost var w := View();
      OwnedSized(w, -1);
      var grow := n - bufs[p].totLen;
      ShrinkPlace(w, p, n);
      ghost var m := Place(w.bufs, path[p], n).0;
      ghost var k := 0;
      rem, q := n, p;
      PlaceOnPath(w, p, 0);
      RaiseNone(bufs, grow);
      assert path[p][..0] == [] && path[p][0..] == path[p];
      while rem > |bufs[q].data|
        invariant 0 <= k <= m && q == path[p][k] && 0 <= q < |bufs| == |w.bufs| && bufs[q].data == w.bufs[q].data
        invariant bufs == Raise(w.bufs, path[p][..k], grow) && bufs[q].next == w.bufs[q].next
        invariant Place(w.bufs, path[p], n) == (k + Place(w.bufs, path[p][k..], rem).0, Place(w.bufs, path[p][k..], rem).1)
        decreases m - k
      {
        ShrinkStep(w, p, n, k, rem, grow);
        rem := rem - |bufs[q].data|;
        bufs := bufs[q := bufs[q].(totLen := Wrap16(bufs[q].totLen + grow))];
        q := bufs[q].next;
        k := k + 1;
      }
      PlaceStop(w.bufs, path[p][k..], rem);
    }
  }

  /** Giving up a chain under construction. */
  lemma GivesBack(w: World, v: World, p: nat, rem: nat)
    requires Building(w, v, p, rem) && 0 < rem < 0x1_0000 && v.pool == []
    ensures Sized(v) && Live(v.bufs, p) && v.outside[p] > 0 && InRange(v.bufs, v.path[p]) && Owned(GiveUp(v, p), p)
    ensures Grown(w, v, p, rem) == FreePath(GiveUp(v, p), v.path[p])
  {
    hide Owned, FreePath, Building, Restored;
    BuildFails(w, v, p, rem);
  }

  /** What pbuf_dechain returns: the rest of the chain, unless it is gone. */
  ghost function Rest(w: World, p: nat): int
    requires Owned(w, -1) && Live(w.bufs, p)
  {
    var n := w.bufs[p].next;
    if n == -1 then -1
    else
      NextTotalledKeeps(w, p);
      CutFreeable(NextTotalled(w, p), [], p, |w.bufs[p].data|, 0);
      var c := Cut(NextTotalled(w, p), [], p, |w.bufs[p].data|, 0);
      if Ones(c.bufs, c.path[n]) % 256 > 0 then -1 else n
  }

  /** The state in which pbuf_dechain cuts the chain. */
  lemma DechainCuts(w: World, p: nat)
    requires Owned(w, -1) && Live(w.bufs, p) && w.bufs[p].next != -1
    ensures Live(w.bufs, w.bufs[p].next) && w.bufs[p].next != p && p < |w.path|
    ensures var v := NextTotalled(w, p);
            var u := v.(bufs := v.bufs[p := v.bufs[p].(totLen := |v.bufs[p].data|)]);
            Owned(u, -1) && Detach(u, p) == Cut(v, [], p, |w.bufs[p].data|, 0)
  {
    NextTotalledKeeps(w, p);
    var v := NextTotalled(w, p);
    RaiseNone(v.bufs, 0);
    OwnedSized(v, -1);
    assert v.bufs[p] == w.bufs[p];
    assert v.bufs[p].data[..|v.bufs[p].data|] == v.bufs[p].data;
    hide Owned, Raise, Detach;
    TrimKeeps(v, [], p, |v.bufs[p].data|, 0);
    assert Trim(v, [], p, |v.bufs[p].data|, 0) == v.(bufs := v.bufs[p := v.bufs[p].(totLen := |v.bufs[p].data|)]);
  }

  /** The state in which pbuf_realloc cuts the chain. */
  lemma ShrinkCuts(w: World, p: nat, n: nat)
    requires MayShrink(w, p, n) && n < w.bufs[p].totLen
    ensures Sized(w)
    ensures var (m, rem) := Place(w.bufs, w.path[p], n);
            var front, grow := w.path[p][..Least(m, |w.path[p]|)], n - w.bufs[p].totLen;
            && m < |w.path[p]| && Live(w.bufs, w.path[p][m]) && rem <= |w.bufs[w.path[p][m]].data|
            && var q := w.path[p][m];
               var r := Raise(w.bufs, front, grow);
               var u := w.(bufs := r[q := r[q].(data := r[q].data[..rem], totLen := rem)]);
               && r[q] == w.bufs[q] && Owned(u, -1) && Detach(u, q) == Cut(w, front, q, rem, grow)
               && (u.bufs[q].next == -1 ==> Detach(u, q) == u)
  {
    hide Owned, Place, Concat, Raise, Content, Reallocated, CutTo;
    ReallocCuts(w, p, n);
    var (m, rem) := Place(w.bufs, w.path[p], n);
    var q, front, grow := w.path[p][m], w.path[p][..m], n - w.bufs[p].totLen;
    RaisedAt(w, p, m, grow);
    TrimKeeps(w, front, q, rem, grow);
    if w.bufs[q].next == -1 { NothingCut(Trim(w, front, q, rem, grow), q); }
  }

  lemma PlaceStop(bufs: seq<Buf>, p: seq<int>, n: nat)
    requires p != [] && n <= |Octets(bufs, p[0])|
    ensures Place(bufs, p, n) == (0, n)
  {}

  lemma ShrinkStep(w: World, p: nat, n: nat, k: nat, rem: nat, grow: int)
    requires MayShrink(w, p, n) && n < w.bufs[p].totLen && Sized(w)
    requires k < |w.path[p]| && 0 <= w.path[p][k] < |w.bufs| && rem > |w.bufs[w.path[p][k]].data|
    requires var (m, r) := Place(w.bufs, w.path[p][k..], rem);
             Place(w.bufs, w.path[p], n) == (k + m, r)
    ensures var q := w.path[p][k];
            var r := Raise(w.bufs, w.path[p][..k], grow);
            var u := Raise(w.bufs, w.path[p][..k + 1], grow);
            && k < Place(w.bufs, w.path[p], n).0
            && q < |r| == |u| && r[q := r[q].(totLen := Wrap16(r[q].totLen + grow))] == u
            && u[q].next == w.bufs[q].next && k + 1 < |w.path[p]| && u[q].next == w.path[p][k + 1]
            && var x := w.path[p][k + 1];
               && 0 <= x < |u| && u[x].data == w.bufs[x].data && u[x].next == w.bufs[x].next
               && var (m, s) := Place(w.bufs, w.path[p][k + 1..], rem - |w.bufs[q].data|);
                  Place(w.bufs, w.path[p], n) == (k + 1 + m, s)
  {
    hide Owned, Content, Raise, Concat, Place;
    var q := w.path[p][k];
    ShrinkPlace(w, p, n);
    var m := Place(w.bufs, w.path[p], n).0;
    RaiseStep(w, p, k, grow);
    PlaceOnPath(w, p, k);
    PlaceOnPath(w, p, k + 1);
    PlaceNext(w.bufs, w.path[p][k..], rem);
    assert w.path[p][k..][1..] == w.path[p][k + 1..] && w.path[p][k..][0] == q;
    RaiseKept(w.bufs, w.path[p][..k + 1], grow);
    var (m1, _) := Place(w.bufs, w.path[p][k + 1..], rem - |w.bufs[q].data|);
    assert m == k + 1 + m1 && k < m;
  }

  lemma PlaceNext(bufs: seq<Buf>, p: seq<int>, n: nat)
    requires p != [] && n > |Octets(bufs, p[0])|
    ensures var (m, r) := Place(bufs, p[1..], n - |Octets(bufs, p[0])|);
            Place(bufs, p, n) == (m + 1, r)
  {}

  lemma RaiseKept(bufs: seq<Buf>, f: seq<int>, n: int)
    ensures forall x | 0 <= x < |bufs| :: Raise(bufs, f, n)[x].next == bufs[x].next && Raise(bufs, f, n)[x].data == bufs[x].data
  {}

  /** The buffer the loop stops at is not among those whose totals changed. */
  lemma RaisedAt(w: World, p: nat, m: nat, grow: int)
    requires Owned(w, -1) && Live(w.bufs, p) && p < |w.path| && m < |w.path[p]| && 0 <= w.path[p][m] < |w.bufs|
    ensures var r := Raise(w.bufs, w.path[p][..m], grow);
            |r| == |w.bufs| && r[w.path[p][m]] == w.bufs[w.path[p][m]]
  {
    NotAmongFirst(w, p, m);
    RaiseAt(w.bufs, w.path[p][..m], grow);
  }

  /** Where the loop of pbuf_cat stands. */
  lemma PlaceOnPath(w: World, h: nat, k: nat)
    requires Owned(w, -1) && Live(w.bufs, h)
    ensures Sized(w) && |w.path[h]| > 0
    ensures k < |w.path[h]| ==>
              && 0 <= w.path[h][k] < |w.bufs| && (w.bufs[w.path[h][k]].next == -1 <==> k == |w.path[h]| - 1)
              && (k + 1 < |w.path[h]| ==> w.path[h][k + 1] == w.bufs[w.path[h][k]].next)
    ensures k == 0 ==> w.path[h][0] == h
  {
    assert PathOk(w, h);
    if k < |w.path[h]| { Along(w, -1, h, k); }
  }

  /** Raising one more total along a chain. */
  lemma RaiseStep(w: World, h: nat, k: nat, n: int)
    requires Owned(w, -1) && Live(w.bufs, h) && h < |w.path| && k < |w.path[h]|
    ensures var p := w.path[h][k];
            var r := Raise(w.bufs, w.path[h][..k], n);
            var u := Raise(w.bufs, w.path[h][..k + 1], n);
            && 0 <= p < |r| == |u| && r[p := r[p].(totLen := Wrap16(r[p].totLen + n))] == u
            && (u[p].next == -1 <==> k == |w.path[h]| - 1)
            && (k + 1 < |w.path[h]| ==> var q := u[p].next;
                                        q == w.path[h][k + 1] && 0 <= q < |u| && (u[q].next == -1 <==> k + 1 == |w.path[h]| - 1))
  {
    hide Owned, Raise;
    var p := w.path[h][k];
    PlaceOnPath(w, h, k);
    PlaceOnPath(w, h, k + 1);
    NotAmongFirst(w, h, k);
    assert w.path[h][..k + 1] == w.path[h][..k] + [p];
    RaiseSnoc(w.bufs, w.path[h][..k], p, n);
  }

  lemma RaiseSnoc(bufs: seq<Buf>, f: seq<int>, p: nat, n: int)
    requires p !in f && p < |bufs|
    ensures var r, u := Raise(bufs, f, n), Raise(bufs, f + [p], n);
            r[p] == bufs[p] && r[p := r[p].(totLen := Wrap16(r[p].totLen + n))] == u && forall x | 0 <= x < |u| :: u[x].next == bufs[x].next
  {
    RaiseAt(bufs, f, n);
    RaiseAt(bufs, f + [p], n);
  }

  lemma NotAmongFirst(w: World, h: nat, k: nat)
    requires Owned(w, -1) && Live(w.bufs, h) && h < |w.path| && k < |w.path[h]|
    ensures w.path[h][k] !in w.path[h][..k]
  {
    forall j | 0 <= j < k ensures w.path[h][..k][j] != w.path[h][k] { NoRepeat(w, -1, h, j, k); }
  }

  /** pbuf_free of chain f in state w has come to buffer p, in state v, with k buffers released. */
  ghost predicate Underway(w: World, f: seq<int>, v: World, p: int, k: nat)
  {
    && Sized(v) && (p == -1 || Live(v.bufs, p)) && Owned(v, p) && v.path == w.path && v.outside == w.outside
    && InRange(w.bufs, f) && InRange(v.bufs, Chain(v.path, p))
    && FreePath(w, f) == FreePath(v, Chain(v.path, p)) && Ones(w.bufs, f) == k + Ones(v.bufs, Chain(v.path, p))
  }

  lemma FreeStarts(w: World, start: nat)
    requires Owned(w, start) && Live(w.bufs, start)
    ensures Sized(w) && start < |w.path| && Underway(w, w.path[start], w, start, 0)
  {
    OwnedSized(w, start);
    FreeOne(w, start);
  }

  lemma FreeEnds(w: World, f: seq<int>, v: World, k: nat)
    requires Underway(w, f, v, -1, k)
    ensures InRange(w.bufs, f) && v == FreePath(w, f) && Owned(v, -1) && k == Ones(w.bufs, f)
  {
    FreeNone(v);
  }

  /** One round of the loop. */
  lemma FreeRound(w: World, f: seq<int>, v: World, p: nat, k: nat)
    requires Underway(w, f, v, p, k)
    ensures p < |v.bufs| == |v.path| && v.bufs[p].ref > 0 && 0 < |v.path[p]|
    ensures v.bufs[p].ref == 1 ==> Underway(w, f, Release(v, p), v.bufs[p].next, k + 1)
    ensures v.bufs[p].ref == 1 ==> v.bufs[p].next == -1 || 0 <= v.bufs[p].next < |v.path|
    ensures v.bufs[p].ref == 1 ==> |Chain(v.path, v.bufs[p].next)| < |v.path[p]|
    ensures v.bufs[p].ref != 1 ==> Underway(w, f, Decrement(v, p), -1, k)
  {
    FreeOne(v, p);
    FreeNone(Decrement(v, p));
    hide Owned, FreePath, Ones;
  }

  lemma {:induction false} NoLinks(bufs: seq<Buf>, i: int)
    requires forall k | 0 <= k < |bufs| :: !bufs[k].live
    ensures Links(bufs, i) == 0
    decreases |bufs|
  {
    if bufs != [] { NoLinks(bufs[..|bufs| - 1], i); }
  }

  lemma FreeNone(w: World)
    ensures FreePath(w, []) == w && Ones(w.bufs, []) == 0
  {}

  /** One round of pbuf_free. */
  lemma FreeOne(w: World, i: nat)
    requires Owned(w, i) && Live(w.bufs, i)
    ensures Sized(w) && InRange(w.bufs, w.path[i]) && w.bufs[i].ref > 0 && 0 < |w.path[i]|
    ensures w.bufs[i].ref > 1 ==> FreePath(w, w.path[i]) == Decrement(w, i) && Ones(w.bufs, w.path[i]) == 0 && Owned(Decrement(w, i), -1)
    ensures var t, n := Release(w, i), w.bufs[i].next;
            w.bufs[i].ref == 1 ==>
              && (n == -1 || Live(t.bufs, n)) && Sized(t) && Owned(t, n) && InRange(t.bufs, Chain(t.path, n))
              && FreePath(w, w.path[i]) == FreePath(t, Chain(t.path, n))
              && Ones(w.bufs, w.path[i]) == 1 + Ones(t.bufs, Chain(t.path, n))
              && |Chain(t.path, n)| < |w.path[i]|
  {
    PathInRange(w, i, i);
    PathDistinct(w, i, i);
    assert PathOk(w, i) && CountOk(w, i, i);
    if w.bufs[i].ref > 1 {
      DecrementKeeps(w, i);
    } else {
      ReleaseKeeps(w, i);
      hide Owned;
      FreeStep(w, w.path[i]);
      var n := w.bufs[i].next;
      assert w.path[i][1..] == Chain(w.path, n);
    }
  }
}
