/** Whole operations on packet buffers, and what any sequence of them keeps. */
module PbufOps {
  import opened Words
  import opened PbufSpec
  import opened PbufAlloc

  lemma RaiseNone(bufs: seq<Buf>, n: int)
    ensures Raise(bufs, [], n) == bufs
  {}

  lemma DetachLive(w: World, q: nat)
    requires Owned(w, -1) && Live(w.bufs, q) && w.bufs[q].next != -1
    ensures Live(Detach(w, q).bufs, w.bufs[q].next)
  {
    assert PathOk(w, q);
  }

  lemma NothingCut(v: World, q: nat)
    requires Owned(v, -1) && Live(v.bufs, q) && v.bufs[q].next == -1
    ensures Sized(v) && forall g | 0 <= g < |v.path| :: Detach(v, q).path[g] == v.path[g] || (q in v.path[g] && |v.path[g]| >= 1)
    ensures Detach(v, q) == v
  {
    assert PathOk(v, q);
    assert forall g | 0 <= g < |v.path| :: CutPath(v.path[g], q, 1) == v.path[g];
    assert Detach(v, q).path == v.path;
    assert Detach(v, q).bufs == v.bufs;
  }

  /** Totals and contents do not depend on counts. */
  lemma SameTotals(w: World, t: World)
    requires Sized(w) && Sized(t) && Totals(w) && t.path == w.path && |t.bufs| == |w.bufs|
    requires forall x: nat | x < |w.bufs| :: t.bufs[x].data == w.bufs[x].data && t.bufs[x].totLen == w.bufs[x].totLen
                                             && t.bufs[x].next == w.bufs[x].next && (t.bufs[x].live ==> w.bufs[x].live)
    ensures Totals(t)
  {
    SurvivesTotals(w, t);
  }

  // ----- pbuf_free, pbuf_ref -----

  /** pbuf_free of a reference that the caller holds. */
  ghost function Given(w: World, p: nat): World
    requires Owned(w, -1) && Live(w.bufs, p) && w.outside[p] > 0
  {
    GiveUpKeeps(w, p);
    PathInRange(w, -1, p);
    FreePath(GiveUp(w, p), w.path[p])
  }

  lemma GivenKeeps(w: World, p: nat)
    requires Owned(w, -1) && Live(w.bufs, p) && Sized(w) && w.outside[p] > 0
    ensures Owned(Given(w, p), -1) && Sized(Given(w, p)) && (Totals(w) ==> Totals(Given(w, p)))
  {
    hide Owned, FreePath, Totals;
    GiveUpKeeps(w, p);
    FreeKeeps(GiveUp(w, p), p);
    OwnedSized(Given(w, p), -1);
    if Totals(w) {
      SameTotals(w, GiveUp(w, p));
      FreeTotals(GiveUp(w, p), p);
    }
  }

  lemma CatRef(w: World, h: nat, t: nat)
    requires MayCat(w, h, t)
    ensures var u := Cat(w, h, t); Live(u.bufs, t) && u.bufs[t].ref == w.bufs[t].ref && Sized(u)
  {
    RaiseAt(w.bufs, w.path[h], w.bufs[t].totLen);
  }

  /** Totals do not depend on counts. */
  lemma RefTotals(w: World, p: nat)
    requires Sized(w) && Live(w.bufs, p)
    ensures Sized(Ref(w, p)) && (Totals(Ref(w, p)) <==> Totals(w))
  {
    hide Totals;
    if Totals(w) { SameTotals(w, Ref(w, p)); }
    if Totals(Ref(w, p)) { SameTotals(Ref(w, p), w); }
  }

  // ----- cutting a chain after a buffer -----

  lemma CutFreeable(w: World, front: seq<int>, q: nat, rem: nat, grow: int)
    requires Owned(w, -1) && Live(w.bufs, q) && rem <= |w.bufs[q].data| && w.bufs[q].next != -1
    ensures var c, n := Cut(w, front, q, rem, grow), w.bufs[q].next;
            Live(c.bufs, n) && n < |c.path| && InRange(c.bufs, c.path[n]) && Owned(c, n)
  {
    OwnedSized(w, -1);
    CutKeeps(w, front, q, rem, grow);
    hide Owned, Raise, CutPath;
    var n := w.bufs[q].next;
    OwnedSized(Cut(w, front, q, rem, grow), n);
    DetachLive(w, q);
    CutLive(w, front, q, rem, grow);
    PathInRange(Cut(w, front, q, rem, grow), n, n);
  }

  /** The chain ends at q, which keeps `rem` octets; what came after it is dropped. */
  ghost function CutTo(w: World, front: seq<int>, q: nat, rem: nat, grow: int): World
    requires Owned(w, -1) && Live(w.bufs, q) && rem <= |w.bufs[q].data|
  {
    var c := Cut(w, front, q, rem, grow);
    var n := w.bufs[q].next;
    if n == -1 then c
    else
      CutFreeable(w, front, q, rem, grow);
      FreePath(c, c.path[n])
  }

  lemma CutToKeeps(w: World, front: seq<int>, q: nat, rem: nat, grow: int)
    requires Owned(w, -1) && Live(w.bufs, q) && rem <= |w.bufs[q].data|
    ensures Owned(CutTo(w, front, q, rem, grow), -1)
  {
    CutKeeps(w, front, q, rem, grow);
    hide Owned, Cut, FreePath;
    if w.bufs[q].next != -1 {
      CutFreeable(w, front, q, rem, grow);
      FreeKeeps(Cut(w, front, q, rem, grow), w.bufs[q].next);
    }
  }

  /** Dropping what came after q changes no contents. */
  lemma CutToContent(w: World, front: seq<int>, q: nat, rem: nat, grow: int, g: nat)
    requires Owned(w, -1) && Live(w.bufs, q) && rem <= |w.bufs[q].data| && Live(w.bufs, g)
    ensures var c, t := Cut(w, front, q, rem, grow), CutTo(w, front, q, rem, grow);
            Sized(c) && Sized(t) && g < |c.bufs| == |t.bufs| && Content(t, g) == Content(c, g)
  {
    OwnedSized(w, -1);
    CutLive(w, front, q, rem, grow);
    hide Owned, Cut, FreePath, Content;
    if w.bufs[q].next != -1 {
      CutFreeable(w, front, q, rem, grow);
      var c, n := Cut(w, front, q, rem, grow), w.bufs[q].next;
      FreeSurvives(c, n);
      SurvivesSizes(c, FreePath(c, c.path[n]));
      SurvivesContent(c, FreePath(c, c.path[n]), g);
    }
  }

  /** And it leaves every total right exactly when nothing is cut off, or no other chain joins from the side. */
  lemma CutToTotals(w: World, p: nat, m: nat, rem: nat)
    requires Owned(w, -1) && Totals(w) && Live(w.bufs, p) && m < |w.path[p]|
    requires Live(w.bufs, w.path[p][m]) && rem <= |w.bufs[w.path[p][m]].data|
    ensures Sized(w)
    ensures var q := w.path[p][m];
            var t := CutTo(w, w.path[p][..m], q, rem, rem - w.bufs[q].totLen);
            Sized(t) && (Totals(t) <==> rem == w.bufs[q].totLen || NoSideChain(w, w.path[p], q))
  {
    OwnedSized(w, -1);
    hide Owned, Totals, Cut, FreePath, NoSideChain, Content;
    if w.bufs[w.path[p][m]].next == -1 { CutTotals(w, p, m, rem); } else { CutFreed(w, p, m, rem); }
  }

  // ----- pbuf_dechain -----

  lemma AloneContent(w: World, p: nat)
    requires Owned(w, -1) && Live(w.bufs, p) && w.bufs[p].next == -1
    ensures Sized(w) && Content(w, p) == w.bufs[p].data
  {
    assert PathOk(w, p);
    ConcatOne(w.bufs, p);
  }

  lemma AloneTotal(w: World, p: nat)
    requires Owned(w, -1) && Totals(w) && Live(w.bufs, p) && w.bufs[p].next == -1
    ensures w.bufs[p].totLen == |w.bufs[p].data|
  {
    AloneContent(w, p);
  }

  lemma TotalOfNext(w: World, p: nat)
    requires Owned(w, -1) && Totals(w) && Live(w.bufs, p) && w.bufs[p].next != -1
    ensures Live(w.bufs, w.bufs[p].next) && w.bufs[p].next != p
    ensures w.bufs[w.bufs[p].next].totLen == w.bufs[p].totLen - |w.bufs[p].data|
  {
    var n := w.bufs[p].next;
    assert PathOk(w, p) && PathOk(w, n);
    assert w.path[p][1..] == w.path[n] && w.path[p][0] == p;
    assert w.bufs[p].totLen == |Content(w, p)| && w.bufs[n].totLen == |Content(w, n)|;
  }

  /** The total of the next buffer worked out anew. */
  function NextTotalled(w: World, p: nat): World
    requires p < |w.bufs| && 0 <= w.bufs[p].next < |w.bufs|
  {
    var n := w.bufs[p].next;
    w.(bufs := w.bufs[n := w.bufs[n].(totLen := Wrap16(w.bufs[p].totLen - |w.bufs[p].data|))])
  }

  lemma NextTotalledKeeps(w: World, p: nat)
    requires Owned(w, -1) && Live(w.bufs, p) && w.bufs[p].next != -1
    ensures Live(w.bufs, w.bufs[p].next) && w.bufs[p].next != p && Owned(NextTotalled(w, p), -1)
  {
    assert PathOk(w, p) && PathOk(w, w.bufs[p].next);
    NextNotItself(w, p);
    SameLinks(w, NextTotalled(w, p));
  }

  lemma NextNotItself(w: World, p: nat)
    requires Owned(w, -1) && Live(w.bufs, p)
    ensures w.bufs[p].next != p
  {
    assert PathOk(w, p);
  }

  /** pbuf_dechain: the first buffer on its own, and the reference it held to the next one dropped. */
  ghost function Dechained(w: World, p: nat): World
    requires Owned(w, -1) && Live(w.bufs, p)
  {
    if w.bufs[p].next == -1 then w
    else
      NextTotalledKeeps(w, p);
      CutTo(NextTotalled(w, p), [], p, |w.bufs[p].data|, 0)
  }

  lemma DechainKeeps(w: World, p: nat)
    requires Owned(w, -1) && Live(w.bufs, p)
    ensures Owned(Dechained(w, p), -1)
  {
    if w.bufs[p].next != -1 {
      NextTotalledKeeps(w, p);
      hide Owned;
      CutToKeeps(NextTotalled(w, p), [], p, |w.bufs[p].data|, 0);
    }
  }

  lemma FirstContent(w: World, p: nat)
    requires Owned(w, -1) && Live(w.bufs, p)
    ensures Sized(Cut(w, [], p, |w.bufs[p].data|, 0)) && Content(Cut(w, [], p, |w.bufs[p].data|, 0), p) == w.bufs[p].data
  {
    var len := |w.bufs[p].data|;
    var c := Cut(w, [], p, len, 0);
    PathFirst(w, -1, p);
    CutSelf(w.path[p], p);
    CutOctets(w, [], p, len, 0);
    OwnedSized(w, -1);
    hide Owned;
    assert c.path[p] == [p];
    ConcatOne(c.bufs, p);
    assert w.bufs[p].data[..len] == w.bufs[p].data;
  }

  lemma DechainContent(w: World, p: nat)
    requires Owned(w, -1) && Live(w.bufs, p)
    ensures var t := Dechained(w, p); Sized(t) && p < |t.bufs| && Content(t, p) == w.bufs[p].data
  {
    if w.bufs[p].next == -1 {
      AloneContent(w, p);
    } else {
      NextTotalledKeeps(w, p);
      hide Owned, Content;
      CutToContent(NextTotalled(w, p), [], p, |w.bufs[p].data|, 0, p);
      FirstContent(NextTotalled(w, p), p);
    }
  }

  /** It leaves every total right exactly when there was nothing after p, or p is in no other chain. */
  lemma DechainTotals(w: World, p: nat)
    requires Owned(w, -1) && Totals(w) && Live(w.bufs, p)
    ensures Sized(w) && Sized(Dechained(w, p))
    ensures Totals(Dechained(w, p)) <==> w.bufs[p].totLen == |w.bufs[p].data| || NoSideChain(w, w.path[p], p)
  {
    OwnedSized(w, -1);
    if w.bufs[p].next == -1 {
      AloneTotal(w, p);
    } else {
      TotalOfNext(w, p);
      NextTotalledKeeps(w, p);
      assert NextTotalled(w, p).bufs == w.bufs;
      hide Owned, Totals, NoSideChain, CutTo;
      PathFirst(w, -1, p);
      assert w.path[p][..0] == [] && w.path[p][0] == p;
      var len := |w.bufs[p].data|;
      SameCut(w, p, len, 0, len - w.bufs[p].totLen);
      CutToTotals(w, p, 0, len);
    }
  }

  /** Whatever the other totals are: if that of the first buffer was right, its own and that of the rest, should something
      still refer to it, are right afterwards. */
  lemma DechainRepairs(w: World, p: nat)
    requires Owned(w, -1) && Live(w.bufs, p) && w.bufs[p].next != -1
    requires Sized(w) && w.bufs[p].totLen == |Content(w, p)|
    ensures var t, n := Dechained(w, p), w.bufs[p].next;
            && Sized(t) && 0 <= n < |t.bufs| == |w.bufs|
            && t.bufs[p].totLen == |Content(t, p)| && t.bufs[n].totLen == |Content(t, n)| && Content(t, n) == Content(w, n)
  {
    hide Owned, Content, Cut, CutTo, NextTotalled, Dechained, Wrap16;
    NextTotalledIs(w, p);
    RestContent(w, p);
    NotBackTo(w, p);
    var v, n, len := NextTotalled(w, p), w.bufs[p].next, |w.bufs[p].data|;
    DechainContent(w, p);
    CutContent(v, [], p, len, 0, n);
    CutToContent(v, [], p, len, 0, n);
    CutLive(v, [], p, len, 0);
    CutToLengths(v, [], p, len, 0, n);
    CutToLengths(v, [], p, len, 0, p);
    CutToSize(w, p);
  }

  lemma NextTotalledIs(w: World, p: nat)
    requires Owned(w, -1) && Live(w.bufs, p) && w.bufs[p].next != -1
    ensures Live(w.bufs, w.bufs[p].next) && w.bufs[p].next != p
    ensures var v, n := NextTotalled(w, p), w.bufs[p].next;
            && Sized(v) && Owned(v, -1) && v.path == w.path && |v.bufs| == |w.bufs| && v.bufs[p] == w.bufs[p] && Live(v.bufs, n)
            && (|w.bufs[p].data| <= w.bufs[p].totLen ==> v.bufs[n].totLen == w.bufs[p].totLen - |w.bufs[p].data|)
            && Dechained(w, p) == CutTo(v, [], p, |w.bufs[p].data|, 0)
  {
    NextTotalledKeeps(w, p);
    OwnedSized(w, -1);
    hide Owned, CutTo;
  }

  lemma CutToSize(w: World, p: nat)
    requires Owned(w, -1) && Live(w.bufs, p) && w.bufs[p].next != -1
    ensures |Dechained(w, p).bufs| == |w.bufs|
  {
    NextTotalledKeeps(w, p);
    var v, len := NextTotalled(w, p), |w.bufs[p].data|;
    OwnedSized(v, -1);
    CutLive(v, [], p, len, 0);
    hide Owned, Cut;
    CutToLengths(v, [], p, len, 0, p);
  }

  /** Dropping what was cut off changes no length. */
  lemma CutToLengths(w: World, front: seq<int>, q: nat, rem: nat, grow: int, x: nat)
    requires Owned(w, -1) && Live(w.bufs, q) && rem <= |w.bufs[q].data| && x < |w.bufs|
    ensures var c, t := Cut(w, front, q, rem, grow), CutTo(w, front, q, rem, grow);
            x < |c.bufs| == |t.bufs| && t.bufs[x].totLen == c.bufs[x].totLen
  {
    OwnedSized(w, -1);
    CutLive(w, front, q, rem, grow);
    hide Owned, Cut, FreePath, Survives;
    if w.bufs[q].next != -1 {
      CutFreeable(w, front, q, rem, grow);
      var c, n := Cut(w, front, q, rem, grow), w.bufs[q].next;
      FreeSurvives(c, n);
      SurvivesSizes(c, FreePath(c, c.path[n]));
      SurvivesAt(c, FreePath(c, c.path[n]), x);
    }
  }

  /** What follows the first buffer, before and after its total is worked out anew. */
  lemma RestContent(w: World, p: nat)
    requires Owned(w, -1) && Live(w.bufs, p) && w.bufs[p].next != -1
    ensures var v, n := NextTotalled(w, p), w.bufs[p].next;
            && Sized(w) && Sized(v) && Live(w.bufs, n) && n != p
            && Content(w, p) == w.bufs[p].data + Content(w, n) && Content(v, n) == Content(w, n)
  {
    PathFrom(w, -1, p);
    NextNotItself(w, p);
    var n := w.bufs[p].next;
    assert w.path[p][1..] == w.path[n] && w.path[p][0] == p;
    OwnedSized(w, -1);
    forall k | 0 <= k < |w.path[n]| ensures Octets(NextTotalled(w, p).bufs, w.path[n][k]) == Octets(w.bufs, w.path[n][k]) {}
    ConcatSame(NextTotalled(w, p).bufs, w.bufs, w.path[n]);
  }

  lemma NotBackTo(w: World, p: nat)
    requires Owned(w, -1) && Live(w.bufs, p) && w.bufs[p].next != -1
    ensures w.bufs[p].next < |w.path| && p !in w.path[w.bufs[p].next]
  {
    PathFrom(w, -1, p);
    PathFrom(w, -1, w.bufs[p].next);
    var n := w.bufs[p].next;
    assert w.path[p][1..] == w.path[n] && w.path[n][0] == n;
    NoWayBack(w, p, n);
  }

  /** With nothing in front, how much the totals there would grow does not matter. */
  lemma SameCut(w: World, q: nat, rem: nat, a: int, b: int)
    requires Owned(w, -1) && Live(w.bufs, q) && rem <= |w.bufs[q].data|
    ensures CutTo(w, [], q, rem, a) == CutTo(w, [], q, rem, b)
  {
    RaiseNone(w.bufs, a);
    RaiseNone(w.bufs, b);
    OwnedSized(w, -1);
    hide Owned, Raise, FreePath, Detach;
    assert Cut(w, [], q, rem, a) == Cut(w, [], q, rem, b);
  }

  // ----- pbuf_realloc -----

  /** Where a chain of n octets ends. */
  lemma ShrinkPlace(w: World, p: nat, n: nat)
    requires Owned(w, -1) && Live(w.bufs, p) && Sized(w) && n <= |Content(w, p)|
    ensures var (m, rem) := Place(w.bufs, w.path[p], n);
            && m < |w.path[p]| && 0 <= w.path[p][m] < |w.bufs| && Live(w.bufs, w.path[p][m])
            && rem <= |w.bufs[w.path[p][m]].data| && n == |Concat(w.bufs, w.path[p][..m])| + rem
  {
    PathFirst(w, -1, p);
    PlaceIs(w.bufs, w.path[p], n);
    Along(w, -1, p, Place(w.bufs, w.path[p], n).0);
  }

  /** The buffers of the chain hold as much as the new length asks for, as they do when the total is right. */
  ghost predicate MayShrink(w: World, p: nat, n: nat)
  {
    Owned(w, -1) && Live(w.bufs, p) && (n < w.bufs[p].totLen ==> n <= |Content(w, p)|)
  }

  /** pbuf_realloc: the chain shortened to n octets, and what it no longer needs dropped. */
  ghost function Reallocated(w: World, p: nat, n: nat): World
    requires MayShrink(w, p, n)
  {
    if n >= w.bufs[p].totLen then w
    else
      ShrinkPlace(w, p, n);
      var (m, rem) := Place(w.bufs, w.path[p], n);
      CutTo(w, w.path[p][..m], w.path[p][m], rem, n - w.bufs[p].totLen)
  }

  lemma ReallocKeeps(w: World, p: nat, n: nat)
    requires MayShrink(w, p, n)
    ensures Owned(Reallocated(w, p, n), -1)
  {
    hide Owned, Place, Concat, CutTo, Content, Reallocated;
    if n >= w.bufs[p].totLen {
      NotShrunk(w, p, n);
    } else {
      ReallocCuts(w, p, n);
      var (m, rem) := Place(w.bufs, w.path[p], n);
      CutToKeeps(w, w.path[p][..m], w.path[p][m], rem, n - w.bufs[p].totLen);
    }
  }

  lemma NotShrunk(w: World, p: nat, n: nat)
    requires MayShrink(w, p, n) && n >= w.bufs[p].totLen
    ensures Reallocated(w, p, n) == w
  {}

  /** Where the chain is cut. */
  lemma ReallocCuts(w: World, p: nat, n: nat)
    requires MayShrink(w, p, n) && n < w.bufs[p].totLen
    ensures Sized(w)
    ensures var (m, rem) := Place(w.bufs, w.path[p], n);
            && m < |w.path[p]| && Live(w.bufs, w.path[p][m]) && rem <= |w.bufs[w.path[p][m]].data|
            && Reallocated(w, p, n) == CutTo(w, w.path[p][..m], w.path[p][m], rem, n - w.bufs[p].totLen)
            && n == |Concat(w.bufs, w.path[p][..m])| + rem
  {
    hide Owned, Place, Concat, CutTo, Content;
    OwnedSized(w, -1);
    ShrinkPlace(w, p, n);
  }

  /** The octets up to a buffer of the chain and those from it on. */
  lemma ContentApart(w: World, p: nat, m: nat)
    requires Owned(w, -1) && Live(w.bufs, p) && Sized(w) && m < |w.path[p]|
    ensures Live(w.bufs, w.path[p][m]) && w.path[p][m] in w.path[p]
    ensures |Content(w, p)| == |Concat(w.bufs, w.path[p][..m])| + |Content(w, w.path[p][m])|
  {
    hide Concat;
    var q := w.path[p][m];
    Along(w, -1, p, m);
    hide Owned;
    assert w.path[p] == w.path[p][..m] + w.path[q];
    ConcatJoin(w.bufs, w.path[p][..m], w.path[q]);
  }

  lemma ReallocContent(w: World, p: nat, n: nat)
    requires MayShrink(w, p, n) && n < w.bufs[p].totLen
    ensures var t := Reallocated(w, p, n); Sized(w) && Sized(t) && p < |t.bufs| && Content(t, p) == Content(w, p)[..n]
  {
    hide Owned, Place, Concat, Cut, CutTo, Content, Reallocated;
    ReallocCuts(w, p, n);
    var (m, rem) := Place(w.bufs, w.path[p], n);
    var q, front, grow := w.path[p][m], w.path[p][..m], n - w.bufs[p].totLen;
    ContentApart(w, p, m);
    CutContent(w, front, q, rem, grow, p);
    CutToContent(w, front, q, rem, grow, p);
  }

  /** It leaves every total right exactly when no other chain joins this one from the side at or before its new end. */
  lemma ReallocTotals(w: World, p: nat, n: nat)
    requires Owned(w, -1) && Totals(w) && Live(w.bufs, p) && n < w.bufs[p].totLen
    ensures Sized(w) && MayShrink(w, p, n)
    ensures var t, m := Reallocated(w, p, n), Place(w.bufs, w.path[p], n).0;
            Sized(t) && m < |w.path[p]| && (Totals(t) <==> NoSideChain(w, w.path[p], w.path[p][m]))
  {
    hide Owned, Place, Concat, Content, CutTo, NoSideChain, Reallocated, Totals;
    OwnedSized(w, -1);
    TotalIs(w, p);
    ReallocCuts(w, p, n);
    var (m, rem) := Place(w.bufs, w.path[p], n);
    ContentApart(w, p, m);
    TotalIs(w, w.path[p][m]);
    CutToTotals(w, p, m, rem);
  }

  lemma TotalIs(w: World, q: nat)
    requires Sized(w) && Totals(w) && Live(w.bufs, q)
    ensures w.bufs[q].totLen == |Content(w, q)|
  {}

  // ----- pbuf_alloc for the pool -----

  /** The rest of a chain under construction: one buffer after another, or everything given back. */
  ghost function Grown(w: World, v: World, p: nat, rem: nat): World
    requires Building(w, v, p, rem) && rem < 0x1_0000
    decreases rem
  {
    if rem == 0 then v
    else if v.pool == [] then
      BuildFails(w, v, p, rem);
      FreePath(GiveUp(v, p), v.path[p])
    else
      var n := Least(rem, PBUF_POOL_BUFSIZE);
      BuildStep(w, v, p, Zeros(n), rem - n);
      Grown(w, Extend(v, Last(v.path[p]), Zeros(n), rem - n), p, rem - n)
  }

  /** It fails exactly when the pool has too few buffers, and then gives the pool back what it had; otherwise the chain
      has the octets asked for. */
  lemma {:induction false} GrownIs(w: World, v: World, p: nat, rem: nat)
    requires Building(w, v, p, rem) && rem < 0x1_0000
    ensures var t := Grown(w, v, p, rem);
            && Owned(t, -1)
            && (if |v.pool| < Further(rem) then Restored(w, t)
                else Sized(v) && Building(w, t, p, 0) && Sized(t) && p < |t.bufs| && |Content(t, p)| == |Content(v, p)| + rem)
    decreases rem
  {
    hide Owned, Building, Extend, FreePath, Content, Restored, Further, Grown;
    BuildingFacts(w, v, p, rem);
    if rem == 0 || v.pool == [] {
      GrownEnds(w, v, p, rem);
    } else {
      GrownStep(w, v, p, rem);
      var n := Least(rem, PBUF_POOL_BUFSIZE);
      FurtherStep(rem);
      GrownIs(w, Extend(v, Last(v.path[p]), Zeros(n), rem - n), p, rem - n);
    }
  }

  lemma GrownEnds(w: World, v: World, p: nat, rem: nat)
    requires Building(w, v, p, rem) && rem < 0x1_0000 && (rem == 0 || v.pool == [])
    ensures var t := Grown(w, v, p, rem);
            Owned(t, -1) && (if |v.pool| < Further(rem) then Restored(w, t) else rem == 0 && t == v)
  {
    hide Owned, Building, FreePath, Restored;
    BuildingFacts(w, v, p, rem);
    if rem > 0 { BuildFails(w, v, p, rem); }
  }

  lemma GrownStep(w: World, v: World, p: nat, rem: nat)
    requires Building(w, v, p, rem) && 0 < rem < 0x1_0000 && v.pool != []
    ensures Sized(v) && p < |v.bufs| && v.path[p] != [] && 0 <= Last(v.path[p]) < |v.bufs| && 0 <= v.pool[0] < |v.bufs|
    ensures var n := Least(rem, PBUF_POOL_BUFSIZE);
            var u := Extend(v, Last(v.path[p]), Zeros(n), rem - n);
            && Building(w, u, p, rem - n) && Grown(w, v, p, rem) == Grown(w, u, p, rem - n)
            && |u.pool| == |v.pool| - 1 && Sized(u) && p < |u.bufs| && u.path[p] == v.path[p] + [v.pool[0]] && |Content(u, p)| == |Content(v, p)| + n
  {
    hide Owned, Building, Extend, Content;
    BuildingFacts(w, v, p, rem);
    var n := Least(rem, PBUF_POOL_BUFSIZE);
    BuildStep(w, v, p, Zeros(n), rem - n);
    ExtendPool(v, Last(v.path[p]), Zeros(n), rem - n);
    BuildingFacts(w, Extend(v, Last(v.path[p]), Zeros(n), rem - n), p, rem - n);
  }

  lemma BuildingFacts(w: World, v: World, p: nat, rem: nat)
    requires Building(w, v, p, rem)
    ensures Owned(v, -1) && Sized(v) && p < |v.bufs| && v.path[p] != []
  {}

  lemma ExtendPool(v: World, r: nat, data: Piece16, rem: nat)
    requires Sized(v) && v.pool != [] && 0 <= v.pool[0] < |v.bufs| && r < |v.bufs| && |data| + rem < 0x1_0000
    ensures |Extend(v, r, data, rem).pool| == |v.pool| - 1
  {}

  /** pbuf_alloc for the pool, with the place of the chain or -1. */
  ghost function Allocated(w: World, length: U16, offset: nat): (World, int)
    requires Owned(w, -1) && offset <= PBUF_POOL_BUFSIZE
  {
    if w.pool == [] then (w, -1)
    else
      var n := Least(length, PBUF_POOL_BUFSIZE - offset);
      BuildStart(w, Zeros(n), length - n);
      (Grown(w, Pop(w, Zeros(n), length), w.pool[0], length - n), if |w.pool| < Needed(length, offset) then -1 else w.pool[0])
  }

  lemma AllocIs(w: World, length: U16, offset: nat)
    requires Owned(w, -1) && offset <= PBUF_POOL_BUFSIZE
    ensures var (t, p) := Allocated(w, length, offset);
            && Owned(t, -1) && (p == -1 <==> |w.pool| < Needed(length, offset))
            && (if p == -1 then Restored(w, t)
                else 0 <= p && Building(w, t, p, 0) && Sized(t) && p < |t.bufs| && |Content(t, p)| == length)
  {
    OwnedSized(w, -1);
    if w.pool == [] {
      NothingTaken(w);
    } else {
      var n := Least(length, PBUF_POOL_BUFSIZE - offset);
      FurtherStep(1);
      BuildStart(w, Zeros(n), length - n);
      hide Owned, Building, Pop, Grown, Content, Restored;
      GrownIs(w, Pop(w, Zeros(n), length), w.pool[0], length - n);
    }
  }

  lemma NothingTaken(w: World)
    requires Sized(w)
    ensures Restored(w, w)
  {}

  lemma AllocTotals(w: World, length: U16, offset: nat)
    requires Owned(w, -1) && Totals(w) && offset <= PBUF_POOL_BUFSIZE
    ensures Sized(Allocated(w, length, offset).0) && Totals(Allocated(w, length, offset).0)
  {
    AllocIs(w, length, offset);
    var (t, p) := Allocated(w, length, offset);
    hide Owned, Building, Restored, Totals, Allocated;
    OwnedSized(t, -1);
    if p == -1 { RestoredTotals(w, t); } else { BuildDone(w, t, p); }
  }
}
