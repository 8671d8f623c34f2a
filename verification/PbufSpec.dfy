/** Packet buffers: chains that may share their tails, reference counts, and the pool. A buffer is known by its place in
    `bufs`; -1 is the null pointer. */
module PbufSpec {
  import opened Words

  const PBUF_POOL_BUFSIZE := 128

  datatype Kind = Pool | Ram | Rom

  /** What a buffer of 16-bit length can hold. */
  type Piece16 = s: seq<Byte> | |s| < 0x1_0000

  datatype Buf = Buf(kind: Kind, live: bool, next: int, data: Piece16, totLen: U16, ref: U16)

  /** `outside`: references held by callers. `path`: the chain from each buffer on. */
  datatype World = World(bufs: seq<Buf>, pool: seq<int>, outside: seq<nat>, path: seq<seq<int>>)

  // ----- links -----

  function Points(b: Buf, i: int): nat { if b.live && b.next == i then 1 else 0 }

  /** Live buffers whose next pointer leads to i. */
  function Links(bufs: seq<Buf>, i: int): nat
  {
    if bufs == [] then 0 else Links(bufs[..|bufs| - 1], i) + Points(bufs[|bufs| - 1], i)
  }

  lemma {:induction false} LinksUpdate(bufs: seq<Buf>, k: nat, b: Buf, i: int)
    requires k < |bufs|
    ensures Links(bufs[k := b], i) == Links(bufs, i) - Points(bufs[k], i) + Points(b, i)
    decreases |bufs|
  {
    var n := |bufs| - 1;
    var t := bufs[k := b];
    if k < n {
      assert t[..n] == bufs[..n][k := b] && t[n] == bufs[n];
      LinksUpdate(bufs[..n], k, b, i);
    } else {
      assert t[..n] == bufs[..n];
    }
  }

  lemma {:induction false} LinksAtLeast(bufs: seq<Buf>, k: nat, i: int)
    requires k < |bufs|
    ensures Links(bufs, i) >= Points(bufs[k], i)
    decreases |bufs|
  {
    var n := |bufs| - 1;
    if k < n {
      LinksAtLeast(bufs[..n], k, i);
      assert bufs[..n][k] == bufs[k];
    }
  }

  // ----- the invariant -----

  predicate Live(bufs: seq<Buf>, i: int) { 0 <= i < |bufs| && bufs[i].live }

  /** The chain from i on. */
  ghost predicate PathOk(w: World, i: nat)
    requires i < |w.bufs| == |w.path|
  {
    var n := w.bufs[i].next;
    if n == -1 then w.path[i] == [i] else Live(w.bufs, n) && w.path[i] == [i] + w.path[n]
  }

  function Due(i: int, pending: int): nat { if i == pending then 1 else 0 }

  /** A live buffer's count is the links and outside references to it, plus one about to be dropped; nothing refers
      to a dead buffer. */
  ghost predicate CountOk(w: World, i: nat, pending: int)
    requires i < |w.bufs| == |w.outside|
  {
    if w.bufs[i].live then
      w.bufs[i].ref == Links(w.bufs, i) + w.outside[i] + Due(i, pending) && w.bufs[i].ref > 0
    else w.outside[i] == 0 && Links(w.bufs, i) == 0 && pending != i
  }

  /** Every pool buffer is either in the pool or live. */
  ghost predicate PoolOk(w: World)
  {
    && (forall i | 0 <= i < |w.bufs| :: i in w.pool <==> w.bufs[i].kind == Pool && !w.bufs[i].live)
    && (forall k | 0 <= k < |w.pool| :: 0 <= w.pool[k] < |w.bufs|)
    && (forall j, k | 0 <= j < k < |w.pool| :: w.pool[j] != w.pool[k])
  }

  ghost predicate Sized(w: World) { |w.outside| == |w.path| == |w.bufs| }

  /** Ownership is in order, but for one reference to `pending` that is about to be dropped. */
  ghost predicate Owned(w: World, pending: int)
  {
    && Sized(w) && PoolOk(w) && (pending == -1 || Live(w.bufs, pending))
    && (forall i | 0 <= i < |w.bufs| && w.bufs[i].live :: PathOk(w, i))
    && (forall i | 0 <= i < |w.bufs| :: CountOk(w, i, pending))
  }

  function Octets(bufs: seq<Buf>, i: int): seq<Byte> { if 0 <= i < |bufs| then bufs[i].data else [] }

  function Concat(bufs: seq<Buf>, p: seq<int>): seq<Byte>
  {
    if p == [] then [] else Octets(bufs, p[0]) + Concat(bufs, p[1..])
  }

  /** The octets of the chain from i on. */
  ghost function Content(w: World, i: int): seq<Byte>
    requires Sized(w) && 0 <= i < |w.bufs|
  {
    Concat(w.bufs, w.path[i])
  }

  ghost predicate Totals(w: World)
    requires Sized(w)
  {
    forall i | 0 <= i < |w.bufs| && w.bufs[i].live :: w.bufs[i].totLen == |Content(w, i)|
  }

  lemma {:induction false} ConcatJoin(bufs: seq<Buf>, a: seq<int>, b: seq<int>)
    ensures Concat(bufs, a + b) == Concat(bufs, a) + Concat(bufs, b)
    decreases |a|
  {
    if a == [] {
      assert a + b == b;
    } else {
      assert (a + b)[1..] == a[1..] + b;
      ConcatJoin(bufs, a[1..], b);
    }
  }

  /** Only the octets matter. */
  lemma {:induction false} ConcatSame(a: seq<Buf>, b: seq<Buf>, p: seq<int>)
    requires forall k | 0 <= k < |p| :: Octets(a, p[k]) == Octets(b, p[k])
    ensures Concat(a, p) == Concat(b, p)
    decreases |p|
  {
    if p != [] {
      assert p[0] in p;
      forall k | 0 <= k < |p[1..]| ensures Octets(a, p[1..][k]) == Octets(b, p[1..][k]) { assert p[1..][k] == p[k + 1]; }
      ConcatSame(a, b, p[1..]);
    }
  }

  /** Places along a chain: each is live, the rest of the chain is its own chain, and only the last has no next. */
  lemma {:induction false} Along(w: World, pending: int, i: nat, k: nat)
    requires Owned(w, pending) && Live(w.bufs, i) && k < |w.path[i]|
    ensures var x := w.path[i][k];
            && Live(w.bufs, x) && w.path[i][k..] == w.path[x]
            && (w.bufs[x].next == -1 <==> k == |w.path[i]| - 1)
            && (k + 1 < |w.path[i]| ==> w.path[i][k + 1] == w.bufs[x].next)
    decreases k
  {
    PathFrom(w, pending, i);
    hide Owned;
    if k > 0 {
      var n := w.bufs[i].next;
      Along(w, pending, n, k - 1);
      assert w.path[i][k..] == w.path[n][k - 1..];
    } else {
      assert w.path[i][0..] == w.path[i];
    }
  }

  /** A chain is its first buffer and the chain of the next one. */
  lemma PathFrom(w: World, pending: int, i: nat)
    requires Owned(w, pending) && Live(w.bufs, i)
    ensures Sized(w)
    ensures var n := w.bufs[i].next;
            if n == -1 then w.path[i] == [i]
            else Live(w.bufs, n) && w.path[i] == [i] + w.path[n] && w.path[n] != [] && w.path[n][0] == n
  {
    assert PathOk(w, i);
    var n := w.bufs[i].next;
    if n != -1 { assert PathOk(w, n); }
  }

  /** No buffer comes twice in a chain. */
  lemma NoRepeat(w: World, pending: int, i: nat, j: nat, k: nat)
    requires Owned(w, pending) && Live(w.bufs, i) && j < k < |w.path[i]|
    ensures w.path[i][j] != w.path[i][k]
  {
    Along(w, pending, i, j);
    Along(w, pending, i, k);
  }

  // ----- dropping a reference -----

  function Decrement(w: World, i: nat): World
    requires i < |w.bufs|
  {
    w.(bufs := w.bufs[i := w.bufs[i].(ref := Wrap16(w.bufs[i].ref - 1))])
  }

  /** A buffer whose count has come to zero; one from the pool goes back to it. */
  function Release(w: World, i: nat): World
    requires i < |w.bufs|
  {
    w.(bufs := w.bufs[i := w.bufs[i].(live := false, ref := 0)], pool := if w.bufs[i].kind == Pool then [i] + w.pool else w.pool)
  }

  /** Another count on one buffer: links, chains and the pool are as before. */
  lemma Recounted(w: World, pending: int, i: nat, r: U16, outside: seq<nat>)
    requires Owned(w, pending) && i < |w.bufs| && |outside| == |w.outside|
    ensures var t := w.(bufs := w.bufs[i := w.bufs[i].(ref := r)], outside := outside);
            && Sized(t) && PoolOk(t) && (forall j: nat | j < |t.bufs| && t.bufs[j].live :: PathOk(t, j))
            && forall j :: Links(t.bufs, j) == Links(w.bufs, j)
  {
    var t := w.(bufs := w.bufs[i := w.bufs[i].(ref := r)], outside := outside);
    forall j ensures Links(t.bufs, j) == Links(w.bufs, j) { LinksUpdate(w.bufs, i, t.bufs[i], j); }
    hide Links;
    forall j: nat | j < |t.bufs| && t.bufs[j].live ensures PathOk(t, j) { assert PathOk(w, j); }
  }

  lemma DecrementKeeps(w: World, i: nat)
    requires Owned(w, i) && w.bufs[i].ref > 1
    ensures Owned(Decrement(w, i), -1)
  {
    var t := Decrement(w, i);
    Recounted(w, i, i, w.bufs[i].ref - 1, w.outside);
    hide Links, PathOk, PoolOk;
    forall j: nat | j < |t.bufs| ensures CountOk(t, j, -1) { assert CountOk(w, j, i); }
  }

  /** Releasing a buffer drops the reference it held to the next one. */
  lemma ReleaseKeeps(w: World, i: nat)
    requires Owned(w, i) && w.bufs[i].ref == 1
    ensures Owned(Release(w, i), w.bufs[i].next)
  {
    var t := Release(w, i);
    var n := w.bufs[i].next;
    assert PathOk(w, i) && CountOk(w, i, i);
    forall j: nat | j < |t.bufs| ensures CountOk(t, j, n) && (t.bufs[j].live ==> PathOk(t, j)) {
      LinksUpdate(w.bufs, i, t.bufs[i], j);
      LinksAtLeast(w.bufs, j, i);
      assert CountOk(w, j, i) && (w.bufs[j].live ==> PathOk(w, j));
    }
    ReleasedPool(w, i);
    NextNotSelf(w, i);
  }

  lemma NextNotSelf(w: World, i: nat)
    requires Owned(w, i)
    ensures w.bufs[i].next != i
  {
    assert PathOk(w, i);
  }

  lemma ReleasedPool(w: World, i: nat)
    requires PoolOk(w) && Live(w.bufs, i)
    ensures PoolOk(Release(w, i))
  {}

  /** pbuf_free along a chain. */
  function FreePath(w: World, p: seq<int>): World
    requires InRange(w.bufs, p)
    decreases |p|
  {
    if p == [] then w
    else if w.bufs[p[0]].ref != 1 then Decrement(w, p[0])
    else FreePath(Release(w, p[0]), p[1..])
  }

  /** How many at the front of a chain have a count of one. */
  function Ones(bufs: seq<Buf>, p: seq<int>): (n: nat)
    requires forall k | 0 <= k < |p| :: 0 <= p[k] < |bufs|
    ensures n <= |p| && (forall k | 0 <= k < n :: bufs[p[k]].ref == 1) && (n < |p| ==> bufs[p[n]].ref != 1)
    decreases |p|
  {
    if p == [] || bufs[p[0]].ref != 1 then 0 else 1 + Ones(bufs, p[1..])
  }

  ghost predicate InRange(bufs: seq<Buf>, p: seq<int>) { forall k | 0 <= k < |p| :: 0 <= p[k] < |bufs| }

  lemma PathInRange(w: World, pending: int, i: nat)
    requires Owned(w, pending) && Live(w.bufs, i)
    ensures InRange(w.bufs, w.path[i])
  {
    forall k | 0 <= k < |w.path[i]| ensures 0 <= w.path[i][k] < |w.bufs| { Along(w, pending, i, k); }
  }

  /** pbuf_free leaves ownership in order. */
  lemma {:induction false} FreeKeeps(w: World, i: nat)
    requires Owned(w, i) && Live(w.bufs, i)
    ensures InRange(w.bufs, w.path[i]) && Owned(FreePath(w, w.path[i]), -1)
    decreases |w.path[i]|
  {
    PathInRange(w, i, i);
    assert PathOk(w, i) && CountOk(w, i, i);
    hide Owned;
    if w.bufs[i].ref > 1 {
      DecrementKeeps(w, i);
    } else {
      ReleaseKeeps(w, i);
      var n := w.bufs[i].next;
      if n != -1 {
        assert w.path[i][1..] == w.path[n];
        FreeKeeps(Release(w, i), n);
      } else {
        assert w.path[i][1..] == [];
      }
    }
  }

  /** The pool buffers among some that are freed in turn. */
  function Returned(bufs: seq<Buf>, p: seq<int>): seq<int>
    requires forall k | 0 <= k < |p| :: 0 <= p[k] < |bufs|
    decreases |p|
  {
    if p == [] then [] else Returned(bufs, p[1..]) + (if bufs[p[0]].kind == Pool then [p[0]] else [])
  }

  lemma {:induction false} ReturnedSame(a: seq<Buf>, b: seq<Buf>, p: seq<int>)
    requires InRange(a, p) && |a| == |b| && forall k | 0 <= k < |p| :: a[p[k]].kind == b[p[k]].kind
    ensures Returned(a, p) == Returned(b, p)
    decreases |p|
  {
    if p != [] {
      forall k | 0 <= k < |p[1..]| ensures 0 <= p[1..][k] < |a| && a[p[1..][k]].kind == b[p[1..][k]].kind { assert p[1..][k] == p[k + 1]; }
      ReturnedSame(a, b, p[1..]);
    }
  }

  ghost predicate Distinct(p: seq<int>) { forall j, k | 0 <= j < k < |p| :: p[j] != p[k] }

  /** What a buffer looks like after pbuf_free along p: the first ones are dead, the next one has lost a reference. */
  function Freed(bufs: seq<Buf>, p: seq<int>, n: nat, x: nat): Buf
    requires n <= |p| && x < |bufs|
  {
    if x in p[..n] then bufs[x].(live := false, ref := 0)
    else if n < |p| && x == p[n] then bufs[x].(ref := Wrap16(bufs[x].ref - 1))
    else bufs[x]
  }

  /** One buffer released: the rest of the chain is then freed in the same way. */
  lemma FreeStep(w: World, p: seq<int>)
    requires InRange(w.bufs, p) && Distinct(p) && p != [] && w.bufs[p[0]].ref == 1
    ensures var u := Release(w, p[0]);
            && InRange(u.bufs, p[1..]) && Distinct(p[1..]) && p[0] !in p[1..]
            && FreePath(w, p) == FreePath(u, p[1..]) && Ones(w.bufs, p) == 1 + Ones(u.bufs, p[1..])
  {
    var rest, u := p[1..], Release(w, p[0]);
    assert forall k | 0 <= k < |rest| :: rest[k] == p[k + 1];
    OnesSame(w.bufs, u.bufs, rest);
  }

  /** pbuf_free releases exactly the longest run of buffers at the front of the chain whose count is one, takes one
      reference from the buffer after them, and touches no other. */
  lemma {:induction false} FreeReleases(w: World, p: seq<int>)
    requires InRange(w.bufs, p) && Distinct(p)
    ensures var n := Ones(w.bufs, p);
            var t := FreePath(w, p);
            && t.outside == w.outside && t.path == w.path && |t.bufs| == |w.bufs|
            && forall x: nat | x < |w.bufs| :: t.bufs[x] == Freed(w.bufs, p, n, x)
    decreases |p|
  {
    if p == [] {
    } else if w.bufs[p[0]].ref != 1 {
    } else {
      var u := Release(w, p[0]);
      var n := Ones(w.bufs, p);
      FreeStep(w, p);
      hide FreePath, Ones, InRange, Freed, Distinct;
      FreeReleases(u, p[1..]);
      forall x: nat | x < |w.bufs| ensures Freed(u.bufs, p[1..], n - 1, x) == Freed(w.bufs, p, n, x) {
        FreedStep(w.bufs, u.bufs, p, n, x);
      }
    }
  }

  /** The pool gets those that came from it, the last one freed first. */
  lemma {:induction false} FreeReturns(w: World, p: seq<int>)
    requires InRange(w.bufs, p) && Distinct(p)
    ensures InRange(w.bufs, p[..Ones(w.bufs, p)])
    ensures FreePath(w, p).pool == Returned(w.bufs, p[..Ones(w.bufs, p)]) + w.pool
    decreases |p|
  {
    if p == [] {
    } else if w.bufs[p[0]].ref != 1 {
    } else {
      var u := Release(w, p[0]);
      var n := Ones(w.bufs, p);
      FreeStep(w, p);
      hide *;
      FreeReturns(u, p[1..]);
      ReturnsStep(w, p, n, FreePath(w, p).pool);
    }
  }

  lemma ReturnsStep(w: World, p: seq<int>, n: nat, pool: seq<int>)
    requires InRange(w.bufs, p) && 0 < n <= |p|
    requires var u := Release(w, p[0]);
             && InRange(u.bufs, p[1..][..n - 1]) && pool == Returned(u.bufs, p[1..][..n - 1]) + u.pool
    ensures InRange(w.bufs, p[..n]) && pool == Returned(w.bufs, p[..n]) + w.pool
  {
    assert p[..n][1..] == p[1..][..n - 1] && p[..n][0] == p[0];
    assert forall k | 0 <= k < n :: p[..n][k] == p[k];
    ReturnedStep(w.bufs, Release(w, p[0]).bufs, p[..n]);
    hide Returned;
  }

  lemma ReturnedStep(a: seq<Buf>, b: seq<Buf>, p: seq<int>)
    requires InRange(a, p) && p != [] && b == a[p[0] := a[p[0]].(live := false, ref := 0)]
    ensures InRange(b, p[1..])
    ensures Returned(a, p) == Returned(b, p[1..]) + (if a[p[0]].kind == Pool then [p[0]] else [])
  {
    ReturnedFirst(a, p);
    ReturnedSame(a, b, p[1..]);
  }

  lemma ReturnedFirst(a: seq<Buf>, p: seq<int>)
    requires InRange(a, p) && p != []
    ensures InRange(a, p[1..])
    ensures Returned(a, p) == Returned(a, p[1..]) + (if a[p[0]].kind == Pool then [p[0]] else [])
  {}

  lemma FreedStep(a: seq<Buf>, b: seq<Buf>, p: seq<int>, n: nat, x: nat)
    requires 0 < n <= |p| && Distinct(p) && x < |a| && 0 <= p[0] < |a| && b == a[p[0] := a[p[0]].(live := false, ref := 0)]
    ensures Freed(b, p[1..], n - 1, x) == Freed(a, p, n, x)
  {
    assert p[..n] == [p[0]] + p[1..][..n - 1];
    if x == p[0] {
      assert p[0] !in p[1..];
    }
  }

  lemma {:induction false} OnesSame(a: seq<Buf>, b: seq<Buf>, p: seq<int>)
    requires InRange(a, p) && |a| == |b| && forall k | 0 <= k < |p| :: a[p[k]] == b[p[k]]
    ensures Ones(a, p) == Ones(b, p)
    decreases |p|
  {
    if p != [] {
      forall k | 0 <= k < |p[1..]| ensures 0 <= p[1..][k] < |a| && a[p[1..][k]] == b[p[1..][k]] { assert p[1..][k] == p[k + 1]; }
      OnesSame(a, b, p[1..]);
    }
  }

  lemma PathDistinct(w: World, pending: int, i: nat)
    requires Owned(w, pending) && Live(w.bufs, i)
    ensures Distinct(w.path[i])
  {
    forall j, k | 0 <= j < k < |w.path[i]| ensures w.path[i][j] != w.path[i][k] { NoRepeat(w, pending, i, j, k); }
  }

  /** The second state differs from the first only in counts and in what has died. */
  ghost predicate Survives(w: World, t: World)
  {
    && Sized(w) && Sized(t) && t.path == w.path && |t.bufs| == |w.bufs|
    && forall x: nat | x < |w.bufs| :: t.bufs[x].data == w.bufs[x].data && t.bufs[x].totLen == w.bufs[x].totLen
                                       && t.bufs[x].next == w.bufs[x].next && (t.bufs[x].live ==> w.bufs[x].live)
  }

  lemma SurvivesContent(w: World, t: World, x: nat)
    requires Survives(w, t) && x < |w.bufs|
    ensures Content(t, x) == Content(w, x)
  {
    ConcatSame(t.bufs, w.bufs, w.path[x]);
  }

  lemma SurvivesTotals(w: World, t: World)
    requires Survives(w, t) && Totals(w)
    ensures Totals(t)
  {
    hide Survives;
    assert Sized(w) && Sized(t) && |t.bufs| == |w.bufs| by { SurvivesSizes(w, t); }
    forall x: nat | x < |t.bufs| && t.bufs[x].live ensures t.bufs[x].totLen == |Content(t, x)| {
      SurvivesContent(w, t, x);
      SurvivesAt(w, t, x);
    }
  }

  lemma SurvivesSizes(w: World, t: World)
    requires Survives(w, t)
    ensures Sized(w) && Sized(t) && |t.bufs| == |w.bufs|
  {}

  lemma SurvivesAt(w: World, t: World, x: nat)
    requires Survives(w, t) && x < |w.bufs|
    ensures t.bufs[x].totLen == w.bufs[x].totLen && (t.bufs[x].live ==> w.bufs[x].live)
  {}

  /** What pbuf_free leaves of every buffer, and that it touches no buffer outside the chain. */
  lemma FreeSurvives(w: World, i: nat)
    requires Owned(w, i) && Live(w.bufs, i)
    ensures InRange(w.bufs, w.path[i])
    ensures var t := FreePath(w, w.path[i]);
            Survives(w, t) && forall x: nat | x < |w.bufs| && x !in w.path[i] :: t.bufs[x] == w.bufs[x]
  {
    PathInRange(w, i, i);
    PathDistinct(w, i, i);
    FreeReleases(w, w.path[i]);
    var t := FreePath(w, w.path[i]);
    assert Sized(w);
    hide *;
    FreedSurvives(w, t, w.path[i], Ones(w.bufs, w.path[i]));
    forall x: nat | x < |w.bufs| && x !in w.path[i] ensures t.bufs[x] == w.bufs[x] { FreedOff(w.bufs, w.path[i], Ones(w.bufs, w.path[i]), x); }
  }

  lemma FreedOff(bufs: seq<Buf>, p: seq<int>, n: nat, x: nat)
    requires n <= |p| && x < |bufs| && x !in p
    ensures Freed(bufs, p, n, x) == bufs[x]
  {}

  /** Every buffer that stays alive after pbuf_free keeps its contents and its totals. */
  lemma FreeTotals(w: World, i: nat)
    requires Owned(w, i) && Live(w.bufs, i) && Totals(w)
    ensures InRange(w.bufs, w.path[i])
    ensures var t := FreePath(w, w.path[i]);
            Survives(w, t) && Totals(t)
  {
    FreeSurvives(w, i);
    SurvivesTotals(w, FreePath(w, w.path[i]));
  }

  lemma FreedSurvives(w: World, t: World, p: seq<int>, n: nat)
    requires Sized(w) && t.outside == w.outside && t.path == w.path && |t.bufs| == |w.bufs| && n <= |p|
    requires forall x: nat | x < |w.bufs| :: t.bufs[x] == Freed(w.bufs, p, n, x)
    ensures Survives(w, t)
  {}

  // ----- linking and unlinking -----

  /** The last buffer of one chain made to point at the first of another, taking over a reference to it. */
  function Attach(w: World, r: nat, t: nat): World
    requires r < |w.bufs| && t < |w.outside| == |w.path| && w.outside[t] > 0
  {
    w.(bufs := w.bufs[r := w.bufs[r].(next := t)], outside := w.outside[t := w.outside[t] - 1], path := Joined(w.path, r, t))
  }

  /** Every chain that came to r goes on with t's. */
  function Joined(path: seq<seq<int>>, r: nat, t: nat): seq<seq<int>>
    requires t < |path|
  {
    seq(|path|, g requires 0 <= g < |path| => if r in path[g] then path[g] + path[t] else path[g])
  }

  lemma AttachKeeps(w: World, r: nat, t: nat)
    requires Owned(w, -1) && Live(w.bufs, r) && Live(w.bufs, t) && w.bufs[r].next == -1 && r !in w.path[t] && w.outside[t] > 0
    ensures Owned(Attach(w, r, t), -1)
  {
    var u := Attach(w, r, t);
    AttachCounts(w, r, t);
    AttachPaths(w, r, t);
    assert PoolOk(u);
  }

  lemma AttachCounts(w: World, r: nat, t: nat)
    requires Owned(w, -1) && Live(w.bufs, r) && Live(w.bufs, t) && w.bufs[r].next == -1 && w.outside[t] > 0
    ensures var u := Attach(w, r, t);
            forall j: nat | j < |w.bufs| :: CountOk(u, j, -1)
  {
    var u := Attach(w, r, t);
    forall j: nat | j < |u.bufs| ensures CountOk(u, j, -1) {
      LinksUpdate(w.bufs, r, u.bufs[r], j);
      assert CountOk(w, j, -1);
    }
  }

  lemma AttachPaths(w: World, r: nat, t: nat)
    requires Owned(w, -1) && Live(w.bufs, r) && Live(w.bufs, t) && w.bufs[r].next == -1 && r !in w.path[t] && w.outside[t] > 0
    ensures var u := Attach(w, r, t);
            forall j: nat | j < |w.bufs| && u.bufs[j].live :: PathOk(u, j)
  {
    forall j: nat | j < |w.bufs| && Attach(w, r, t).bufs[j].live ensures PathOk(Attach(w, r, t), j) { AttachPath(w, r, t, j); }
  }

  lemma AttachPath(w: World, r: nat, t: nat, j: nat)
    requires Owned(w, -1) && Live(w.bufs, r) && Live(w.bufs, t) && w.bufs[r].next == -1 && r !in w.path[t] && w.outside[t] > 0
    requires Live(w.bufs, j)
    ensures j < |Attach(w, r, t).bufs| == |w.path| && PathOk(Attach(w, r, t), j)
  {
    PathFrom(w, -1, r);
    PathFrom(w, -1, t);
    PathFrom(w, -1, j);
    hide Owned;
    var n := w.bufs[j].next;
    if j != r && n != -1 { JoinStep(j, w.path[n], r, w.path[t]); }
  }

  lemma JoinStep(j: int, p: seq<int>, r: int, tail: seq<int>)
    requires j != r
    ensures r in [j] + p <==> r in p
    ensures ([j] + p) + tail == [j] + (p + tail)
  {}

  /** Every chain that led to r goes on with the contents of t. */
  lemma AttachContent(w: World, r: nat, t: nat, g: nat)
    requires Sized(w) && r < |w.bufs| && t < |w.bufs| && w.outside[t] > 0 && g < |w.bufs|
    ensures Sized(Attach(w, r, t))
    ensures Content(Attach(w, r, t), g) == Content(w, g) + if r in w.path[g] then Content(w, t) else []
  {
    var u := Attach(w, r, t);
    forall k | 0 <= k < |u.path[g]| ensures Octets(u.bufs, u.path[g][k]) == Octets(w.bufs, u.path[g][k]) {}
    ConcatSame(u.bufs, w.bufs, u.path[g]);
    ConcatJoin(w.bufs, w.path[g], w.path[t]);
  }

  /** Some totals raised by n. */
  function Raise(bufs: seq<Buf>, p: seq<int>, n: int): (r: seq<Buf>)
    ensures |r| == |bufs|
  {
    seq(|bufs|, x requires 0 <= x < |bufs| => if x in p then bufs[x].(totLen := Wrap16(bufs[x].totLen + n)) else bufs[x])
  }

  lemma {:induction false} LinksSame(a: seq<Buf>, b: seq<Buf>, i: int)
    requires |a| == |b| && forall k | 0 <= k < |a| :: Points(a[k], i) == Points(b[k], i)
    ensures Links(a, i) == Links(b, i)
    decreases |a|
  {
    if a != [] {
      var n := |a| - 1;
      LinksSame(a[..n], b[..n], i);
    }
  }

  /** Totals do not matter to ownership. */
  lemma RaiseKeeps(w: World, pending: int, p: seq<int>, n: int)
    requires Owned(w, pending)
    ensures Owned(w.(bufs := Raise(w.bufs, p, n)), pending)
  {
    var t := w.(bufs := Raise(w.bufs, p, n));
    RaiseAt(w.bufs, p, n);
    hide Raise, Wrap16;
    forall j ensures Links(t.bufs, j) == Links(w.bufs, j) { LinksSame(w.bufs, t.bufs, j); }
    hide Links;
    forall j: nat | j < |t.bufs| ensures CountOk(t, j, pending) && (t.bufs[j].live ==> PathOk(t, j)) {
      assert CountOk(w, j, pending) && (w.bufs[j].live ==> PathOk(w, j));
    }
  }

  function Last(p: seq<int>): int
    requires p != []
  {
    p[|p| - 1]
  }

  /** pbuf_cat: the totals along the first chain grow by that of the second, which is linked in at the end. */
  function Cat(w: World, h: nat, t: nat): World
    requires h < |w.bufs| == |w.path| == |w.outside| && t < |w.bufs| && w.outside[t] > 0 && w.path[h] != []
    requires 0 <= Last(w.path[h]) < |w.bufs|
  {
    Attach(w.(bufs := Raise(w.bufs, w.path[h], w.bufs[t].totLen)), Last(w.path[h]), t)
  }

  /** What a caller of pbuf_cat must bring: two live chains that do not end in each other, and a reference to give up. */
  ghost predicate MayCat(w: World, h: nat, t: nat)
  {
    && Owned(w, -1) && Live(w.bufs, h) && Live(w.bufs, t) && w.path[h] != [] && w.outside[t] > 0
    && 0 <= Last(w.path[h]) < |w.bufs| && Last(w.path[h]) !in w.path[t]
  }

  lemma CatKeeps(w: World, h: nat, t: nat)
    requires MayCat(w, h, t)
    ensures Owned(Cat(w, h, t), -1)
  {
    var v := w.(bufs := Raise(w.bufs, w.path[h], w.bufs[t].totLen));
    var r := Last(w.path[h]);
    Along(w, -1, h, |w.path[h]| - 1);
    RaiseKeeps(w, -1, w.path[h], w.bufs[t].totLen);
    hide Owned, Raise;
    assert Live(v.bufs, r) && Live(v.bufs, t) && v.bufs[r].next == -1 by { RaiseAt(w.bufs, w.path[h], w.bufs[t].totLen); }
    AttachKeeps(v, r, t);
  }

  lemma RaiseAt(bufs: seq<Buf>, p: seq<int>, n: int)
    ensures forall x | 0 <= x < |bufs| :: Raise(bufs, p, n)[x] == if x in p then bufs[x].(totLen := Wrap16(bufs[x].totLen + n)) else bufs[x]
  {}

  lemma CatContent(w: World, h: nat, t: nat, g: nat)
    requires MayCat(w, h, t) && g < |w.bufs|
    ensures Sized(Cat(w, h, t))
    ensures Content(Cat(w, h, t), g) == Content(w, g) + if Last(w.path[h]) in w.path[g] then Content(w, t) else []
  {
    var v := w.(bufs := Raise(w.bufs, w.path[h], w.bufs[t].totLen));
    AttachContent(v, Last(w.path[h]), t, g);
    forall x | 0 <= x < |w.bufs| ensures Octets(v.bufs, x) == Octets(w.bufs, x) {}
    ConcatSame(v.bufs, w.bufs, w.path[g]);
    ConcatSame(v.bufs, w.bufs, w.path[t]);
  }

  lemma CatTotalAt(w: World, h: nat, t: nat, g: nat)
    requires MayCat(w, h, t) && Totals(w) && Live(w.bufs, g)
    ensures var u := Cat(w, h, t);
            && Sized(u) && Live(u.bufs, g)
            && (u.bufs[g].totLen == |Content(u, g)|
                <==> w.bufs[t].totLen == 0
                     || (if g in w.path[h] then Last(w.path[h]) in w.path[g] && w.bufs[g].totLen + w.bufs[t].totLen < 0x1_0000
                         else Last(w.path[h]) !in w.path[g]))
  {
    assert w.bufs[t].totLen == |Content(w, t)| && w.bufs[g].totLen == |Content(w, g)|;
    CatLive(w, h, t);
    CatTotLen(w, h, t, g);
    hide Content, Owned, Totals, Cat;
    CatContent(w, h, t, g);
    Raised16(w.bufs[g].totLen, w.bufs[t].totLen);
  }

  lemma Raised16(a: U16, b: U16)
    ensures Wrap16(a + b) == a + b <==> a + b < 0x1_0000
    ensures Wrap16(a + b) == a <==> b == 0
  {}

  lemma CatLive(w: World, h: nat, t: nat)
    requires MayCat(w, h, t)
    ensures var u := Cat(w, h, t);
            |u.bufs| == |w.bufs| && forall g | 0 <= g < |w.bufs| :: u.bufs[g].live == w.bufs[g].live
  {
    RaiseAt(w.bufs, w.path[h], w.bufs[t].totLen);
  }

  lemma CatTotLen(w: World, h: nat, t: nat, g: nat)
    requires MayCat(w, h, t) && g < |w.bufs|
    ensures |Cat(w, h, t).bufs| == |w.bufs|
    ensures Cat(w, h, t).bufs[g].totLen == if g in w.path[h] then Wrap16(w.bufs[g].totLen + w.bufs[t].totLen) else w.bufs[g].totLen
  {
    hide Owned, Wrap16, Raise, Attach;
    OwnedSized(w, -1);
    RaiseAt(w.bufs, w.path[h], w.bufs[t].totLen);
    AttachTotLen(w.(bufs := Raise(w.bufs, w.path[h], w.bufs[t].totLen)), Last(w.path[h]), t, g);
  }

  lemma AttachTotLen(w: World, r: nat, t: nat, g: nat)
    requires r < |w.bufs| && t < |w.outside| == |w.path| && w.outside[t] > 0 && g < |w.bufs|
    ensures |Attach(w, r, t).bufs| == |w.bufs| && Attach(w, r, t).bufs[g].totLen == w.bufs[g].totLen
  {}

  /** No chain but those that begin along p comes to the buffer r. */
  ghost predicate NoSideChain(w: World, p: seq<int>, r: int)
    requires |w.path| == |w.bufs|
  {
    forall g | 0 <= g < |w.bufs| && w.bufs[g].live && r in w.path[g] :: g in p
  }

  /** Further along a chain the totals are no larger. */
  lemma TotalsFall(w: World, h: nat, g: nat)
    requires Owned(w, -1) && Totals(w) && Live(w.bufs, h) && Live(w.bufs, g) && g in w.path[h]
    ensures w.bufs[g].totLen <= w.bufs[h].totLen
  {
    Suffix(w, -1, h, g);
    assert w.bufs[g].totLen == |Content(w, g)| && w.bufs[h].totLen == |Content(w, h)|;
    var p, q := w.path[h], w.path[g];
    hide Owned, Totals;
    assert p == p[..|p| - |q|] + q;
    ConcatJoin(w.bufs, p[..|p| - |q|], q);
  }

  /** pbuf_cat keeps every total right exactly when nothing is added, or no other chain joins the first one from the
      side and the sum fits 16 bits. */
  lemma CatTotals(w: World, h: nat, t: nat)
    requires MayCat(w, h, t) && Totals(w)
    ensures Sized(Cat(w, h, t))
    ensures Totals(Cat(w, h, t)) <==> CatFits(w, h, t)
  {
    var u := Cat(w, h, t);
    var r := Last(w.path[h]);
    CatLive(w, h, t);
    CatTotalAt(w, h, t, h);
    PathFirst(w, -1, h);
    forall g: nat | g < |w.bufs| && w.bufs[g].live && g in w.path[h]
      ensures r in w.path[g] && w.bufs[g].totLen <= w.bufs[h].totLen
    {
      OnPath(w, h, g);
      TotalsFall(w, h, g);
    }
    hide Cat, Content, Owned, MayCat;
    forall g: nat | g < |w.bufs| && w.bufs[g].live
      ensures u.bufs[g].totLen == |Content(u, g)|
              <==> w.bufs[t].totLen == 0
                   || (if g in w.path[h] then r in w.path[g] && w.bufs[g].totLen + w.bufs[t].totLen < 0x1_0000 else r !in w.path[g])
    {
      CatTotalAt(w, h, t, g);
    }
  }

  /** When a concatenation leaves every total right. */
  ghost predicate CatFits(w: World, h: nat, t: nat)
    requires h < |w.bufs| == |w.path| && t < |w.bufs| && w.path[h] != []
  {
    w.bufs[t].totLen == 0
    || (NoSideChain(w, w.path[h], Last(w.path[h])) && w.bufs[h].totLen + w.bufs[t].totLen < 0x1_0000)
  }

  /** The end of a chain is the end of every chain along it. */
  lemma OnPath(w: World, h: nat, g: nat)
    requires Owned(w, -1) && Live(w.bufs, h) && g in w.path[h] && w.path[h] != []
    ensures g < |w.path| && Last(w.path[h]) in w.path[g]
  {
    var k :| 0 <= k < |w.path[h]| && w.path[h][k] == g;
    Along(w, -1, h, k);
    assert w.path[g][|w.path[g]| - 1] == Last(w.path[h]);
  }

  /** pbuf_ref. */
  function Ref(w: World, i: nat): World
    requires i < |w.bufs| && i < |w.outside|
  {
    w.(bufs := w.bufs[i := w.bufs[i].(ref := Wrap16(w.bufs[i].ref + 1))], outside := w.outside[i := w.outside[i] + 1])
  }

  /** A new reference is counted, exactly when the 16-bit count has room for it. */
  lemma RefKeeps(w: World, i: nat)
    requires Owned(w, -1) && Live(w.bufs, i)
    ensures Owned(Ref(w, i), -1) <==> w.bufs[i].ref < 0xffff
  {
    var t := Ref(w, i);
    Recounted(w, -1, i, Wrap16(w.bufs[i].ref + 1), w.outside[i := w.outside[i] + 1]);
    hide Links, PathOk, PoolOk;
    if w.bufs[i].ref == 0xffff {
      assert !CountOk(t, i, -1);
    } else {
      forall j: nat | j < |t.bufs| ensures CountOk(t, j, -1) { assert CountOk(w, j, -1); }
    }
  }

  /** A caller gives up a reference; pbuf_free is about to take it. */
  function GiveUp(w: World, i: nat): World
    requires i < |w.outside| && w.outside[i] > 0
  {
    w.(outside := w.outside[i := w.outside[i] - 1])
  }

  lemma GiveUpKeeps(w: World, i: nat)
    requires Owned(w, -1) && Live(w.bufs, i) && w.outside[i] > 0
    ensures Owned(GiveUp(w, i), i)
  {
    var t := GiveUp(w, i);
    forall j: nat | j < |t.bufs| ensures CountOk(t, j, i) && (t.bufs[j].live ==> PathOk(t, j)) {
      assert CountOk(w, j, -1) && (w.bufs[j].live ==> PathOk(w, j));
    }
  }

  /** A chain cut after p; the reference p held to the next buffer is still to be dropped. */
  function Detach(w: World, p: nat): World
    requires p < |w.bufs| == |w.path|
  {
    w.(bufs := w.bufs[p := w.bufs[p].(next := -1)],
       path := seq(|w.path|, g requires 0 <= g < |w.path| => CutPath(w.path[g], p, |w.path[p]|)))
  }

  function CutPath(q: seq<int>, p: int, n: nat): seq<int>
  {
    if p in q && |q| >= n then if |q| - n + 1 <= |q| then q[..|q| - n + 1] else q else q
  }

  /** A chain that comes to p goes on as p's own chain. */
  lemma Suffix(w: World, pending: int, g: nat, p: nat)
    requires Owned(w, pending) && Live(w.bufs, g) && p in w.path[g]
    ensures Live(w.bufs, p) && 0 < |w.path[p]| <= |w.path[g]| && w.path[g][|w.path[g]| - |w.path[p]|..] == w.path[p]
    ensures w.path[g][|w.path[g]| - |w.path[p]|] == p && w.path[p][0] == p
  {
    var k :| 0 <= k < |w.path[g]| && w.path[g][k] == p;
    Along(w, pending, g, k);
    assert w.path[p][0] == p;
  }

  lemma DetachCounts(w: World, p: nat)
    requires Owned(w, -1) && Live(w.bufs, p)
    ensures var t := Detach(w, p);
            forall j: nat | j < |w.bufs| :: CountOk(t, j, w.bufs[p].next)
  {
    var t := Detach(w, p);
    assert PathOk(w, p);
    forall j: nat | j < |t.bufs| ensures CountOk(t, j, w.bufs[p].next) {
      LinksUpdate(w.bufs, p, t.bufs[p], j);
      assert CountOk(w, j, -1);
    }
  }

  lemma DetachPaths(w: World, p: nat)
    requires Owned(w, -1) && Live(w.bufs, p)
    ensures var t := Detach(w, p);
            forall j: nat | j < |w.bufs| && t.bufs[j].live :: PathOk(t, j)
  {
    var t := Detach(w, p);
    forall j: nat | j < |t.bufs| && t.bufs[j].live ensures PathOk(t, j) {
      assert PathOk(w, j);
      DetachPath(w, p, j);
    }
  }

  lemma CutStep(q: seq<int>, j: int, p: int, n: nat)
    requires j != p && 0 < n && (p in q ==> n <= |q|)
    ensures CutPath([j] + q, p, n) == [j] + CutPath(q, p, n)
  {
    assert ([j] + q)[1..] == q;
    if p in q {
      assert ([j] + q)[..|q| - n + 2] == [j] + q[..|q| - n + 1];
    } else {
      assert p !in [j] + q;
    }
  }

  lemma CutSelf(q: seq<int>, p: int)
    requires q != [] && q[0] == p
    ensures CutPath(q, p, |q|) == [p]
  {}

  lemma DetachPath(w: World, p: nat, j: nat)
    requires Owned(w, -1) && Live(w.bufs, p) && Live(w.bufs, j)
    ensures PathOk(Detach(w, p), j)
  {
    assert PathOk(w, j) && PathOk(w, p);
    var n := w.bufs[j].next;
    if j == p {
      assert w.path[p][0] == p;
      CutSelf(w.path[p], p);
    } else if n != -1 {
      if p in w.path[n] { Suffix(w, -1, n, p); }
      hide Owned, CutPath;
      assert 0 < |w.path[p]|;
      CutStep(w.path[n], j, p, |w.path[p]|);
    }
  }

  lemma DetachKeeps(w: World, p: nat)
    requires Owned(w, -1) && Live(w.bufs, p)
    ensures Owned(Detach(w, p), w.bufs[p].next)
  {
    DetachCounts(w, p);
    DetachPaths(w, p);
    assert PathOk(w, p);
    assert PoolOk(Detach(w, p));
  }

  /** What is cut off is the contents of the chain after p. */
  lemma DetachContent(w: World, p: nat, g: nat)
    requires Owned(w, -1) && Live(w.bufs, p) && Live(w.bufs, g)
    ensures Sized(Detach(w, p)) && w.path[p] != []
    ensures Content(w, g) == Content(Detach(w, p), g) + if p in w.path[g] then Concat(w.bufs, w.path[p][1..]) else []
  {
    var t := Detach(w, p);
    DetachSplit(w, p, g);
    hide Owned, Concat;
    ConcatSame(t.bufs, w.bufs, t.path[g]);
    if p in w.path[g] {
      ConcatJoin(w.bufs, t.path[g], w.path[p][1..]);
    }
  }

  /** What is left of a chain that came to p, and what is cut off. */
  lemma DetachSplit(w: World, p: nat, g: nat)
    requires Owned(w, -1) && Live(w.bufs, p) && Live(w.bufs, g)
    ensures Sized(w) && w.path[p] != []
    ensures w.path[g] == Detach(w, p).path[g] + if p in w.path[g] then w.path[p][1..] else []
    ensures p in w.path[g] ==> Detach(w, p).path[g] != [] && Last(Detach(w, p).path[g]) == p
  {
    assert PathOk(w, p);
    if p in w.path[g] {
      Suffix(w, -1, g, p);
      assert Detach(w, p).path[g] == CutPath(w.path[g], p, |w.path[p]|);
      hide Owned, Detach;
      CutApart(w.path[g], w.path[p], p);
    } else {
      assert Detach(w, p).path[g] == w.path[g];
    }
  }

  lemma CutApart(g: seq<int>, q: seq<int>, p: int)
    requires p in g && 0 < |q| <= |g| && g[|g| - |q|..] == q && q[0] == p
    ensures CutPath(g, p, |q|) != [] && Last(CutPath(g, p, |q|)) == p && g == CutPath(g, p, |q|) + q[1..]
  {
    var k := |g| - |q|;
    assert g[k] == g[k..][0] == p;
    assert CutPath(g, p, |q|) == g[..k + 1];
    assert g[k..][1..] == g[k + 1..];
    assert g == g[..k + 1] + g[k + 1..];
  }

  // ----- allocation -----

  /** A buffer taken from the pool. */
  function Pop(w: World, data: Piece16, total: U16): World
    requires w.pool != [] && 0 <= w.pool[0] < |w.bufs| == |w.outside| == |w.path|
  {
    var k := w.pool[0];
    w.(bufs := w.bufs[k := Buf(Pool, true, -1, data, total, 1)], pool := w.pool[1..], outside := w.outside[k := 1],
       path := w.path[k := [k]])
  }

  lemma PopKeeps(w: World, data: Piece16, total: U16)
    requires Owned(w, -1) && w.pool != []
    ensures Owned(Pop(w, data, total), -1)
  {
    var k := w.pool[0];
    var t := Pop(w, data, total);
    assert CountOk(w, k, -1) && !w.bufs[k].live;
    forall j: nat | j < |t.bufs| ensures CountOk(t, j, -1) && (t.bufs[j].live ==> PathOk(t, j)) {
      LinksUpdate(w.bufs, k, t.bufs[k], j);
      assert CountOk(w, j, -1) && (w.bufs[j].live ==> PathOk(w, j));
    }
    PopPool(w, data, total);
  }

  lemma PopPool(w: World, data: Piece16, total: U16)
    requires Sized(w) && PoolOk(w) && w.pool != []
    ensures PoolOk(Pop(w, data, total))
  {
    var t := Pop(w, data, total);
    assert w.pool == [w.pool[0]] + t.pool;
    assert forall k | 0 <= k < |t.pool| :: t.pool[k] == w.pool[k + 1];
  }

  /** A buffer from the heap or for memory held elsewhere. */
  function Fresh(w: World, kind: Kind, data: Piece16): World
  {
    w.(bufs := w.bufs + [Buf(kind, true, -1, data, |data|, 1)], outside := w.outside + [1], path := w.path + [[|w.bufs|]])
  }

  lemma FreshKeeps(w: World, kind: Kind, data: Piece16)
    requires Owned(w, -1) && kind != Pool
    ensures Owned(Fresh(w, kind, data), -1)
  {
    var t := Fresh(w, kind, data);
    var n := |w.bufs|;
    assert t.bufs[..n] == w.bufs;
    NoneBeyond(w, w.bufs);
    forall j: nat | j < |t.bufs| ensures CountOk(t, j, -1) && (t.bufs[j].live ==> PathOk(t, j)) {
      assert Links(t.bufs, j) == Links(w.bufs, j);
      if j < n { assert CountOk(w, j, -1) && (w.bufs[j].live ==> PathOk(w, j)); }
    }
    FreshPool(w, kind, data);
  }

  lemma FreshContent(w: World, kind: Kind, data: Piece16)
    requires Sized(w)
    ensures var t := Fresh(w, kind, data);
            Sized(t) && Content(t, |w.bufs|) == data
  {
    ConcatOne(Fresh(w, kind, data).bufs, |w.bufs|);
  }

  lemma FreshTotals(w: World, kind: Kind, data: Piece16)
    requires Owned(w, -1) && Totals(w)
    ensures var t := Fresh(w, kind, data);
            Sized(t) && Totals(t) && Content(t, |w.bufs|) == data
  {
    var t := Fresh(w, kind, data);
    FreshContent(w, kind, data);
    forall x: nat | x < |w.bufs| && w.bufs[x].live ensures Content(t, x) == Content(w, x) {
      PathInRange(w, -1, x);
      ConcatSame(t.bufs, w.bufs, w.path[x]);
    }
  }

  lemma FreshPool(w: World, kind: Kind, data: Piece16)
    requires PoolOk(w) && kind != Pool
    ensures PoolOk(Fresh(w, kind, data))
  {}

  lemma {:induction false} NoneBeyond(w: World, bufs: seq<Buf>)
    requires Owned(w, -1) && bufs <= w.bufs
    ensures Links(bufs, |w.bufs|) == 0
    decreases |bufs|
  {
    if bufs != [] {
      var n := |bufs| - 1;
      NoneBeyond(w, bufs[..n]);
      assert bufs[n] == w.bufs[n];
      if w.bufs[n].live { assert PathOk(w, n); }
    }
  }

  /** Freeing pool buffers gives the pool all of them. */
  lemma {:induction false} ReturnedAll(bufs: seq<Buf>, p: seq<int>)
    requires InRange(bufs, p) && forall k | 0 <= k < |p| :: bufs[p[k]].kind == Pool
    ensures multiset(Returned(bufs, p)) == multiset(p)
    decreases |p|
  {
    if p != [] {
      forall k | 0 <= k < |p[1..]| ensures 0 <= p[1..][k] < |bufs| && bufs[p[1..][k]].kind == Pool { assert p[1..][k] == p[k + 1]; }
      ReturnedAll(bufs, p[1..]);
      assert p == [p[0]] + p[1..];
    }
  }

  // ----- shortening -----

  /** The buffer a chain of new length n ends in, and what is left for it. */
  function Place(bufs: seq<Buf>, p: seq<int>, n: nat): (nat, nat)
    decreases |p|
  {
    if p != [] && n > |Octets(bufs, p[0])| then
      var (m, rem) := Place(bufs, p[1..], n - |Octets(bufs, p[0])|);
      (m + 1, rem)
    else (0, n)
  }

  lemma {:induction false} PlaceIs(bufs: seq<Buf>, p: seq<int>, n: nat)
    requires n <= |Concat(bufs, p)| && p != []
    ensures var (m, rem) := Place(bufs, p, n);
            && m < |p| && rem <= |Octets(bufs, p[m])|
            && n == |Concat(bufs, p[..m])| + rem
            && Concat(bufs, p)[..n] == Concat(bufs, p[..m]) + Octets(bufs, p[m])[..rem]
    decreases |p|
  {
    var d := Octets(bufs, p[0]);
    var rest := Concat(bufs, p[1..]);
    assert Concat(bufs, p) == d + rest;
    if n > |d| {
      PlaceIs(bufs, p[1..], n - |d|);
      var (m, rem) := Place(bufs, p[1..], n - |d|);
      assert Place(bufs, p, n) == (m + 1, rem);
      assert p[..m + 1][1..] == p[1..][..m] && p[m + 1] == p[1..][m];
      assert Concat(bufs, p[..m + 1]) == d + Concat(bufs, p[1..][..m]);
      hide Concat, Octets, Place;
      JoinPrefix(d, rest, n, Concat(bufs, p[1..][..m]), Octets(bufs, p[m + 1])[..rem]);
    } else {
      PlaceFirst(bufs, p, n);
      hide Concat, Octets, Place;
      assert (d + rest)[..n] == d[..n] && [] + d[..n] == d[..n];
    }
  }

  lemma PlaceFirst(bufs: seq<Buf>, p: seq<int>, n: nat)
    requires p != [] && n <= |Octets(bufs, p[0])|
    ensures Place(bufs, p, n) == (0, n) && Concat(bufs, p[..0]) == []
  {}

  lemma JoinPrefix(d: seq<Byte>, rest: seq<Byte>, n: nat, a: seq<Byte>, b: seq<Byte>)
    requires |d| <= n <= |d| + |rest| && rest[..n - |d|] == a + b
    ensures (d + rest)[..n] == (d + a) + b
  {}

  /** A chain shortened to end in buffer q with `rem` octets left there: the totals of the buffers in front of it change
      by `grow`, and what follows it is cut off. */
  function Cut(w: World, front: seq<int>, q: nat, rem: nat, grow: int): World
    requires q < |w.bufs| == |w.path| && rem <= |w.bufs[q].data|
  {
    Detach(Trim(w, front, q, rem, grow), q)
  }

  function Trim(w: World, front: seq<int>, q: nat, rem: nat, grow: int): World
    requires q < |w.bufs| && rem <= |w.bufs[q].data|
  {
    w.(bufs := Raise(w.bufs, front, grow)[q := w.bufs[q].(data := w.bufs[q].data[..rem], totLen := rem)])
  }

  lemma TrimKeeps(w: World, front: seq<int>, q: nat, rem: nat, grow: int)
    requires Owned(w, -1) && Live(w.bufs, q) && rem <= |w.bufs[q].data|
    ensures Owned(Trim(w, front, q, rem, grow), -1)
  {
    var t := Trim(w, front, q, rem, grow);
    RaiseAt(w.bufs, front, grow);
    SameLinks(w, t);
  }

  /** Ownership depends on no more than kinds, links, counts and what is alive. */
  lemma SameLinks(w: World, t: World)
    requires Owned(w, -1) && t.pool == w.pool && t.outside == w.outside && t.path == w.path && |t.bufs| == |w.bufs|
    requires forall x | 0 <= x < |w.bufs| :: t.bufs[x].kind == w.bufs[x].kind && t.bufs[x].live == w.bufs[x].live
                                             && t.bufs[x].next == w.bufs[x].next && t.bufs[x].ref == w.bufs[x].ref
    ensures Owned(t, -1)
  {
    forall j: nat | j < |t.bufs| ensures CountOk(t, j, -1) && (t.bufs[j].live ==> PathOk(t, j)) {
      LinksSame(w.bufs, t.bufs, j);
      assert CountOk(w, j, -1) && (w.bufs[j].live ==> PathOk(w, j));
    }
  }

  lemma CutKeeps(w: World, front: seq<int>, q: nat, rem: nat, grow: int)
    requires Owned(w, -1) && Live(w.bufs, q) && rem <= |w.bufs[q].data|
    ensures Owned(Cut(w, front, q, rem, grow), w.bufs[q].next)
  {
    TrimKeeps(w, front, q, rem, grow);
    DetachKeeps(Trim(w, front, q, rem, grow), q);
  }

  /** A chain that came to q now ends there, and the others are as they were. */
  lemma CutContent(w: World, front: seq<int>, q: nat, rem: nat, grow: int, g: nat)
    requires Owned(w, -1) && Live(w.bufs, q) && rem <= |w.bufs[q].data| && Live(w.bufs, g)
    ensures var t := Cut(w, front, q, rem, grow);
            && Sized(t) && rem <= |Content(w, q)|
            && (q !in w.path[g] ==> Content(t, g) == Content(w, g))
            && (q in w.path[g] ==> |Content(w, q)| <= |Content(w, g)|
                                   && Content(t, g) == Content(w, g)[..|Content(w, g)| - (|Content(w, q)| - rem)])
  {
    hide Owned, Cut, Detach, Concat;
    OwnedSized(w, -1);
    var t := Cut(w, front, q, rem, grow);
    var whole := CutSplit(w, front, q, rem, grow, g);
    CutOctets(w, front, q, rem, grow);
    ConcatJoin(w.bufs, [q], w.path[q][1..]);
    ConcatOne(w.bufs, q);
    if q in w.path[g] {
      SameFront(t.bufs, w.bufs, whole, q);
      CutEnds(t.bufs, w.bufs, whole, q, w.path[q][1..], rem);
    } else {
      SameFront(t.bufs, w.bufs, whole, q);
    }
  }

  lemma PathFirst(w: World, pending: int, q: nat)
    requires Owned(w, pending) && Live(w.bufs, q)
    ensures Sized(w) && w.path[q] != [] && w.path[q] == [q] + w.path[q][1..]
  {
    assert PathOk(w, q);
  }

  /** A chain before and after the cut: `whole` is what comes before q, or all of it. */
  lemma CutSplit(w: World, front: seq<int>, q: nat, rem: nat, grow: int, g: nat) returns (whole: seq<int>)
    requires Owned(w, -1) && Live(w.bufs, q) && rem <= |w.bufs[q].data| && Live(w.bufs, g)
    ensures var t := Cut(w, front, q, rem, grow);
            && Sized(t) && Sized(w) && w.path[q] != [] && w.path[q] == [q] + w.path[q][1..] && q !in whole
            && (q in w.path[g] ==> t.path[g] == whole + [q] && w.path[g] == whole + ([q] + w.path[q][1..]))
            && (q !in w.path[g] ==> t.path[g] == w.path[g] == whole)
  {
    hide Owned, CutPath;
    OwnedSized(w, -1);
    DetachSplit(w, q, g);
    PathFirst(w, -1, q);
    var cut := Detach(w, q).path[g];
    if q in w.path[g] {
      whole := cut[..|cut| - 1];
      assert cut == whole + [q];
      NotBefore(w, g, q, whole);
      assert cut + w.path[q][1..] == whole + ([q] + w.path[q][1..]);
    } else {
      whole := cut;
      assert cut + [] == cut;
    }
  }

  /** All but q have the octets they had. */
  lemma CutOctets(w: World, front: seq<int>, q: nat, rem: nat, grow: int)
    requires q < |w.bufs| == |w.path| && rem <= |w.bufs[q].data|
    ensures var t := Cut(w, front, q, rem, grow).bufs;
            |t| == |w.bufs| && t[q].data == w.bufs[q].data[..rem] && forall x | x != q :: Octets(t, x) == Octets(w.bufs, x)
  {
    RaiseAt(w.bufs, front, grow);
  }

  lemma SameFront(t: seq<Buf>, w: seq<Buf>, p: seq<int>, q: nat)
    requires q !in p && forall x | x != q :: Octets(t, x) == Octets(w, x)
    ensures Concat(t, p) == Concat(w, p)
  {
    ConcatSame(t, w, p);
  }

  /** The buffers in front of q on a chain are not q. */
  lemma NotBefore(w: World, g: nat, q: nat, front: seq<int>)
    requires Owned(w, -1) && Live(w.bufs, g) && front + [q] <= w.path[g]
    ensures q !in front
  {
    assert w.path[g][|front|] == q by { assert (front + [q])[|front|] == q; }
    forall j | 0 <= j < |front| ensures front[j] != q {
      assert (front + [q])[j] == front[j];
      NoRepeat(w, -1, g, j, |front|);
    }
  }

  lemma CutEnds(t: seq<Buf>, w: seq<Buf>, front: seq<int>, q: nat, rest: seq<int>, rem: nat)
    requires q < |t| == |w| && rem <= |w[q].data| && t[q].data == w[q].data[..rem] && Concat(t, front) == Concat(w, front)
    ensures |Concat(w, [q] + rest)| >= rem
    ensures |Concat(w, front + ([q] + rest))| >= |Concat(w, [q] + rest)|
    ensures var all := Concat(w, front + ([q] + rest));
            Concat(t, front + [q]) == all[..|all| - (|Concat(w, [q] + rest)| - rem)]
  {
    ConcatJoin(w, front, [q] + rest);
    ConcatJoin(w, [q], rest);
    ConcatJoin(t, front, [q]);
    ConcatOne(t, q);
    ConcatOne(w, q);
  }

  lemma ConcatOne(bufs: seq<Buf>, q: nat)
    requires q < |bufs|
    ensures Concat(bufs, [q]) == bufs[q].data
  {
    var p: seq<int> := [q];
    assert p[1..] == [] && bufs[q].data + [] == bufs[q].data;
  }

  /** Shortening keeps every total right exactly when nothing is cut off, or no other chain joins this one from the side
      at or before q. */
  lemma CutTotals(w: World, p: nat, m: nat, rem: nat)
    requires Owned(w, -1) && Totals(w) && Live(w.bufs, p) && m < |w.path[p]|
    requires 0 <= w.path[p][m] < |w.bufs| && rem <= |w.bufs[w.path[p][m]].data|
    ensures var q := w.path[p][m];
            var t := Cut(w, w.path[p][..m], q, rem, rem - w.bufs[q].totLen);
            Sized(t) && (Totals(t) <==> rem == w.bufs[q].totLen || NoSideChain(w, w.path[p], q))
  {
    hide Owned, Cut, Content;
    OwnedSized(w, -1);
    var q := w.path[p][m];
    Along(w, -1, p, m);
    var t := Cut(w, w.path[p][..m], q, rem, rem - w.bufs[q].totLen);
    CutLive(w, w.path[p][..m], q, rem, rem - w.bufs[q].totLen);
    forall g: nat | g < |t.bufs| && t.bufs[g].live
      ensures t.bufs[g].totLen == |Content(t, g)| <==> rem == w.bufs[q].totLen || (q in w.path[g] ==> g in w.path[p])
    {
      CutTotalAt(w, p, m, rem, g);
    }
  }

  lemma OwnedSized(w: World, pending: int)
    requires Owned(w, pending)
    ensures Sized(w)
  {}

  lemma CutLive(w: World, front: seq<int>, q: nat, rem: nat, grow: int)
    requires Sized(w) && q < |w.bufs| && rem <= |w.bufs[q].data|
    ensures var t := Cut(w, front, q, rem, grow);
            && Sized(t) && |t.bufs| == |w.bufs|
            && forall g | 0 <= g < |w.bufs| :: t.bufs[g].live == w.bufs[g].live
                 && t.bufs[g].totLen == if g == q then rem else if g in front then Wrap16(w.bufs[g].totLen + grow) else w.bufs[g].totLen
  {
    RaiseAt(w.bufs, front, grow);
  }

  lemma CutTotalAt(w: World, p: nat, m: nat, rem: nat, g: nat)
    requires Owned(w, -1) && Totals(w) && Live(w.bufs, p) && m < |w.path[p]| && Live(w.bufs, g)
    requires Live(w.bufs, w.path[p][m]) && rem <= |w.bufs[w.path[p][m]].data|
    ensures var q := w.path[p][m];
            var t := Cut(w, w.path[p][..m], q, rem, rem - w.bufs[q].totLen);
            && Sized(t) && |t.bufs| == |w.bufs|
            && (t.bufs[g].totLen == |Content(t, g)| <==> rem == w.bufs[q].totLen || (q in w.path[g] ==> g in w.path[p]))
  {
    hide Owned, Content, Cut;
    OwnedSized(w, -1);
    var q := w.path[p][m];
    var front, grow := w.path[p][..m], rem - w.bufs[q].totLen;
    assert w.bufs[g].totLen == |Content(w, g)| && w.bufs[q].totLen == |Content(w, q)|;
    hide Totals;
    CutReach(w, p, m, g);
    CutContent(w, front, q, rem, grow, g);
    CutLive(w, front, q, rem, grow);
  }

  /** Of the buffers along p, those that lead to its m-th are the ones up to it. */
  lemma CutReach(w: World, p: nat, m: nat, g: nat)
    requires Owned(w, -1) && Live(w.bufs, p) && m < |w.path[p]| && Live(w.bufs, g)
    ensures w.path[p][m] in w.path[g] && g in w.path[p] <==> g in w.path[p][..m] || g == w.path[p][m]
  {
    var q := w.path[p][m];
    if q in w.path[g] && g in w.path[p] {
      var k :| 0 <= k < |w.path[p]| && w.path[p][k] == g;
      Along(w, -1, p, k);
      if k > m {
        var j :| 0 <= j < |w.path[g]| && w.path[g][j] == q;
        assert w.path[p][k..][j] == w.path[p][k + j];
        NoRepeat(w, -1, p, m, k + j);
      } else if k < m {
        assert w.path[p][..m][k] == g;
      }
    }
    if g in w.path[p][..m] {
      var k :| 0 <= k < m && w.path[p][..m][k] == g;
      Along(w, -1, p, k);
      assert w.path[p][k..][m - k] == q;
    }
    if g == q {
      Along(w, -1, p, m);
      assert w.path[p][m..][0] == q;
    }
  }

  /** What comes after a buffer does not lead back to it. */
  lemma NoWayBack(w: World, q: nat, g: nat)
    requires Owned(w, -1) && Live(w.bufs, q) && Live(w.bufs, g) && w.path[q] != [] && g in w.path[q][1..]
    ensures q !in w.path[g]
  {
    var k :| 0 <= k < |w.path[q]| - 1 && w.path[q][1..][k] == g;
    PathFirst(w, -1, q);
    Along(w, -1, q, k + 1);
    if q in w.path[g] {
      var j :| 0 <= j < |w.path[g]| && w.path[g][j] == q;
      assert w.path[q][k + 1..][j] == w.path[q][k + 1 + j];
      NoRepeat(w, -1, q, 0, k + 1 + j);
    }
  }

  /** The chain that is cut off is what came after q. */
  lemma CutTail(w: World, front: seq<int>, q: nat, rem: nat, grow: int)
    requires Owned(w, -1) && Live(w.bufs, q) && rem <= |w.bufs[q].data| && w.bufs[q].next != -1
    ensures var n := w.bufs[q].next;
            && w.path[q] != [] && 0 <= n < |w.bufs| == |w.path| && w.bufs[n].live
            && Cut(w, front, q, rem, grow).path[n] == w.path[q][1..]
  {
    var n := w.bufs[q].next;
    assert PathOk(w, q);
    PathFirst(w, -1, q);
    assert w.path[q][1..] == w.path[n];
    assert PathOk(w, n);
    NoWayBack(w, q, n);
  }

  /** Totals that are right after some buffers are gone were right before, if those of the lost ones were. */
  lemma TotalsBack(c: World, t: World, tail: seq<int>)
    requires Survives(c, t) && Totals(t)
    requires forall g: nat | g < |c.bufs| && g !in tail :: t.bufs[g] == c.bufs[g]
    requires forall g: nat | g < |c.bufs| && c.bufs[g].live && g in tail :: c.bufs[g].totLen == |Content(c, g)|
    ensures Totals(c)
  {
    hide Content;
    forall g: nat | g < |c.bufs| && c.bufs[g].live ensures c.bufs[g].totLen == |Content(c, g)| { SurvivesContent(c, t, g); }
  }

  /** The totals of what is cut off are right. */
  lemma TailTotals(w: World, p: nat, m: nat, rem: nat, g: nat)
    requires Owned(w, -1) && Totals(w) && Live(w.bufs, p) && m < |w.path[p]| && Live(w.bufs, g)
    requires Live(w.bufs, w.path[p][m]) && rem <= |w.bufs[w.path[p][m]].data|
    requires w.path[w.path[p][m]] != [] && g in w.path[w.path[p][m]][1..]
    ensures var q := w.path[p][m];
            var c := Cut(w, w.path[p][..m], q, rem, rem - w.bufs[q].totLen);
            Sized(c) && |c.bufs| == |w.bufs| && c.bufs[g].totLen == |Content(c, g)|
  {
    CutTotalAt(w, p, m, rem, g);
    NoWayBack(w, w.path[p][m], g);
  }

  /** Freeing a chain whose totals are right does not change whether all are. */
  lemma FreedTotals(c: World, n: nat)
    requires Owned(c, n) && Live(c.bufs, n) && Sized(c)
    requires forall g: nat | g < |c.bufs| && c.bufs[g].live && g in c.path[n] :: c.bufs[g].totLen == |Content(c, g)|
    ensures LeavesTotals(c, n, Totals(c))
  {
    hide Owned, Totals, Content, FreePath, Survives;
    FreeSurvives(c, n);
    var t := FreePath(c, c.path[n]);
    SurvivesSizes(c, t);
    if Totals(c) { SurvivesTotals(c, t); }
    if Totals(t) { TotalsBack(c, t, c.path[n]); }
  }

  /** Freeing the chain from n leaves contents and totals as they are; `right` says whether all totals are right. */
  ghost predicate LeavesTotals(c: World, n: int, right: bool)
  {
    && 0 <= n < |c.path| && InRange(c.bufs, c.path[n])
    && var t := FreePath(c, c.path[n]);
       Survives(c, t) && Sized(t) && (Totals(t) <==> right)
  }

  /** Dropping what was cut off does not change which totals are right. */
  lemma CutFreed(w: World, p: nat, m: nat, rem: nat)
    requires Owned(w, -1) && Totals(w) && Live(w.bufs, p) && m < |w.path[p]|
    requires Live(w.bufs, w.path[p][m]) && rem <= |w.bufs[w.path[p][m]].data| && w.bufs[w.path[p][m]].next != -1
    ensures var q := w.path[p][m];
            var c := Cut(w, w.path[p][..m], q, rem, rem - w.bufs[q].totLen);
            LeavesTotals(c, w.bufs[q].next, rem == w.bufs[q].totLen || NoSideChain(w, w.path[p], q))
  {
    var q := w.path[p][m];
    var n := w.bufs[q].next;
    var grow := rem - w.bufs[q].totLen;
    var c := Cut(w, w.path[p][..m], q, rem, grow);
    hide Owned, Totals, Cut, Content, NoSideChain, LeavesTotals;
    OwnedSized(w, -1);
    CutKeeps(w, w.path[p][..m], q, rem, grow);
    CutLive(w, w.path[p][..m], q, rem, grow);
    CutTail(w, w.path[p][..m], q, rem, grow);
    forall g: nat | g < |c.bufs| && c.bufs[g].live && g in c.path[n] ensures c.bufs[g].totLen == |Content(c, g)| {
      TailTotals(w, p, m, rem, g);
    }
    FreedTotals(c, n);
    CutTotals(w, p, m, rem);
  }
}
