/** The heap of mem.c as a list of blocks: what malloc, free and realloc compute, and what holds after any
    sequence of them. Offsets are relative to `ram`; a block is its header and the payload after it. */
module Heap {
  import opened Words

  const MEM_ALIGNMENT := 4
  const SIZEOF_STRUCT_MEM := 8
  const MIN_SIZE := 12

  datatype Block = Block(start: nat, end: nat, used: bool)

  /** `lfree` is the hint where the search for a free block starts; `memUsed` the counter of used octets. */
  datatype State = State(blocks: seq<Block>, lfree: nat, memUsed: int, memSize: nat)

  /** A heap size that 16-bit offsets can describe. */
  predicate ValidSize(memSize: nat) { SIZEOF_STRUCT_MEM <= memSize <= 64000 && memSize % MEM_ALIGNMENT == 0 }

  // ----- blocks -----

  ghost predicate Chained(b: seq<Block>)
  {
    && (forall i | 0 <= i < |b| :: b[i].start + SIZEOF_STRUCT_MEM <= b[i].end && b[i].start % MEM_ALIGNMENT == 0)
    && (forall i | 0 <= i < |b| - 1 :: b[i].end == b[i + 1].start)
  }

  /** The blocks partition the span from lo to hi. */
  ghost predicate Spans(b: seq<Block>, lo: nat, hi: nat)
  {
    Chained(b) && if b == [] then lo == hi else b[0].start == lo && b[|b| - 1].end == hi
  }

  ghost predicate NoFreePair(b: seq<Block>) { forall i | 0 <= i < |b| - 1 :: b[i].used || b[i + 1].used }

  lemma SpansJoin(a: seq<Block>, b: seq<Block>, lo: nat, mid: nat, hi: nat)
    requires Spans(a, lo, mid) && Spans(b, mid, hi)
    ensures Spans(a + b, lo, hi)
  {}

  lemma SpansCut(b: seq<Block>, k: nat, lo: nat, hi: nat)
    requires Spans(b, lo, hi) && k <= |b|
    ensures var mid := if k < |b| then b[k].start else hi;
            Spans(b[..k], lo, mid) && Spans(b[k..], mid, hi)
  {}

  lemma {:induction false} StartsRise(b: seq<Block>, i: nat, j: nat)
    requires Chained(b) && i < j < |b|
    ensures b[i].end <= b[j].start
    decreases j - i
  {
    if i + 1 < j { StartsRise(b, i + 1, j); }
  }

  /** n blocks from position i on, replaced. */
  function Splice(b: seq<Block>, i: nat, n: nat, repl: seq<Block>): seq<Block>
    requires i + n <= |b|
  {
    b[..i] + repl + b[i + n..]
  }

  /** Replacing some blocks by others over the same span keeps the partition. */
  lemma SpliceSpans(b: seq<Block>, i: nat, n: nat, repl: seq<Block>, lo: nat, hi: nat)
    requires Spans(b, lo, hi) && 0 < n && i + n <= |b|
    requires Spans(repl, b[i].start, b[i + n - 1].end)
    ensures Spans(Splice(b, i, n, repl), lo, hi)
  {
    hide Spans, Chained;
    SpansCut(b, i, lo, hi);
    SpansAfter(b, i + n, lo, hi);
    SpansJoin(b[..i], repl, lo, b[i].start, b[i + n - 1].end);
    SpansJoin(b[..i] + repl, b[i + n..], lo, b[i + n - 1].end, hi);
  }

  lemma SpansAfter(b: seq<Block>, k: nat, lo: nat, hi: nat)
    requires Spans(b, lo, hi) && 0 < k <= |b|
    ensures Spans(b[k..], b[k - 1].end, hi)
  {
    SpansCut(b, k, lo, hi);
    if k < |b| { assert b[k - 1].end == b[k].start; }
  }

  lemma SpliceNoFreePair(b: seq<Block>, i: nat, n: nat, repl: seq<Block>)
    requires NoFreePair(b) && 0 < n && i + n <= |b| && repl != [] && NoFreePair(repl)
    requires i > 0 ==> b[i - 1].used || repl[0].used
    requires i + n < |b| ==> repl[|repl| - 1].used || b[i + n].used
    ensures NoFreePair(Splice(b, i, n, repl))
  {
    var r := Splice(b, i, n, repl);
    var m := i + |repl|;
    assert forall j | 0 <= j < |r| :: r[j] == if j < i then b[j] else if j < m then repl[j - i] else b[j - m + i + n];
    forall j | 0 <= j < |r| - 1 ensures r[j].used || r[j + 1].used {
      if j + 1 < i { assert b[j].used || b[j + 1].used; }
      else if i <= j < m - 1 { assert repl[j - i].used || repl[j - i + 1].used; }
      else if m <= j { assert b[j - m + i + n].used || b[j - m + i + n + 1].used; }
    }
  }

  /** Octets in used blocks, headers included. */
  function UsedOctets(b: seq<Block>): int
  {
    if b == [] then 0 else (if b[0].used then b[0].end - b[0].start else 0) + UsedOctets(b[1..])
  }

  lemma {:induction false} UsedJoin(a: seq<Block>, b: seq<Block>)
    ensures UsedOctets(a + b) == UsedOctets(a) + UsedOctets(b)
  {
    if a == [] {
      assert a + b == b;
    } else {
      UsedJoin(a[1..], b);
      assert (a + b)[1..] == a[1..] + b;
    }
  }

  lemma UsedSplice(b: seq<Block>, i: nat, n: nat, repl: seq<Block>)
    requires i + n <= |b|
    ensures UsedOctets(Splice(b, i, n, repl)) == UsedOctets(b) - UsedOctets(b[i..i + n]) + UsedOctets(repl)
  {
    assert b == b[..i] + b[i..i + n] + b[i + n..];
    UsedJoin(b[..i] + b[i..i + n], b[i + n..]);
    UsedJoin(b[..i], b[i..i + n]);
    UsedJoin(b[..i] + repl, b[i + n..]);
    UsedJoin(b[..i], repl);
  }

  // ----- the operations -----

  /** Sizes are rounded up to the alignment in 16-bit arithmetic. */
  function Align(size: U16): U16
  {
    if size % MEM_ALIGNMENT != 0
    then Add16(size, MEM_ALIGNMENT - Add16(size, SIZEOF_STRUCT_MEM) % MEM_ALIGNMENT)
    else size
  }

  /** The size test of mem_malloc. */
  predicate Fits(b: Block, size: nat) { !b.used && b.end - b.start - SIZEOF_STRUCT_MEM >= size + SIZEOF_STRUCT_MEM }

  /** First block from position k on that fits, or |b|. */
  function FindFit(b: seq<Block>, size: nat, k: nat): (i: nat)
    requires k <= |b|
    ensures k <= i <= |b| && (i < |b| ==> Fits(b[i], size))
    ensures forall j | k <= j < i :: !Fits(b[j], size)
    decreases |b| - k
  {
    if k == |b| || Fits(b[k], size) then k else FindFit(b, size, k + 1)
  }

  /** Position of the block that starts at an offset, or |b|. */
  function Find(b: seq<Block>, start: int, k: nat): (i: nat)
    requires k <= |b|
    ensures k <= i <= |b| && (i < |b| ==> b[i].start == start)
    ensures forall j | k <= j < i :: b[j].start != start
    decreases |b| - k
  {
    if k == |b| || b[k].start == start then k else Find(b, start, k + 1)
  }

  datatype Pointer = Null | At(offset: int)

  /** The two blocks a free block is cut into for `size` octets of payload. */
  function Halves(b: Block, size: nat): seq<Block>
  {
    [Block(b.start, b.start + SIZEOF_STRUCT_MEM + size, true), Block(b.start + SIZEOF_STRUCT_MEM + size, b.end, false)]
  }

  /** The state after block k has been taken for `size` octets. */
  function Take(s: State, k: nat, size: nat): State
    requires k < |s.blocks|
  {
    var b := s.blocks[k];
    s.(blocks := Splice(s.blocks, k, 1, Halves(b, size)), memUsed := s.memUsed + size + SIZEOF_STRUCT_MEM,
       lfree := if b.start == s.lfree then b.start + SIZEOF_STRUCT_MEM + size else s.lfree)
  }

  function Malloc(s: State, request: U16): (State, Pointer)
  {
    var size := Align(request);
    var k := FindFit(s.blocks, size, Find(s.blocks, s.lfree, 0));
    if request == 0 || size > s.memSize || k == |s.blocks| then (s, Null)
    else
      (Take(s, k, size), At(Payload(s.blocks[k])))
  }

  function MergeForward(s: State, i: nat): State
    requires i < |s.blocks|
  {
    var b := s.blocks;
    if i + 1 < |b| && !b[i + 1].used then
      s.(blocks := Splice(b, i, 2, [Block(b[i].start, b[i + 1].end, b[i].used)]),
         lfree := if s.lfree == b[i + 1].start then b[i].start else s.lfree)
    else s
  }

  function MergeBackward(s: State, i: nat): State
    requires i < |s.blocks|
  {
    var b := s.blocks;
    if i > 0 && !b[i - 1].used then
      s.(blocks := Splice(b, i - 1, 2, [Block(b[i - 1].start, b[i].end, false)]),
         lfree := if s.lfree == b[i].start then b[i - 1].start else s.lfree)
    else s
  }

  /** plug_holes: merge free block i with free neighbours. */
  function PlugHoles(s: State, i: nat): State
    requires i < |s.blocks|
  {
    MergeBackward(MergeForward(s, i), i)
  }

  /** The block whose payload starts at p is in use. */
  ghost predicate IsLive(s: State, p: int) { exists i :: 0 <= i < |s.blocks| && Payload(s.blocks[i]) == p && s.blocks[i].used }

  function Payload(b: Block): int { b.start + SIZEOF_STRUCT_MEM }

  /** mem_free: a null pointer and one outside the heap are ignored; any other must be live. */
  ghost predicate MayFree(s: State, p: Pointer) { p.Null? || p.offset < 0 || s.memSize <= p.offset || IsLive(s, p.offset) }

  /** The state before plug_holes is called for block i. */
  function Release(s: State, i: nat): State
    requires i < |s.blocks|
  {
    var b := s.blocks[i];
    s.(blocks := s.blocks[i := b.(used := false)], lfree := if b.start < s.lfree then b.start else s.lfree,
       memUsed := s.memUsed - (b.end - b.start))
  }

  function Free(s: State, p: Pointer): State
  {
    if p.Null? || p.offset < 0 || s.memSize <= p.offset then s
    else
      var i := Find(s.blocks, p.offset - SIZEOF_STRUCT_MEM, 0);
      if i == |s.blocks| then s
      else
        PlugHoles(Release(s, i), i)
  }

  /** mem_realloc cuts a free block off the end when more than MIN_SIZE octets and a header are left over. */
  predicate Cuts(b: Block, size: nat) { size + SIZEOF_STRUCT_MEM + MIN_SIZE < b.end - b.start - SIZEOF_STRUCT_MEM }

  /** Block i given a new payload size: the counter always moves, the block only when it is cut. */
  function Resize(s: State, i: nat, size: nat): State
    requires i < |s.blocks|
  {
    var b := s.blocks[i];
    var t := s.(memUsed := s.memUsed - (b.end - b.start - SIZEOF_STRUCT_MEM - size));
    if Cuts(b, size) then PlugHoles(CutEnd(t, i, size), i + 1) else t
  }

  /** A live block in the state after its end has been cut off, before plug_holes is called. */
  function CutEnd(s: State, i: nat, size: nat): State
    requires i < |s.blocks|
  {
    s.(blocks := Splice(s.blocks, i, 1, Halves(s.blocks[i], size)))
  }

  function Realloc(s: State, p: int, request: U16): (State, Pointer)
  {
    var size := Align(request);
    if size > s.memSize then (s, Null)
    else if p < 0 || s.memSize <= p then (s, At(p))
    else
      var i := Find(s.blocks, p - SIZEOF_STRUCT_MEM, 0);
      if i == |s.blocks| then (s, At(p))
      else (Resize(s, i, size), At(p))
  }

  /** mem_init. */
  function Init(memSize: nat): State { State([Block(0, memSize, false)], 0, 0, memSize) }

  // ----- what every operation keeps -----

  ghost predicate FreeAt(b: seq<Block>, start: nat) { exists k :: 0 <= k < |b| && b[k].start == start && !b[k].used }

  /** The last block is never handed out whole. */
  ghost predicate LastFree(b: seq<Block>) { b != [] && !b[|b| - 1].used }

  /** The blocks partition the heap, no two neighbours are both free, the last block is free, and lfree is a
      free block. */
  ghost predicate Inv(s: State)
  {
    && ValidSize(s.memSize) && Spans(s.blocks, 0, s.memSize)
    && NoFreePair(s.blocks) && LastFree(s.blocks) && FreeAt(s.blocks, s.lfree)
  }

  lemma SpliceLastFree(b: seq<Block>, i: nat, n: nat, repl: seq<Block>)
    requires i + n <= |b| && LastFree(b) && LastFree(repl)
    ensures LastFree(Splice(b, i, n, repl))
  {
    SpliceAt(b, i, n, repl);
  }

  /** lfree is the lowest free block. */
  ghost predicate Lowest(s: State) { forall k | 0 <= k < |s.blocks| && !s.blocks[k].used :: s.lfree <= s.blocks[k].start }

  /** The counter is the extent of the used blocks. */
  ghost predicate Counted(s: State) { s.memUsed == UsedOctets(s.blocks) }

  /** Position j of a splice. */
  lemma SpliceAt(b: seq<Block>, i: nat, n: nat, repl: seq<Block>)
    requires i + n <= |b|
    ensures var r := Splice(b, i, n, repl);
            var m := i + |repl|;
            && |r| == |b| - n + |repl|
            && (forall j | 0 <= j < i :: r[j] == b[j])
            && (forall j | i <= j < m :: r[j] == repl[j - i])
            && (forall j | m <= j < |r| :: r[j] == b[j - m + i + n])
  {}

  /** A free block that is not replaced is still there. */
  lemma SpliceFreeAt(b: seq<Block>, i: nat, n: nat, repl: seq<Block>, start: nat)
    requires i + n <= |b| && FreeAt(b, start)
    requires FreeAt(repl, start) || forall j | i <= j < i + n :: b[j].start == start ==> b[j].used
    ensures FreeAt(Splice(b, i, n, repl), start)
  {
    SpliceAt(b, i, n, repl);
    var r := Splice(b, i, n, repl);
    if FreeAt(repl, start) {
      var k :| 0 <= k < |repl| && repl[k].start == start && !repl[k].used;
      assert r[i + k] == repl[k];
    } else {
      var k :| 0 <= k < |b| && b[k].start == start && !b[k].used;
      if k < i { assert r[k] == b[k]; } else { assert r[k - n + |repl|] == b[k]; }
    }
  }

  ghost predicate AllAbove(b: seq<Block>, low: nat) { forall k | 0 <= k < |b| && !b[k].used :: low <= b[k].start }

  lemma SpliceAbove(b: seq<Block>, i: nat, n: nat, repl: seq<Block>, low: nat)
    requires i + n <= |b| && AllAbove(b[..i], low) && AllAbove(repl, low) && AllAbove(b[i + n..], low)
    ensures AllAbove(Splice(b, i, n, repl), low)
  {
    SpliceAt(b, i, n, repl);
    assert forall j | i + n <= j < |b| :: b[j] == b[i + n..][j - i - n];
    assert forall j | 0 <= j < i :: b[j] == b[..i][j];
  }

  lemma FindIs(b: seq<Block>, i: nat)
    requires Chained(b) && i < |b|
    ensures Find(b, b[i].start, 0) == i
  {
    var k := Find(b, b[i].start, 0);
    if k < i { StartsRise(b, k, i); }
  }

  /** Cutting a free block in two: the first half used, the second free. */
  lemma CutFree(b: seq<Block>, k: nat, size: nat, hi: nat)
    requires Spans(b, 0, hi) && NoFreePair(b) && LastFree(b) && k < |b| && Fits(b[k], size) && size % MEM_ALIGNMENT == 0
    ensures var r := Splice(b, k, 1, Halves(b[k], size));
            && Spans(r, 0, hi) && NoFreePair(r) && LastFree(r) && UsedOctets(r) == UsedOctets(b) + size + SIZEOF_STRUCT_MEM
            && |r| == |b| + 1 && r[k] == Halves(b[k], size)[0] && r[k + 1] == Halves(b[k], size)[1]
  {
    var halves := Halves(b[k], size);
    assert k > 0 ==> b[k - 1].used;
    assert k + 1 < |b| ==> b[k + 1].used;
    HalvesSpan(b[k], size);
    hide Spans, Chained, Splice, UsedOctets, Halves;
    SpliceAt(b, k, 1, halves);
    CutUsed(b, k, size);
    SpliceSpans(b, k, 1, halves, 0, hi);
    SpliceNoFreePair(b, k, 1, halves);
    SpliceLastFree(b, k, 1, halves);
  }

  lemma HalvesSpan(b: Block, size: nat)
    requires Fits(b, size) && size % MEM_ALIGNMENT == 0 && b.start % MEM_ALIGNMENT == 0
    ensures var h := Halves(b, size);
            Spans(h, b.start, b.end) && NoFreePair(h) && |h| == 2 && h[0].used && !h[1].used
  {}

  lemma CutUsed(b: seq<Block>, k: nat, size: nat)
    requires k < |b| && Fits(b[k], size)
    ensures UsedOctets(Splice(b, k, 1, Halves(b[k], size))) == UsedOctets(b) + size + SIZEOF_STRUCT_MEM
  {
    hide Splice;
    UsedSplice(b, k, 1, Halves(b[k], size));
    UsedPair(b, k, Halves(b[k], size));
  }

  /** mem_malloc keeps the heap in order; the counter and the lowest-free hint stay right. */
  lemma MallocKeeps(s: State, request: U16)
    requires Inv(s)
    ensures var (t, p) := Malloc(s, request);
            && Inv(t) && (Lowest(s) ==> Lowest(t)) && (Counted(s) ==> Counted(t))
            && (p.Null? ==> t == s)
            && (p.At? ==> IsLive(t, p.offset) && !IsLive(s, p.offset))
  {
    var size := Align(request);
    var k := FindFit(s.blocks, size, Find(s.blocks, s.lfree, 0));
    AlignedSize(request);
    if Malloc(s, request).1.At? {
      hide Align, Find, FindFit;
      TakeKeeps(s, k, size);
    }
  }

  lemma TakeKeeps(s: State, k: nat, size: nat)
    requires Inv(s) && k < |s.blocks| && Fits(s.blocks[k], size) && size % MEM_ALIGNMENT == 0
    ensures var t := Take(s, k, size);
            && Inv(t) && (Lowest(s) ==> Lowest(t)) && (Counted(s) ==> Counted(t))
            && IsLive(t, Payload(s.blocks[k])) && !IsLive(s, Payload(s.blocks[k]))
  {
    OnlyOnePayload(s, k);
    hide IsLive, Spans, Chained, NoFreePair, Splice, UsedOctets, LastFree;
    var b := s.blocks[k];
    var t := Take(s, k, size);
    CutFree(s.blocks, k, size, s.memSize);
    if b.start == s.lfree {
      assert t.blocks[k + 1].start == t.lfree;
    } else {
      SpliceFreeAt(s.blocks, k, 1, Halves(b, size), s.lfree);
    }
    LiveAt(t, k);
    if Lowest(s) { MallocLowest(s, k, size); }
  }

  lemma LiveAt(s: State, k: nat)
    requires k < |s.blocks| && s.blocks[k].used
    ensures IsLive(s, Payload(s.blocks[k]))
  {}

  lemma AlignedSize(request: U16)
    ensures Align(request) % MEM_ALIGNMENT == 0
  {}

  lemma UsedPair(b: seq<Block>, k: nat, halves: seq<Block>)
    requires k < |b| && |halves| == 2
    ensures UsedOctets(b[k..k + 1]) == if b[k].used then b[k].end - b[k].start else 0
    ensures UsedOctets(halves) == (if halves[0].used then halves[0].end - halves[0].start else 0)
                                  + (if halves[1].used then halves[1].end - halves[1].start else 0)
  {
    assert b[k..k + 1] == [b[k]] && [b[k]][1..] == [];
    assert halves[1..] == [halves[1]] && halves[1..][1..] == [];
  }

  lemma OnlyOnePayload(s: State, k: nat)
    requires Inv(s) && k < |s.blocks| && !s.blocks[k].used
    ensures !IsLive(s, Payload(s.blocks[k]))
  {
    forall i | 0 <= i < |s.blocks| && Payload(s.blocks[i]) == Payload(s.blocks[k]) ensures i == k {
      if i < k { StartsRise(s.blocks, i, k); }
      if k < i { StartsRise(s.blocks, k, i); }
    }
  }

  lemma MallocLowest(s: State, k: nat, size: nat)
    requires Inv(s) && Lowest(s) && k < |s.blocks| && Fits(s.blocks[k], size)
    ensures AllAbove(Splice(s.blocks, k, 1, Halves(s.blocks[k], size)),
                     if s.blocks[k].start == s.lfree then s.lfree + SIZEOF_STRUCT_MEM + size else s.lfree)
  {
    var b := s.blocks;
    var low := if b[k].start == s.lfree then s.lfree + SIZEOF_STRUCT_MEM + size else s.lfree;
    forall j | 0 <= j < k && !b[j].used ensures low <= b[j].start { StartsRise(b, j, k); }
    forall j | k < j < |b| ensures low <= b[j].start || b[j].used { StartsRise(b, k, j); }
    SpliceAbove(b, k, 1, Halves(b[k], size), low);
  }

  lemma FitFrom(b: seq<Block>, size: nat, k: nat)
    requires k <= |b| && forall j | 0 <= j < k :: !Fits(b[j], size)
    ensures FindFit(b, size, 0) == FindFit(b, size, k)
  {
    var f, g := FindFit(b, size, k), FindFit(b, size, 0);
    assert g < |b| ==> Fits(b[g], size) && k <= g;
    assert f < |b| ==> Fits(b[f], size);
  }

  /** With the hint at the lowest free block, the search from it is first fit over the whole heap: malloc fails
      exactly when the request is empty or too large, or no block passes the size test. */
  lemma MallocIsFirstFit(s: State, request: U16)
    requires Inv(s) && Lowest(s)
    ensures var size := Align(request);
            var (t, p) := Malloc(s, request);
            && FindFit(s.blocks, size, Find(s.blocks, s.lfree, 0)) == FindFit(s.blocks, size, 0)
            && (p.Null? <==> request == 0 || size > s.memSize || forall i | 0 <= i < |s.blocks| :: !Fits(s.blocks[i], size))
            && (p.At? ==> exists i :: 0 <= i < |s.blocks| && Payload(s.blocks[i]) == p.offset && Fits(s.blocks[i], size)
                                      && forall j | 0 <= j < i :: !Fits(s.blocks[j], size))
  {
    var size := Align(request);
    var b := s.blocks;
    var k :| 0 <= k < |b| && b[k].start == s.lfree && !b[k].used;
    FindIs(b, k);
    forall j | 0 <= j < k ensures !Fits(b[j], size) { StartsRise(b, j, k); }
    var f := FindFit(b, size, k);
    FitFrom(b, size, k);
    if f < |b| { assert Fits(b[f], size) && Payload(b[f]) == b[f].start + SIZEOF_STRUCT_MEM; }
  }

  /** The block that malloc returns (block k) is aligned and inside the heap, and holds the request exactly when
      rounding up does not wrap. */
  lemma MallocSize(s: State, request: U16) returns (k: nat)
    requires Inv(s) && Malloc(s, request).1.At?
    ensures var (t, p) := Malloc(s, request);
            && k < |t.blocks| && Payload(t.blocks[k]) == p.offset && t.blocks[k].used
            && p.offset % MEM_ALIGNMENT == 0 && p.offset <= t.blocks[k].end <= s.memSize
            && (request <= t.blocks[k].end - p.offset <==> request <= 0xfffc)
  {
    k := FindFit(s.blocks, Align(request), Find(s.blocks, s.lfree, 0));
    AlignedSize(request);
    RoundedUp(request);
    TakenBlock(s, k, Align(request));
  }

  lemma TakenBlock(s: State, k: nat, size: nat)
    requires Inv(s) && k < |s.blocks| && Fits(s.blocks[k], size) && size % MEM_ALIGNMENT == 0
    ensures var b := Take(s, k, size).blocks;
            && k < |b| && b[k] == Halves(s.blocks[k], size)[0]
            && b[k].end <= s.memSize && Payload(b[k]) % MEM_ALIGNMENT == 0
  {
    CutFree(s.blocks, k, size, s.memSize);
    hide NoFreePair, UsedOctets, Splice, Spans, FreeAt, LastFree;
    assert Spans(Take(s, k, size).blocks, 0, s.memSize);
    assert s.blocks[k].start % MEM_ALIGNMENT == 0 by { StartAligned(s.blocks, k, s.memSize); }
    EndsInside(Take(s, k, size).blocks, k, s.memSize);
  }

  lemma StartAligned(b: seq<Block>, k: nat, hi: nat)
    requires Spans(b, 0, hi) && k < |b|
    ensures b[k].start % MEM_ALIGNMENT == 0
  {}

  lemma RoundedUp(request: U16)
    ensures request <= Align(request) <==> request <= 0xfffc
  {}

  lemma EndsInside(b: seq<Block>, k: nat, hi: nat)
    requires Spans(b, 0, hi) && k < |b|
    ensures b[k].end <= hi
  {
    if k < |b| - 1 { StartsRise(b, k, |b| - 1); }
  }
}
