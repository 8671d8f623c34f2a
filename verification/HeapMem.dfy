/** mem.c as it runs: block headers with links in both directions, kept at the offset where a block starts. */
module HeapMem {
  import opened Words
  import opened Heap
  import opened HeapFree
  import opened HeapRealloc
  import opened HeapRuns

  /** The header of block i: next and prev lead to its neighbours; the first block is its own predecessor. */
  ghost predicate Header(b: seq<Block>, next: seq<nat>, prev: seq<nat>, used: seq<bool>, i: nat)
    requires i < |b|
  {
    && b[i].start < |next| == |prev| == |used| && next[b[i].start] == b[i].end && used[b[i].start] == b[i].used
    && prev[b[i].start] == if i == 0 then b[i].start else b[i - 1].start
  }

  /** The header fields describe the blocks; the header past the end of the heap is marked used. */
  ghost predicate Laid(b: seq<Block>, next: seq<nat>, prev: seq<nat>, used: seq<bool>, hi: nat)
  {
    && |next| == |prev| == |used| == hi + SIZEOF_STRUCT_MEM && used[hi] && Spans(b, 0, hi)
    && forall i | 0 <= i < |b| :: Header(b, next, prev, used, i)
  }

  /** Unlinking block i + 1, so that block i reaches to its end. */
  lemma LaidMerge(b: seq<Block>, next: seq<nat>, prev: seq<nat>, used: seq<bool>, hi: nat, i: nat)
    requires Laid(b, next, prev, used, hi) && i + 1 < |b|
    ensures b[i].start < |next| && b[i + 1].end < |prev|
    ensures var r := Splice(b, i, 2, [Block(b[i].start, b[i + 1].end, b[i].used)]);
            Laid(r, next[b[i].start := b[i + 1].end], prev[b[i + 1].end := b[i].start], used, hi)
  {
    var merged := Block(b[i].start, b[i + 1].end, b[i].used);
    var r := Splice(b, i, 2, [merged]);
    LaidShape(b, next, prev, used, hi);
    EndsInside(b, i + 1, hi);
    Order(b, i, i + 1, hi);
    assert Spans([merged], b[i].start, b[i + 1].end) by { StartAligned(b, i, hi); }
    SpliceSpans(b, i, 2, [merged], 0, hi);
    var n, p := next[b[i].start := b[i + 1].end], prev[b[i + 1].end := b[i].start];
    hide Laid, Splice, Spans, Header;
    SpliceAt(b, i, 2, [merged]);
    forall j | 0 <= j < |r| ensures Header(r, n, p, used, j) {
      MergeHeader(b, next, prev, used, hi, i, n, p, r, j);
    }
    LaidIf(r, n, p, used, hi);
  }

  lemma MergeHeader(b: seq<Block>, next: seq<nat>, prev: seq<nat>, used: seq<bool>, hi: nat, i: nat,
                    n: seq<nat>, p: seq<nat>, r: seq<Block>, j: nat)
    requires Laid(b, next, prev, used, hi) && i + 1 < |b| && |r| == |b| - 1 && j < |r| && b[i + 1].end < |prev| && b[i].start < |next|
    requires n == next[b[i].start := b[i + 1].end] && p == prev[b[i + 1].end := b[i].start]
    requires r[j] == if j < i then b[j] else if j == i then Block(b[i].start, b[i + 1].end, b[i].used) else b[j + 1]
    requires j > 0 ==> r[j - 1].start == if j - 1 <= i then b[j - 1].start else b[j].start
    ensures Header(r, n, p, used, j)
  {
    var o := if j <= i then j else j + 1;
    LaidShape(b, next, prev, used, hi);
    HeaderAt(b, next, prev, used, hi, o);
    HeaderAt(b, next, prev, used, hi, i);
    Order(b, o, i, hi);
    Order(b, o, i + 1, hi);
    Order(b, i, i + 1, hi);
    hide Laid, Spans;
  }

  lemma AlignedAt(b: seq<Block>, next: seq<nat>, prev: seq<nat>, used: seq<bool>, hi: nat, i: nat)
    requires Laid(b, next, prev, used, hi) && i < |b|
    ensures b[i].start % MEM_ALIGNMENT == 0
  {
    StartAligned(b, i, hi);
  }

  lemma Order(b: seq<Block>, i: nat, j: nat, hi: nat)
    requires Spans(b, 0, hi) && i < |b| && j < |b|
    ensures b[i].start + SIZEOF_STRUCT_MEM <= b[i].end
    ensures i < j ==> b[i].end <= b[j].start
    ensures j < i ==> b[j].end <= b[i].start
    ensures j + 1 == i ==> b[j].end == b[i].start
    ensures j + 1 < i ==> b[j].end < b[i].start
  {
    if i < j { StartsRise(b, i, j); }
    if j < i { StartsRise(b, j, i); }
    if j + 1 < i { StartsRise(b, j + 1, i); }
  }

  /** Cutting block i at mid: a header is written there and the next block, if any, is linked back to it. */
  lemma LaidCut(b: seq<Block>, next: seq<nat>, prev: seq<nat>, used: seq<bool>, hi: nat, i: nat, mid: nat)
    requires Laid(b, next, prev, used, hi) && i < |b| && mid % MEM_ALIGNMENT == 0
    requires b[i].start + SIZEOF_STRUCT_MEM <= mid && mid + SIZEOF_STRUCT_MEM <= b[i].end
    ensures mid < |next| && b[i].end < |prev| && b[i].start < |next|
    ensures var r := Splice(b, i, 1, [Block(b[i].start, mid, true), Block(mid, b[i].end, false)]);
            var p := prev[mid := b[i].start];
            Laid(r, next[mid := b[i].end][b[i].start := mid], if b[i].end == hi then p else p[b[i].end := mid],
                 used[mid := false][b[i].start := true], hi)
  {
    var r := Splice(b, i, 1, [Block(b[i].start, mid, true), Block(mid, b[i].end, false)]);
    LaidShape(b, next, prev, used, hi);
    EndsInside(b, i, hi);
    CutSpans(b, i, mid, hi);
    var n, q := next[mid := b[i].end][b[i].start := mid], prev[mid := b[i].start];
    var p := if b[i].end == hi then q else q[b[i].end := mid];
    var u := used[mid := false][b[i].start := true];
    assert |n| == |p| == |u| == hi + SIZEOF_STRUCT_MEM && u[hi];
    hide Laid, Splice, Spans, Header;
    assert |r| == |b| + 1 by { CutAt(b, i, mid, 0); }
    forall j | 0 <= j < |r| ensures Header(r, n, p, u, j) {
      CutAt(b, i, mid, j);
      CutHeaderAt(b, next, prev, used, hi, i, mid, n, p, u, r, j);
    }
    LaidIf(r, n, p, u, hi);
  }

  lemma LaidIf(b: seq<Block>, next: seq<nat>, prev: seq<nat>, used: seq<bool>, hi: nat)
    requires |next| == |prev| == |used| == hi + SIZEOF_STRUCT_MEM && used[hi] && Spans(b, 0, hi)
    requires forall i | 0 <= i < |b| :: Header(b, next, prev, used, i)
    ensures Laid(b, next, prev, used, hi)
  {}

  lemma LaidShape(b: seq<Block>, next: seq<nat>, prev: seq<nat>, used: seq<bool>, hi: nat)
    requires Laid(b, next, prev, used, hi)
    ensures |next| == |prev| == |used| == hi + SIZEOF_STRUCT_MEM && used[hi] && Spans(b, 0, hi)
  {}

  /** Position j of the blocks after a cut. */
  ghost predicate CutBlocks(b: seq<Block>, r: seq<Block>, i: nat, mid: nat, j: nat)
    requires i < |b| && |r| == |b| + 1 && j < |r|
  {
    && r[j] == (if j < i then b[j] else if j == i then Block(b[i].start, mid, true)
               else if j == i + 1 then Block(mid, b[i].end, false) else b[j - 1])
    && (j > 0 ==> r[j - 1].start == if j - 1 <= i then b[j - 1].start else if j - 1 == i + 1 then mid else b[j - 2].start)
  }

  lemma CutAt(b: seq<Block>, i: nat, mid: nat, j: nat)
    requires i < |b| && j < |b| + 1
    ensures var r := Splice(b, i, 1, [Block(b[i].start, mid, true), Block(mid, b[i].end, false)]);
            |r| == |b| + 1 && CutBlocks(b, r, i, mid, j)
  {
    SpliceAt(b, i, 1, [Block(b[i].start, mid, true), Block(mid, b[i].end, false)]);
  }

  lemma CutHeaderAt(b: seq<Block>, next: seq<nat>, prev: seq<nat>, used: seq<bool>, hi: nat, i: nat, mid: nat,
                    n: seq<nat>, p: seq<nat>, u: seq<bool>, r: seq<Block>, j: nat)
    requires Laid(b, next, prev, used, hi) && i < |b| && |r| == |b| + 1 && j < |r|
    requires b[i].start < mid < b[i].end <= hi
    requires n == next[mid := b[i].end][b[i].start := mid]
    requires p == if b[i].end == hi then prev[mid := b[i].start] else prev[mid := b[i].start][b[i].end := mid]
    requires u == used[mid := false][b[i].start := true]
    requires CutBlocks(b, r, i, mid, j)
    ensures Header(r, n, p, u, j)
  {
    var o := if j <= i then j else j - 1;
    LaidShape(b, next, prev, used, hi);
    HeaderAt(b, next, prev, used, hi, o);
    hide Laid, Spans, Header;
    Order(b, o, i, hi);
    EndsInside(b, o, hi);
    CutHeader(b, next, prev, used, hi, i, mid, n, p, u, r, j);
  }

  lemma HeaderAt(b: seq<Block>, next: seq<nat>, prev: seq<nat>, used: seq<bool>, hi: nat, o: nat)
    requires Laid(b, next, prev, used, hi) && o < |b|
    ensures Header(b, next, prev, used, o)
  {}

  lemma CutHeader(b: seq<Block>, next: seq<nat>, prev: seq<nat>, used: seq<bool>, hi: nat, i: nat, mid: nat,
                  n: seq<nat>, p: seq<nat>, u: seq<bool>, r: seq<Block>, j: nat)
    requires i < |b| && |r| == |b| + 1 && j < |r| && |next| == |prev| == |used| == hi + SIZEOF_STRUCT_MEM
    requires b[i].start < mid < b[i].end <= hi
    requires n == next[mid := b[i].end][b[i].start := mid]
    requires p == if b[i].end == hi then prev[mid := b[i].start] else prev[mid := b[i].start][b[i].end := mid]
    requires u == used[mid := false][b[i].start := true]
    requires CutBlocks(b, r, i, mid, j)
    requires var o := if j <= i then j else j - 1;
             && Header(b, next, prev, used, o) && b[o].start < b[o].end <= hi
             && (o < i ==> b[o].end <= b[i].start) && (i < o ==> b[i].end <= b[o].start)
             && (i + 1 == o ==> b[i].end == b[o].start) && (i + 1 < o ==> b[i].end < b[o].start)
    ensures Header(r, n, p, u, j)
  {}

  lemma CutSpans(b: seq<Block>, i: nat, mid: nat, hi: nat)
    requires Spans(b, 0, hi) && i < |b| && mid % MEM_ALIGNMENT == 0
    requires b[i].start + SIZEOF_STRUCT_MEM <= mid && mid + SIZEOF_STRUCT_MEM <= b[i].end
    ensures Spans(Splice(b, i, 1, [Block(b[i].start, mid, true), Block(mid, b[i].end, false)]), 0, hi)
  {
    SpliceSpans(b, i, 1, [Block(b[i].start, mid, true), Block(mid, b[i].end, false)], 0, hi);
  }

  class Mem {
    const memSize: nat
    const next: array<nat>
    const prev: array<nat>
    const used: array<bool>
    var lfree: nat
    var memUsed: int
    ghost var blocks: seq<Block>

    /** The headers describe the blocks. */
    ghost predicate Linked()
      reads this, next, prev, used
    {
      next != prev && Laid(blocks, next[..], prev[..], used[..], memSize)
    }

    ghost function View(): State
      reads this
    {
      State(blocks, lfree, memUsed, memSize)
    }

    ghost predicate Valid()
      reads this, next, prev, used
    {
      Linked() && Inv(View())
    }

    /** mem_init. */
    constructor (size: nat)
      requires ValidSize(size)
      ensures Valid() && View() == Init(size) && fresh(next) && fresh(prev) && fresh(used)
    {
      memSize, lfree, memUsed := size, 0, 0;
      blocks := [Block(0, size, false)];
      next := new nat[size + SIZEOF_STRUCT_MEM](_ => 0);
      prev := new nat[size + SIZEOF_STRUCT_MEM](_ => 0);
      used := new bool[size + SIZEOF_STRUCT_MEM](_ => false);
      new;
      next[0], prev[0], used[0] := size, 0, false;
      used[size], next[size], prev[size] := true, size, size;
      InitInv(size);
    }

    /** Merge the free block at mem (block i) with free neighbours. */
    method Plug(mem: nat, ghost i: nat)
      requires Linked() && i < |blocks| && blocks[i].start == mem && !blocks[i].used
      modifies this, next, prev
      ensures Linked() && View() == Heap.PlugHoles(old(View()), i)
    {
      HeaderAt(blocks, next[..], prev[..], used[..], memSize, i);
      PlugForward(mem, i);
      PlugBackward(mem, i);
    }

    method PlugForward(mem: nat, ghost i: nat)
      requires Linked() && i < |blocks| && blocks[i].start == mem && !blocks[i].used
      modifies this, next, prev
      ensures Linked() && View() == MergeForward(old(View()), i)
    {
      NextHeader(blocks, next[..], prev[..], used[..], memSize, i);
      hide Laid, Splice;
      var nmem := next[mem];
      if mem != nmem && !used[nmem] && nmem != memSize {
        ghost var b := blocks;
        LaidMerge(b, next[..], prev[..], used[..], memSize, i);
        if lfree == nmem { lfree := mem; }
        next[mem] := next[nmem];
        prev[next[nmem]] := mem;
        blocks := Splice(b, i, 2, [Block(b[i].start, b[i + 1].end, b[i].used)]);
      }
    }

    method PlugBackward(mem: nat, ghost i: nat)
      requires Linked() && i < |blocks| && blocks[i].start == mem && !blocks[i].used
      modifies this, next, prev
      ensures Linked() && View() == MergeBackward(old(View()), i)
    {
      NextHeader(blocks, next[..], prev[..], used[..], memSize, i);
      hide Laid, Splice;
      var pmem := prev[mem];
      if pmem != mem && !used[pmem] {
        ghost var b := blocks;
        LaidMerge(b, next[..], prev[..], used[..], memSize, i - 1);
        if lfree == mem { lfree := pmem; }
        next[pmem] := next[mem];
        prev[next[mem]] := pmem;
        blocks := Splice(b, i - 1, 2, [Block(b[i - 1].start, b[i].end, b[i - 1].used)]);
      }
    }

    /** mem_free. */
    method Free(p: Pointer)
      requires Valid() && MayFree(View(), p)
      modifies this, next, prev, used
      ensures Valid() && View() == Heap.Free(old(View()), p)
    {
      hide Laid, Inv, Heap.Free, Heap.PlugHoles, Splice;
      FreeKeeps(View(), p);
      if p.Null? || p.offset < 0 || memSize <= p.offset {
        FreeIgnored(View(), p);
        return;
      }
      ghost var i := LiveIndex(View(), p.offset);
      FreeIs(View(), i);
      NextHeader(blocks, next[..], prev[..], used[..], memSize, i);
      LaidRelease(blocks, next[..], prev[..], used[..], memSize, i);
      var mem := p.offset - SIZEOF_STRUCT_MEM;
      used[mem] := false;
      if mem < lfree { lfree := mem; }
      memUsed := memUsed - (next[mem] - mem);
      blocks := blocks[i := blocks[i].(used := false)];
      assert View() == Release(old(View()), i);
      Plug(mem, i);
    }

    /** Cut block i at mid: a free block with its own header is linked in behind it. */
    method Cut(ptr: nat, mid: nat, ghost i: nat)
      requires Linked() && i < |blocks| && blocks[i].start == ptr && mid % MEM_ALIGNMENT == 0
      requires ptr + SIZEOF_STRUCT_MEM <= mid && mid + SIZEOF_STRUCT_MEM <= blocks[i].end
      modifies this`blocks, next, prev, used
      ensures Linked()
      ensures blocks == Splice(old(blocks), i, 1, [Block(ptr, mid, true), Block(mid, old(blocks)[i].end, false)])
    {
      ghost var b := blocks;
      NextHeader(b, next[..], prev[..], used[..], memSize, i);
      LaidCut(b, next[..], prev[..], used[..], memSize, i, mid);
      hide Laid, Splice;
      prev[mid] := ptr;
      next[mid] := next[ptr];
      next[ptr] := mid;
      if next[mid] != memSize { prev[next[mid]] := mid; }
      used[mid] := false;
      used[ptr] := true;
      blocks := Splice(b, i, 1, [Block(ptr, mid, true), Block(mid, b[i].end, false)]);
    }

    /** Take block k for `size` octets, and move lfree on to the next free block if it was this one. */
    method TakeBlock(ptr: nat, size: nat, ghost k: nat)
      requires Linked() && k < |blocks| && blocks[k].start == ptr && Fits(blocks[k], size) && size % MEM_ALIGNMENT == 0
      modifies this, next, prev, used
      ensures Linked() && View() == Take(old(View()), k, size)
    {
      ghost var b := blocks;
      var mid := ptr + SIZEOF_STRUCT_MEM + size;
      hide Laid, Splice, Spans, Header;
      AlignedAt(b, next[..], prev[..], used[..], memSize, k);
      Cut(ptr, mid, k);
      assert Halves(b[k], size) == [Block(ptr, mid, true), Block(mid, b[k].end, false)];
      memUsed := memUsed + (size + SIZEOF_STRUCT_MEM);
      CutAt(b, k, mid, k);
      CutAt(b, k, mid, k + 1);
      hide Halves;
      if ptr == lfree {
        NextHeader(blocks, next[..], prev[..], used[..], memSize, k);
        while used[lfree] && lfree != memSize
          invariant Linked() && (lfree == ptr || lfree == mid)
          decreases memSize - lfree
          modifies this`lfree
        {
          lfree := next[lfree];
        }
        assert !used[lfree];
      }
    }

    /** mem_malloc. */
    method Malloc(request: U16) returns (p: Pointer)
      requires Valid()
      modifies this, next, prev, used
      ensures Valid() && (View(), p) == Heap.Malloc(old(View()), request)
    {
      hide Laid, Inv, Heap.Malloc, Find, FindFit, Take, Lowest, Counted, IsLive;
      ghost var s := View();
      MallocKeeps(s, request);
      MallocSameSize(s, request);
      var size := request;
      if size % MEM_ALIGNMENT != 0 {
        size := Add16(size, MEM_ALIGNMENT - Add16(size, SIZEOF_STRUCT_MEM) % MEM_ALIGNMENT);
      }
      MallocIs(s, request);
      HintIndex(s);
      AlignedSize(request);
      hide Align;
      if request == 0 || size > memSize { return Null; }
      var ptr := lfree;
      ghost var k := Find(blocks, lfree, 0);
      while ptr < memSize
        invariant Linked() && View() == s
        invariant 0 <= k <= |blocks| && (ptr < memSize <==> k < |blocks|)
        invariant ptr == if k < |blocks| then blocks[k].start else memSize
        invariant FindFit(blocks, size, k) == FindFit(blocks, size, Find(blocks, lfree, 0))
        decreases memSize - ptr
      {
        NextHeader(blocks, next[..], prev[..], used[..], memSize, k);
        FitStep(blocks, size, k);
        if !used[ptr] && next[ptr] - (ptr + SIZEOF_STRUCT_MEM) >= size + SIZEOF_STRUCT_MEM {
          TakeBlock(ptr, size, k);
          return At(ptr + SIZEOF_STRUCT_MEM);
        }
        ptr := next[ptr];
        k := k + 1;
      }
      p := Null;
    }

    /** mem_realloc; `taken` says that it returns with mem_sem still taken, which it does for a pointer outside the
        heap. */
    method Realloc(offset: int, request: U16) returns (p: Pointer, taken: bool)
      requires Valid() && Allowed(View(), ReallocOp(offset, request))
      modifies this, next, prev, used
      ensures Valid() && (View(), p) == Heap.Realloc(old(View()), offset, request)
      ensures taken <==> Align(request) <= memSize && !(0 <= offset < memSize)
    {
      ghost var s := View();
      StepKeeps(s, ReallocOp(offset, request));
      var newsize := request;
      if newsize % MEM_ALIGNMENT != 0 {
        newsize := Add16(newsize, MEM_ALIGNMENT - Add16(newsize, SIZEOF_STRUCT_MEM) % MEM_ALIGNMENT);
      }
      AlignedSize(request);
      if newsize > memSize { return Null, false; }
      taken := true;
      if offset < 0 || memSize <= offset { return At(offset), taken; }
      p := At(offset);
      ghost var i := LiveIndex(s, offset);
      ReallocAt(s, i, request);
      hide Laid, Inv, Heap.Realloc, Align;
      NextHeader(blocks, next[..], prev[..], used[..], memSize, i);
      ResizeBlock(offset - SIZEOF_STRUCT_MEM, newsize, i);
      taken := false;
    }

    method ResizeBlock(ptr: nat, newsize: nat, ghost i: nat)
      requires Linked() && i < |blocks| && blocks[i].start == ptr && blocks[i].used && newsize % MEM_ALIGNMENT == 0
      modifies this, next, prev, used
      ensures Linked() && View() == Resize(old(View()), i, newsize)
    {
      hide Laid, Splice, Heap.PlugHoles, Resize, Spans, Header;
      ghost var s := View();
      ghost var b := blocks[i];
      ghost var t := s.(memUsed := s.memUsed - (b.end - b.start - SIZEOF_STRUCT_MEM - newsize));
      ResizeIs(s, t, i, newsize);
      NextHeader(blocks, next[..], prev[..], used[..], memSize, i);
      AlignedAt(blocks, next[..], prev[..], used[..], memSize, i);
      var size := next[ptr] - ptr - SIZEOF_STRUCT_MEM;
      memUsed := memUsed - (size - newsize);
      if newsize + SIZEOF_STRUCT_MEM + MIN_SIZE < size {
        CutAt(s.blocks, i, ptr + SIZEOF_STRUCT_MEM + newsize, i + 1);
        Cut(ptr, ptr + SIZEOF_STRUCT_MEM + newsize, i);
        assert View() == CutEnd(t, i, newsize);
        hide CutEnd, Halves, Cuts;
        Plug(ptr + SIZEOF_STRUCT_MEM + newsize, i + 1);
      }
    }
  }

  lemma MallocIs(s: State, request: U16)
    ensures var size := Align(request);
            var k := FindFit(s.blocks, size, Find(s.blocks, s.lfree, 0));
            Heap.Malloc(s, request) == if request == 0 || size > s.memSize || k == |s.blocks| then (s, Null)
                                       else (Take(s, k, size), At(Payload(s.blocks[k])))
  {}

  lemma HintIndex(s: State)
    requires Inv(s)
    ensures var k := Find(s.blocks, s.lfree, 0);
            k < |s.blocks| && s.blocks[k].start == s.lfree < s.memSize
  {
    var k :| 0 <= k < |s.blocks| && s.blocks[k].start == s.lfree && !s.blocks[k].used;
    FindIs(s.blocks, k);
    EndsInside(s.blocks, k, s.memSize);
  }

  lemma FitStep(b: seq<Block>, size: nat, k: nat)
    requires k <= |b|
    ensures FindFit(b, size, k) == if k == |b| || Fits(b[k], size) then k else FindFit(b, size, k + 1)
  {}

  lemma FreeIgnored(s: State, p: Pointer)
    requires p.Null? || p.offset < 0 || s.memSize <= p.offset
    ensures Heap.Free(s, p) == s
  {}

  lemma LiveIndex(s: State, p: int) returns (i: nat)
    requires IsLive(s, p)
    ensures i < |s.blocks| && Payload(s.blocks[i]) == p && s.blocks[i].used
  {
    i :| 0 <= i < |s.blocks| && Payload(s.blocks[i]) == p && s.blocks[i].used;
  }

  lemma LaidRelease(b: seq<Block>, next: seq<nat>, prev: seq<nat>, used: seq<bool>, hi: nat, i: nat)
    requires Laid(b, next, prev, used, hi) && i < |b|
    ensures b[i].start < |used| && Laid(b[i := b[i].(used := false)], next, prev, used[b[i].start := false], hi)
  {
    LaidShape(b, next, prev, used, hi);
    var r := b[i := b[i].(used := false)];
    ReleasedSpans(b, i, hi);
    hide Spans;
    EndsInside(b, i, hi);
    var u := used[b[i].start := false];
    forall j | 0 <= j < |r| ensures Header(r, next, prev, u, j) {
      assert Header(b, next, prev, used, j);
      Order(b, j, i, hi);
    }
  }

  /** What next says of block i: its neighbour, or the end of the heap. */
  lemma NextHeader(b: seq<Block>, next: seq<nat>, prev: seq<nat>, used: seq<bool>, hi: nat, i: nat)
    requires Laid(b, next, prev, used, hi) && i < |b|
    ensures |next| == |prev| == |used| == hi + SIZEOF_STRUCT_MEM && used[hi]
    ensures b[i].start < b[i].end <= hi && next[b[i].start] == b[i].end && used[b[i].start] == b[i].used
    ensures b[i].end == hi <==> i + 1 == |b|
    ensures i + 1 < |b| ==> b[i].end == b[i + 1].start < b[i + 1].end <= hi
    ensures i + 1 < |b| ==> next[b[i].end] == b[i + 1].end && used[b[i].end] == b[i + 1].used
    ensures prev[b[i].start] == if i == 0 then b[i].start else b[i - 1].start
    ensures i > 0 ==> b[i - 1].start < b[i].start && used[b[i - 1].start] == b[i - 1].used
  {
    EndsInside(b, i, hi);
    HeaderAt(b, next, prev, used, hi, i);
    if i > 0 {
      HeaderAt(b, next, prev, used, hi, i - 1);
    }
    if i + 1 < |b| {
      HeaderAt(b, next, prev, used, hi, i + 1);
      EndsInside(b, i + 1, hi);
    }
  }
}
