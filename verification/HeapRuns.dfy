/** Sequences of operations on the heap. */
module HeapRuns {
  import opened Words
  import opened Heap
  import opened HeapFree
  import opened HeapRealloc
  import opened HeapUsed

  datatype Op = AllocOp(request: U16) | FreeOp(p: Pointer) | ReallocOp(offset: int, request: U16)

  /** What a caller must observe: only live blocks are freed or resized. */
  ghost predicate Allowed(s: State, op: Op)
  {
    match op
    case AllocOp(_) => true
    case FreeOp(p) => MayFree(s, p)
    case ReallocOp(p, request) => p < 0 || s.memSize <= p || IsLive(s, p)
  }

  function Step(s: State, op: Op): State
  {
    match op
    case AllocOp(request) => Malloc(s, request).0
    case FreeOp(p) => Free(s, p)
    case ReallocOp(p, request) => Realloc(s, p, request).0
  }

  function Run(s: State, ops: seq<Op>): State
    decreases |ops|
  {
    if ops == [] then s else Run(Step(s, ops[0]), ops[1..])
  }

  ghost predicate AllowedRun(s: State, ops: seq<Op>)
    decreases |ops|
  {
    ops == [] || (Allowed(s, ops[0]) && AllowedRun(Step(s, ops[0]), ops[1..]))
  }

  lemma StepKeeps(s: State, op: Op)
    requires Inv(s) && Allowed(s, op)
    ensures var t := Step(s, op);
            && Inv(t) && t.memSize == s.memSize
            && (!op.ReallocOp? && Lowest(s) ==> Lowest(t)) && (!op.ReallocOp? && Counted(s) ==> Counted(t))
  {
    hide Inv, Malloc, Free, Lowest, Counted, Align;
    match op
    case AllocOp(request) =>
      MallocKeeps(s, request);
      MallocSameSize(s, request);
    case FreeOp(p) => FreeKeeps(s, p);
    case ReallocOp(p, request) =>
      if 0 <= p < s.memSize && Align(request) <= s.memSize {
        var i :| 0 <= i < |s.blocks| && Payload(s.blocks[i]) == p && s.blocks[i].used;
        hide Realloc, Payload;
        ReallocKeeps(s, i, request);
      }
  }

  lemma MallocSameSize(s: State, request: U16)
    ensures Malloc(s, request).0.memSize == s.memSize
  {}

  /** After any sequence of operations the blocks still partition the heap, no two neighbours are both free and lfree
      is a free block. Without realloc, lfree is the lowest one and the counter is exact. */
  lemma {:induction false} RunKeeps(s: State, ops: seq<Op>)
    requires Inv(s) && AllowedRun(s, ops)
    ensures var t := Run(s, ops);
            && Inv(t) && t.memSize == s.memSize
            && ((forall op | op in ops :: !op.ReallocOp?) ==> (Lowest(s) ==> Lowest(t)) && (Counted(s) ==> Counted(t)))
    decreases |ops|
  {
    hide Inv, Allowed, Step, Lowest, Counted;
    if ops != [] {
      StepKeeps(s, ops[0]);
      RunKeeps(Step(s, ops[0]), ops[1..]);
      assert forall op | op in ops[1..] :: op in ops;
    }
  }

  // ----- what callers hold -----

  /** The operation is told to free or resize the block with this payload. */
  predicate Names(op: Op, payload: int) { op == FreeOp(At(payload)) || (op.ReallocOp? && op.offset == payload) }

  /** A used block that an operation is not told to touch stays where it is, with the extent it has. */
  lemma StepSpares(s: State, op: Op, x: Block)
    requires Inv(s) && Allowed(s, op) && x in UsedBlocks(s.blocks) && !Names(op, Payload(x))
    ensures x in UsedBlocks(Step(s, op).blocks)
  {
    match op
    case AllocOp(request) =>
      MallocKeeps(s, request);
      hide Inv, Malloc;
      if Malloc(s, request).1.At? {
        var _ := MallocAdds(s, request);
      }
    case FreeOp(p) =>
      if p.At? && 0 <= p.offset < s.memSize {
        var i :| 0 <= i < |s.blocks| && Payload(s.blocks[i]) == p.offset && s.blocks[i].used;
        hide Inv, Free;
        FreeRemoves(s, i);
      }
    case ReallocOp(p, request) =>
      if 0 <= p < s.memSize && Align(request) <= s.memSize {
        var i :| 0 <= i < |s.blocks| && Payload(s.blocks[i]) == p && s.blocks[i].used;
        hide Inv, Realloc, Align;
        ReallocShrinks(s, i, request);
      }
  }

  /** Over any run, what a caller holds is not moved, resized or handed out again until it is freed or resized. */
  lemma {:induction false} RunSpares(s: State, ops: seq<Op>, x: Block)
    requires Inv(s) && AllowedRun(s, ops) && x in UsedBlocks(s.blocks)
    requires forall op | op in ops :: !Names(op, Payload(x))
    ensures x in UsedBlocks(Run(s, ops).blocks)
    decreases |ops|
  {
    hide Inv, Allowed, Step, UsedBlocks;
    if ops != [] {
      StepKeeps(s, ops[0]);
      StepSpares(s, ops[0], x);
      assert forall op | op in ops[1..] :: op in ops;
      RunSpares(Step(s, ops[0]), ops[1..], x);
    }
  }

  /** mem_init gives a heap in order. */
  lemma InitInv(memSize: nat)
    requires ValidSize(memSize)
    ensures Inv(Init(memSize)) && Lowest(Init(memSize)) && Counted(Init(memSize))
  {
    var s := Init(memSize);
    assert s.blocks[0].start == 0 && !s.blocks[0].used;
    assert s.blocks[1..] == [];
  }

  lemma PairAt(b: seq<Block>, i: nat)
    requires NoFreePair(b) && i + 1 < |b|
    ensures b[i].used || b[i + 1].used
  {}

  /** Once nothing is in use, the heap is again the single free block that mem_init made; the counter is back at
      zero when it was exact. */
  lemma AllFreed(s: State)
    requires Inv(s) && forall i | 0 <= i < |s.blocks| :: !s.blocks[i].used
    ensures s == Init(s.memSize).(memUsed := s.memUsed) && (Counted(s) ==> s == Init(s.memSize))
  {
    var b := s.blocks;
    if |b| > 1 {
      PairAt(b, 0);
      assert false;
    }
    assert |b| == 1 && b[0] == Block(0, s.memSize, false);
    assert b == [Block(0, s.memSize, false)];
    assert b[1..] == [];
    assert UsedOctets(b) == 0;
  }
}
