/** mem_realloc: what cutting the end off a block keeps, and what it does not. */
module HeapRealloc {
  import opened Words
  import opened Heap
  import opened HeapFree

  lemma ReallocAt(s: State, i: nat, request: U16)
    requires Inv(s) && i < |s.blocks| && s.blocks[i].used && Align(request) <= s.memSize
    ensures Realloc(s, Payload(s.blocks[i]), request) == (Resize(s, i, Align(request)), At(Payload(s.blocks[i])))
  {
    hide Resize, Align;
    FindIs(s.blocks, i);
    LiveBelowEnd(s, i);
  }

  lemma CutEndKeeps(s: State, i: nat, size: nat)
    requires Inv(s) && i < |s.blocks| && s.blocks[i].used && Cuts(s.blocks[i], size) && size % MEM_ALIGNMENT == 0
    ensures var t := CutEnd(s, i, size);
            && Spans(t.blocks, 0, s.memSize) && FreeAt(t.blocks, s.lfree) && LastFree(t.blocks)
            && i + 1 < |t.blocks| && !t.blocks[i + 1].used
            && t.blocks[i + 1] == Halves(s.blocks[i], size)[1]
            && UsedOctets(t.blocks) == UsedOctets(s.blocks) - (s.blocks[i].end - s.blocks[i].start - SIZEOF_STRUCT_MEM - size)
            && forall j | 0 <= j < |t.blocks| - 1 && j != i && j != i + 1 :: t.blocks[j].used || t.blocks[j + 1].used
  {
    var b := s.blocks;
    var halves := Halves(b[i], size);
    var r := Splice(b, i, 1, halves);
    assert Spans(halves, b[i].start, b[i].end);
    CutEndUsed(b, i, size);
    hide UsedOctets, Splice, Spans, Chained;
    SpliceAt(b, i, 1, halves);
    SpliceSpans(b, i, 1, halves, 0, s.memSize);
    SpliceLastFree(b, i, 1, halves);
    SpliceFreeAt(b, i, 1, halves, s.lfree);
    CutEndPairs(b, i, halves);
  }

  lemma CutEndUsed(b: seq<Block>, i: nat, size: nat)
    requires i < |b| && b[i].used
    ensures UsedOctets(Splice(b, i, 1, Halves(b[i], size))) == UsedOctets(b) - (b[i].end - b[i].start - SIZEOF_STRUCT_MEM - size)
  {
    hide Splice;
    UsedSplice(b, i, 1, Halves(b[i], size));
    UsedPair(b, i, Halves(b[i], size));
  }

  lemma CutEndPairs(b: seq<Block>, i: nat, halves: seq<Block>)
    requires NoFreePair(b) && i < |b| && |halves| == 2
    ensures var r := Splice(b, i, 1, halves);
            forall j | 0 <= j < |r| - 1 && j != i && j != i + 1 && (j == i - 1 ==> halves[0].used) :: r[j].used || r[j + 1].used
  {
    SpliceAt(b, i, 1, halves);
    var r := Splice(b, i, 1, halves);
    hide Splice;
    forall j | 0 <= j < |r| - 1 && j != i && j != i + 1 && (j == i - 1 ==> halves[0].used) ensures r[j].used || r[j + 1].used {
      if j < i { assert b[j].used || b[j + 1].used; } else { assert b[j - 1].used || b[j].used; }
    }
  }

  /** mem_realloc of a live block keeps the heap in order. The counter stays right exactly when the block is cut or
      keeps its size, and the hint stays lowest exactly when no free block appears in front of it. */
  lemma ReallocKeeps(s: State, i: nat, request: U16)
    requires Inv(s) && i < |s.blocks| && s.blocks[i].used && Align(request) <= s.memSize
    ensures var size := Align(request);
            var b := s.blocks[i];
            var (t, p) := Realloc(s, Payload(b), request);
            && Inv(t) && p == At(Payload(b)) && t.memSize == s.memSize
            && (Counted(s) ==> (Counted(t) <==> Cuts(b, size) || size == b.end - b.start - SIZEOF_STRUCT_MEM))
            && (Lowest(s) ==> (Lowest(t) <==> !(Cuts(b, size) && b.end < s.lfree)))
  {
    AlignedSize(request);
    ReallocAt(s, i, request);
    hide Align, Realloc, Inv, Counted, Lowest, Cuts, Resize;
    ResizeKeeps(s, i, Align(request));
  }

  lemma ResizeKeeps(s: State, i: nat, size: nat)
    requires Inv(s) && i < |s.blocks| && s.blocks[i].used && size % MEM_ALIGNMENT == 0
    ensures var b := s.blocks[i];
            var t := Resize(s, i, size);
            && Inv(t) && t.memSize == s.memSize
            && (Counted(s) ==> (Counted(t) <==> Cuts(b, size) || size == b.end - b.start - SIZEOF_STRUCT_MEM))
            && (Lowest(s) ==> (Lowest(t) <==> !(Cuts(b, size) && b.end < s.lfree)))
  {
    var b := s.blocks[i];
    var t := s.(memUsed := s.memUsed - (b.end - b.start - SIZEOF_STRUCT_MEM - size));
    ResizeIs(s, t, i, size);
    hide *;
    if Cuts(b, size) {
      if Lowest(s) { ReallocLowest(s, t, i, size); }
      ReallocCut(s, t, i, size);
    } else {
      ReallocUncut(s, t, i, size);
    }
  }

  lemma ResizeIs(s: State, t: State, i: nat, size: nat)
    requires i < |s.blocks|
    requires t == s.(memUsed := s.memUsed - (s.blocks[i].end - s.blocks[i].start - SIZEOF_STRUCT_MEM - size))
    ensures !Cuts(s.blocks[i], size) ==> Resize(s, i, size) == t
    ensures Cuts(s.blocks[i], size) ==> i + 1 < |CutEnd(t, i, size).blocks| && Resize(s, i, size) == PlugHoles(CutEnd(t, i, size), i + 1)
  {}

  lemma ReallocUncut(s: State, t: State, i: nat, size: nat)
    requires Inv(s) && i < |s.blocks|
    requires t == s.(memUsed := s.memUsed - (s.blocks[i].end - s.blocks[i].start - SIZEOF_STRUCT_MEM - size))
    ensures Inv(t) && t.memSize == s.memSize && (Lowest(s) ==> Lowest(t))
    ensures Counted(s) ==> (Counted(t) <==> size == s.blocks[i].end - s.blocks[i].start - SIZEOF_STRUCT_MEM)
  {}

  lemma ReallocCut(s: State, t: State, i: nat, size: nat)
    requires Inv(s) && i < |s.blocks| && s.blocks[i].used && Cuts(s.blocks[i], size) && size % MEM_ALIGNMENT == 0
    requires t == s.(memUsed := s.memUsed - (s.blocks[i].end - s.blocks[i].start - SIZEOF_STRUCT_MEM - size))
    ensures i + 1 < |CutEnd(t, i, size).blocks|
    ensures var v := PlugHoles(CutEnd(t, i, size), i + 1);
            Inv(v) && v.memSize == s.memSize && (Counted(s) ==> Counted(v))
  {
    hide PlugHoles, UsedOctets, Spans, FreeAt, LastFree, Lowest, Halves;
    CutEndKeeps(t, i, size);
    var u := CutEnd(t, i, size);
    assert u.lfree == t.lfree && u.memSize == t.memSize && u.memUsed == t.memUsed;
    hide CutEnd;
    PlugKeeps(u, i + 1);
  }

  /** Where the hint stands relative to a used block. */
  lemma HintApart(s: State, i: nat)
    requires Inv(s) && i < |s.blocks| && s.blocks[i].used
    ensures s.lfree < s.blocks[i].start || s.blocks[i].end <= s.lfree
  {
    var k :| 0 <= k < |s.blocks| && s.blocks[k].start == s.lfree && !s.blocks[k].used;
    if k < i { StartsRise(s.blocks, k, i); } else { StartsRise(s.blocks, i, k); }
  }

  lemma ReallocLowest(s: State, t: State, i: nat, size: nat)
    requires Inv(s) && Lowest(s) && t == s.(memUsed := t.memUsed) && size % MEM_ALIGNMENT == 0
    requires i < |s.blocks| && s.blocks[i].used && Cuts(s.blocks[i], size)
    ensures i + 1 < |CutEnd(t, i, size).blocks|
    ensures Lowest(PlugHoles(CutEnd(t, i, size), i + 1)) <==> s.lfree <= s.blocks[i].end
  {
    HintApart(s, i);
    CutEndKeeps(s, i, size);
    SpliceAt(s.blocks, i, 1, Halves(s.blocks[i], size));
    var u := CutEnd(t, i, size);
    var start := u.blocks[i + 1].start;
    hide Splice, Spans, Inv, NoFreePair, FreeAt, LastFree;
    if s.blocks[i].end < s.lfree {
      assert i + 1 < |s.blocks| ==> s.blocks[i + 1].used by { NextStart(s, i); }
      NotMerged(u, i + 1);
    } else if s.lfree < s.blocks[i].start {
      assert Lowest(u);
      CutEndPlugs(s, u, i, size);
    } else {
      CutAtHint(s, u, i, size);
    }
  }

  lemma NextStart(s: State, i: nat)
    requires Inv(s) && i + 1 < |s.blocks|
    ensures s.blocks[i].end == s.blocks[i + 1].start
  {}

  lemma NotMerged(u: State, k: nat)
    requires 0 < k < |u.blocks| && u.blocks[k - 1].used && (k + 1 < |u.blocks| ==> u.blocks[k + 1].used)
    ensures PlugHoles(u, k) == u
  {}

  lemma CutEndPlugs(s: State, u: State, i: nat, size: nat)
    requires Inv(s) && i < |s.blocks| && s.blocks[i].used && Cuts(s.blocks[i], size) && size % MEM_ALIGNMENT == 0
    requires u == CutEnd(s, i, size).(lfree := u.lfree, memUsed := u.memUsed) && FreeAt(u.blocks, u.lfree) && Lowest(u)
    ensures i + 1 < |u.blocks| && Lowest(PlugHoles(u, i + 1))
  {
    CutEndKeeps(s, i, size);
    hide CutEnd, Inv, Spans, PlugHoles;
    PlugKeeps(u, i + 1);
  }

  /** The hint is the block right after the cut: it moves to the new block, which is merged with it. */
  lemma CutAtHint(s: State, u: State, i: nat, size: nat)
    requires Inv(s) && Lowest(s) && i < |s.blocks| && s.blocks[i].used && Cuts(s.blocks[i], size) && size % MEM_ALIGNMENT == 0
    requires u == CutEnd(s, i, size).(memUsed := u.memUsed) && s.lfree == s.blocks[i].end
    ensures i + 1 < |u.blocks| && Lowest(PlugHoles(u, i + 1))
  {
    HintNext(s, i);
    CutEndKeeps(s, i, size);
    SpliceAt(s.blocks, i, 1, Halves(s.blocks[i], size));
    var v := u.(lfree := u.blocks[i + 1].start);
    hide Splice, Spans, NoFreePair, LastFree;
    assert FreeAt(v.blocks, v.lfree);
    NewHintLowest(s, i, size);
    hide Inv;
    SameMerge(u, v, i + 1);
    CutEndPlugs(s, v, i, size);
  }

  lemma HintNext(s: State, i: nat)
    requires Inv(s) && i < |s.blocks| && s.blocks[i].used && s.lfree == s.blocks[i].end
    ensures i + 1 < |s.blocks| && !s.blocks[i + 1].used && s.blocks[i + 1].start == s.lfree
  {
    var b := s.blocks;
    var k :| 0 <= k < |b| && b[k].start == s.lfree && !b[k].used;
    if k < i { StartsRise(b, k, i); } else if i + 1 < k { StartsRise(b, i + 1, k); }
  }

  lemma NewHintLowest(s: State, i: nat, size: nat)
    requires Inv(s) && Lowest(s) && i < |s.blocks| && s.blocks[i].used && s.lfree == s.blocks[i].end && Cuts(s.blocks[i], size)
    ensures AllAbove(CutEnd(s, i, size).blocks, Halves(s.blocks[i], size)[1].start)
  {
    var b := s.blocks;
    hide Splice, Spans, NoFreePair, LastFree, FreeAt;
    forall j | 0 <= j < i ensures b[j].used { EarlierStart(s, j, i); }
    SpliceAbove(b, i, 1, Halves(b[i], size), Halves(b[i], size)[1].start);
  }

  lemma EarlierStart(s: State, j: nat, i: nat)
    requires Inv(s) && j < i < |s.blocks|
    ensures s.blocks[j].start < s.blocks[i].start < s.blocks[i].end
  {
    StartsRise(s.blocks, j, i);
  }

  lemma SameMerge(u: State, v: State, k: nat)
    requires 0 < k && k + 1 < |u.blocks| && v == u.(lfree := u.blocks[k].start) && u.lfree == u.blocks[k + 1].start
    requires u.blocks[k - 1].used && !u.blocks[k + 1].used && u.blocks[k].start < u.blocks[k + 1].start
    ensures PlugHoles(u, k) == PlugHoles(v, k)
  {
    var b := u.blocks;
    SpliceAt(b, k, 2, [Block(b[k].start, b[k + 1].end, b[k].used)]);
  }
}
