/** mem_free and plug_holes: merging a freed block with its neighbours. */
module HeapFree {
  import opened Words
  import opened Heap

  ghost predicate NoFreePairBut(b: seq<Block>, i: int)
  {
    forall j | 0 <= j < |b| - 1 && j != i :: b[j].used || b[j + 1].used
  }

  lemma MergeTwo(b: seq<Block>, i: nat, hi: nat, merged: Block)
    requires Spans(b, 0, hi) && i + 1 < |b| && !b[i].used && !b[i + 1].used
    requires merged == Block(b[i].start, b[i + 1].end, false)
    ensures var r := Splice(b, i, 2, [merged]);
            && Spans(r, 0, hi) && UsedOctets(r) == UsedOctets(b) && r[i] == merged
  {
    MergeUsed(b, i, merged);
    hide Splice, UsedOctets;
    SpliceAt(b, i, 2, [merged]);
    SpliceSpans(b, i, 2, [merged], 0, hi);
  }

  lemma MergeUsed(b: seq<Block>, i: nat, merged: Block)
    requires i + 1 < |b| && !b[i].used && !b[i + 1].used && !merged.used
    ensures UsedOctets(Splice(b, i, 2, [merged])) == UsedOctets(b)
  {
    hide Splice;
    UsedSplice(b, i, 2, [merged]);
    assert b[i..i + 2] == [b[i], b[i + 1]];
    UsedPair(b, i, [b[i], b[i + 1]]);
    assert [merged][1..] == [];
  }

  /** Merging two free neighbours, and moving lfree if it was the second of them. */
  lemma MergeKeeps(s: State, i: nat)
    requires ValidSize(s.memSize) && Spans(s.blocks, 0, s.memSize) && i + 1 < |s.blocks|
    requires !s.blocks[i].used && !s.blocks[i + 1].used && FreeAt(s.blocks, s.lfree)
    ensures var b := s.blocks;
            var merged := Block(b[i].start, b[i + 1].end, false);
            var r := Splice(b, i, 2, [merged]);
            var low := if s.lfree == b[i + 1].start then b[i].start else s.lfree;
            && Spans(r, 0, s.memSize) && UsedOctets(r) == UsedOctets(b) && FreeAt(r, low)
            && (Lowest(s) ==> AllAbove(r, low))
  {
    var b := s.blocks;
    var merged := Block(b[i].start, b[i + 1].end, false);
    MergeTwo(b, i, s.memSize, merged);
    hide UsedOctets, Splice;
    MergeFreeAt(b, i, merged, s.lfree);
    if Lowest(s) { MergeAbove(b, i, merged, s.lfree); }
  }

  lemma MergeFreeAt(b: seq<Block>, i: nat, merged: Block, lfree: nat)
    requires i + 1 < |b| && FreeAt(b, lfree) && !merged.used && merged.start == b[i].start
    ensures FreeAt(Splice(b, i, 2, [merged]), if lfree == b[i + 1].start then b[i].start else lfree)
  {
    SpliceAt(b, i, 2, [merged]);
    var r := Splice(b, i, 2, [merged]);
    hide Splice;
    if lfree == b[i].start || lfree == b[i + 1].start {
      assert r[i] == merged;
    } else {
      SpliceFreeAt(b, i, 2, [merged], lfree);
    }
  }

  lemma MergeAbove(b: seq<Block>, i: nat, merged: Block, lfree: nat)
    requires Chained(b) && i + 1 < |b| && AllAbove(b, lfree) && !b[i].used && !b[i + 1].used && merged.start == b[i].start
    ensures AllAbove(Splice(b, i, 2, [merged]), if lfree == b[i + 1].start then b[i].start else lfree)
  {
    hide Splice;
    assert lfree <= b[i].start < b[i + 1].start;
    SpliceAbove(b, i, 2, [merged], lfree);
  }

  lemma MergeNoPair(b: seq<Block>, i: nat, merged: Block, but: int)
    requires i + 1 < |b| && !merged.used
    requires forall j | 0 <= j < |b| - 1 && j != i && j != but :: b[j].used || b[j + 1].used
    requires but == i - 1 || (but == -1 && forall j | 0 <= j < |b| - 1 && j != i :: b[j].used || b[j + 1].used)
    requires !b[i].used && !b[i + 1].used
    requires LastFree(b)
    ensures NoFreePairBut(Splice(b, i, 2, [merged]), but) && LastFree(Splice(b, i, 2, [merged]))
  {
    SpliceAt(b, i, 2, [merged]);
    SpliceLastFree(b, i, 2, [merged]);
    var r := Splice(b, i, 2, [merged]);
    forall j | 0 <= j < |r| - 1 && j != but ensures r[j].used || r[j + 1].used {
      if j + 1 < i { assert b[j].used || b[j + 1].used; }
      else if j + 1 == i { assert b[j].used; }
      else if j == i { assert b[j + 2].used; }
      else { assert b[j + 1].used || b[j + 2].used; }
    }
  }

  /** plug_holes restores the order around a block that has just become free. */
  lemma PlugKeeps(s: State, i: nat)
    requires ValidSize(s.memSize) && Spans(s.blocks, 0, s.memSize) && FreeAt(s.blocks, s.lfree) && LastFree(s.blocks)
    requires i < |s.blocks| && !s.blocks[i].used
    requires forall j | 0 <= j < |s.blocks| - 1 && j != i && j != i - 1 :: s.blocks[j].used || s.blocks[j + 1].used
    ensures var t := PlugHoles(s, i);
            && Inv(t) && (Lowest(s) ==> Lowest(t)) && UsedOctets(t.blocks) == UsedOctets(s.blocks)
            && t.memUsed == s.memUsed && t.memSize == s.memSize && t.lfree <= s.lfree
  {
    ForwardKeeps(s, i);
    var t := MergeForward(s, i);
    hide MergeForward, MergeBackward;
    BackwardKeeps(t, i);
  }

  lemma ForwardKeeps(s: State, i: nat)
    requires ValidSize(s.memSize) && Spans(s.blocks, 0, s.memSize) && FreeAt(s.blocks, s.lfree) && LastFree(s.blocks)
    requires i < |s.blocks| && !s.blocks[i].used
    requires forall j | 0 <= j < |s.blocks| - 1 && j != i && j != i - 1 :: s.blocks[j].used || s.blocks[j + 1].used
    ensures var t := MergeForward(s, i);
            && Spans(t.blocks, 0, s.memSize) && FreeAt(t.blocks, t.lfree) && NoFreePairBut(t.blocks, i - 1)
            && LastFree(t.blocks)
            && i < |t.blocks| && !t.blocks[i].used && t.blocks[i].start == s.blocks[i].start
            && (Lowest(s) ==> Lowest(t)) && UsedOctets(t.blocks) == UsedOctets(s.blocks)
            && t.memUsed == s.memUsed && t.memSize == s.memSize && t.lfree <= s.lfree
  {
    if i + 1 < |s.blocks| && !s.blocks[i + 1].used {
      var merged := Block(s.blocks[i].start, s.blocks[i + 1].end, false);
      hide Splice, UsedOctets, Spans, FreeAt;
      MergeKeeps(s, i);
      MergeNoPair(s.blocks, i, merged, i - 1);
      SpliceAt(s.blocks, i, 2, [merged]);
    }
  }

  lemma BackwardKeeps(s: State, i: nat)
    requires ValidSize(s.memSize) && Spans(s.blocks, 0, s.memSize) && FreeAt(s.blocks, s.lfree) && LastFree(s.blocks)
    requires i < |s.blocks| && !s.blocks[i].used && NoFreePairBut(s.blocks, i - 1)
    ensures var t := MergeBackward(s, i);
            && Inv(t) && (Lowest(s) ==> Lowest(t)) && UsedOctets(t.blocks) == UsedOctets(s.blocks)
            && t.memUsed == s.memUsed && t.memSize == s.memSize && t.lfree <= s.lfree
  {
    if i > 0 { StartsRise(s.blocks, i - 1, i); }
    hide Splice, UsedOctets, Spans, FreeAt, NoFreePair;
    if i > 0 && !s.blocks[i - 1].used {
      var merged := Block(s.blocks[i - 1].start, s.blocks[i].end, false);
      MergeKeeps(s, i - 1);
      BackwardPairs(s.blocks, i, merged);
    } else {
      NoPairLeft(s.blocks, i);
    }
  }

  lemma BackwardPairs(b: seq<Block>, i: nat, merged: Block)
    requires NoFreePairBut(b, i - 1) && LastFree(b) && 0 < i < |b| && !b[i - 1].used && !b[i].used && !merged.used
    ensures NoFreePair(Splice(b, i - 1, 2, [merged])) && LastFree(Splice(b, i - 1, 2, [merged]))
  {
    hide Splice;
    MergeNoPair(b, i - 1, merged, -1);
  }

  lemma NoPairLeft(b: seq<Block>, i: nat)
    requires NoFreePairBut(b, i - 1) && i < |b| && (i == 0 || b[i - 1].used)
    ensures NoFreePair(b)
  {}

  /** A live block ends before the end of the heap. */
  lemma LiveBelowEnd(s: State, i: nat)
    requires Inv(s) && i < |s.blocks| && s.blocks[i].used
    ensures Payload(s.blocks[i]) < s.memSize
  {
    StartsRise(s.blocks, i, |s.blocks| - 1);
  }

  lemma FreeIs(s: State, i: nat)
    requires Inv(s) && i < |s.blocks| && s.blocks[i].used
    ensures Free(s, At(Payload(s.blocks[i]))) == PlugHoles(Release(s, i), i)
  {
    hide PlugHoles, Release;
    LiveBelowEnd(s, i);
    FindIs(s.blocks, i);
  }

  /** mem_free keeps the heap in order; the counter and the lowest-free hint stay right. */
  lemma FreeKeeps(s: State, p: Pointer)
    requires Inv(s) && MayFree(s, p)
    ensures var t := Free(s, p);
            Inv(t) && (Lowest(s) ==> Lowest(t)) && (Counted(s) ==> Counted(t)) && t.memSize == s.memSize
  {
    if p.At? && 0 <= p.offset < s.memSize {
      var i :| 0 <= i < |s.blocks| && Payload(s.blocks[i]) == p.offset && s.blocks[i].used;
      FreeIs(s, i);
      hide *;
      ReleaseKeeps(s, i);
    }
  }

  lemma ReleaseKeeps(s: State, i: nat)
    requires Inv(s) && i < |s.blocks| && s.blocks[i].used
    ensures var t := PlugHoles(Release(s, i), i);
            Inv(t) && (Lowest(s) ==> Lowest(t)) && (Counted(s) ==> Counted(t)) && t.memSize == s.memSize
  {
    var t := Release(s, i);
    ReleasedUsed(s.blocks, i);
    ReleasedSpans(s.blocks, i, s.memSize);
    ReleasedFree(s, i);
    ReleasedPairs(s.blocks, i);
    assert Lowest(s) ==> Lowest(t);
    hide UsedOctets, PlugHoles, Spans, FreeAt, NoFreePair, Lowest;
    PlugKeeps(t, i);
  }

  lemma ReleasedSpans(b: seq<Block>, i: nat, hi: nat)
    requires Spans(b, 0, hi) && i < |b|
    ensures Spans(b[i := b[i].(used := false)], 0, hi)
  {}

  lemma ReleasedFree(s: State, i: nat)
    requires i < |s.blocks| && s.blocks[i].used && FreeAt(s.blocks, s.lfree)
    ensures FreeAt(Release(s, i).blocks, Release(s, i).lfree)
    ensures LastFree(s.blocks) ==> LastFree(Release(s, i).blocks)
  {
    var t := Release(s, i);
    var k :| 0 <= k < |s.blocks| && s.blocks[k].start == s.lfree && !s.blocks[k].used;
    assert t.blocks[k] == s.blocks[k];
    assert !t.blocks[i].used && t.blocks[i].start == s.blocks[i].start;
  }

  lemma ReleasedPairs(b: seq<Block>, i: nat)
    requires NoFreePair(b) && i < |b|
    ensures var r := b[i := b[i].(used := false)];
            forall j | 0 <= j < |r| - 1 && j != i && j != i - 1 :: r[j].used || r[j + 1].used
  {
    var r := b[i := b[i].(used := false)];
    forall j | 0 <= j < |r| - 1 && j != i && j != i - 1 ensures r[j].used || r[j + 1].used {
      assert b[j].used || b[j + 1].used;
    }
  }

  lemma ReleasedUsed(b: seq<Block>, i: nat)
    requires i < |b| && b[i].used
    ensures UsedOctets(b[i := b[i].(used := false)]) == UsedOctets(b) - (b[i].end - b[i].start)
  {
    var x := b[i].(used := false);
    UsedSplice(b, i, 1, [x]);
    UsedPair(b, i, [x, x]);
    assert Splice(b, i, 1, [x]) == b[i := x];
    assert [x][1..] == [];
  }
}
