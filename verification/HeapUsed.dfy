/** Which blocks are in use after each operation, and that they are disjoint. */
module HeapUsed {
  import opened Words
  import opened Heap
  import opened HeapFree
  import opened HeapRealloc

  /** The blocks in use. */
  ghost function UsedBlocks(b: seq<Block>): set<Block> { set x | x in b && x.used }

  lemma UsedBlocksJoin(a: seq<Block>, b: seq<Block>)
    ensures UsedBlocks(a + b) == UsedBlocks(a) + UsedBlocks(b)
  {}

  lemma UsedBlocksSplice(b: seq<Block>, i: nat, n: nat, repl: seq<Block>)
    requires i + n <= |b|
    ensures UsedBlocks(Splice(b, i, n, repl)) == UsedBlocks(b[..i]) + UsedBlocks(repl) + UsedBlocks(b[i + n..])
    ensures UsedBlocks(b) == UsedBlocks(b[..i]) + UsedBlocks(b[i..i + n]) + UsedBlocks(b[i + n..])
  {
    UsedBlocksJoin(b[..i] + repl, b[i + n..]);
    UsedBlocksJoin(b[..i], repl);
    assert b == b[..i] + b[i..i + n] + b[i + n..];
    UsedBlocksJoin(b[..i] + b[i..i + n], b[i + n..]);
    UsedBlocksJoin(b[..i], b[i..i + n]);
  }

  /** No block appears twice. */
  lemma BlockOnce(b: seq<Block>, i: nat)
    requires Chained(b) && i < |b|
    ensures b[i] !in b[..i] && b[i] !in b[i + 1..]
  {
    forall j | 0 <= j < |b| && j != i ensures b[j] != b[i] {
      if j < i { StartsRise(b, j, i); } else { StartsRise(b, i, j); }
    }
  }

  lemma PlugSameBlocks(s: State, i: nat)
    requires i < |s.blocks| && !s.blocks[i].used
    ensures UsedBlocks(PlugHoles(s, i).blocks) == UsedBlocks(s.blocks)
  {
    var b := s.blocks;
    var t := MergeForward(s, i);
    if i + 1 < |b| && !b[i + 1].used {
      MergeSameBlocks(b, i, Block(b[i].start, b[i + 1].end, b[i].used));
      SpliceAt(b, i, 2, [Block(b[i].start, b[i + 1].end, b[i].used)]);
    }
    var c := t.blocks;
    assert !c[i].used;
    if i > 0 && !c[i - 1].used {
      MergeSameBlocks(c, i - 1, Block(c[i - 1].start, c[i].end, false));
    }
  }

  lemma MergeSameBlocks(b: seq<Block>, i: nat, merged: Block)
    requires i + 1 < |b| && !b[i].used && !b[i + 1].used && !merged.used
    ensures UsedBlocks(Splice(b, i, 2, [merged])) == UsedBlocks(b)
  {
    UsedBlocksSplice(b, i, 2, [merged]);
    assert b[i..i + 2] == [b[i], b[i + 1]];
    assert UsedBlocks([merged]) == {} && UsedBlocks([b[i], b[i + 1]]) == {};
  }

  lemma OneReplaced(b: seq<Block>, i: nat, repl: seq<Block>)
    requires Chained(b) && i < |b|
    ensures UsedBlocks(Splice(b, i, 1, repl)) == (UsedBlocks(b) - {b[i]}) + UsedBlocks(repl)
  {
    BlockOnce(b, i);
    UsedBlocksSplice(b, i, 1, repl);
    assert b[i..i + 1] == [b[i]];
    assert b[i] !in UsedBlocks(b[..i]) && b[i] !in UsedBlocks(b[i + 1..]);
    assert UsedBlocks([b[i]]) <= {b[i]};
  }

  /** mem_malloc adds one block with the rounded payload size, and leaves every other used block as it was. */
  lemma MallocAdds(s: State, request: U16) returns (x: Block)
    requires Inv(s) && Malloc(s, request).1.At?
    ensures var (t, p) := Malloc(s, request);
            && x.used && Payload(x) == p.offset && x.end - p.offset == Align(request)
            && x !in UsedBlocks(s.blocks) && UsedBlocks(t.blocks) == UsedBlocks(s.blocks) + {x}
  {
    var size := Align(request);
    var k := FindFit(s.blocks, size, Find(s.blocks, s.lfree, 0));
    var b := s.blocks[k];
    x := Halves(b, size)[0];
    OneReplaced(s.blocks, k, Halves(b, size));
    assert UsedBlocks(Halves(b, size)) == {x};
    assert b !in UsedBlocks(s.blocks);
    OnlyOnePayload(s, k);
    hide Align, FindFit, Find, Splice;
    forall y | y in UsedBlocks(s.blocks) ensures y != x {
      var j :| 0 <= j < |s.blocks| && s.blocks[j] == y;
      assert Payload(y) != Payload(b);
    }
  }

  /** mem_free takes the freed block out of use, and leaves every other used block as it was. */
  lemma FreeRemoves(s: State, i: nat)
    requires Inv(s) && i < |s.blocks| && s.blocks[i].used
    ensures UsedBlocks(Free(s, At(Payload(s.blocks[i]))).blocks) == UsedBlocks(s.blocks) - {s.blocks[i]}
  {
    FreeIs(s, i);
    hide PlugHoles, Free, Find, Inv, UsedBlocks;
    ReleaseRemoves(s, i);
    PlugSameBlocks(Release(s, i), i);
  }

  lemma ReleaseRemoves(s: State, i: nat)
    requires Inv(s) && i < |s.blocks|
    ensures UsedBlocks(Release(s, i).blocks) == UsedBlocks(s.blocks) - {s.blocks[i]}
  {
    var b := s.blocks;
    var x := b[i].(used := false);
    assert Splice(b, i, 1, [x]) == b[i := x];
    assert UsedBlocks([x]) == {};
    OneReplaced(b, i, [x]);
  }

  /** mem_realloc never moves the block: only its end may come down, and every other used block stays as it was. */
  lemma ReallocShrinks(s: State, i: nat, request: U16)
    requires Inv(s) && i < |s.blocks| && s.blocks[i].used && Align(request) <= s.memSize
    ensures var b := s.blocks[i];
            var x := if Cuts(b, Align(request)) then Block(b.start, Payload(b) + Align(request), true) else b;
            UsedBlocks(Realloc(s, Payload(b), request).0.blocks) == (UsedBlocks(s.blocks) - {b}) + {x}
  {
    ReallocAt(s, i, request);
    hide Align, Realloc, Resize, UsedBlocks, NoFreePair, LastFree, FreeAt;
    ResizeShrinks(s, i, Align(request));
  }

  lemma ResizeShrinks(s: State, i: nat, size: nat)
    requires Chained(s.blocks) && i < |s.blocks| && s.blocks[i].used
    ensures var b := s.blocks[i];
            var x := if Cuts(b, size) then Block(b.start, Payload(b) + size, true) else b;
            UsedBlocks(Resize(s, i, size).blocks) == (UsedBlocks(s.blocks) - {b}) + {x}
  {
    var b := s.blocks[i];
    var t := s.(memUsed := s.memUsed - (b.end - b.start - SIZEOF_STRUCT_MEM - size));
    if Cuts(b, size) {
      ResizeIs(s, t, i, size);
      HalvesUsed(b, size);
      hide Chained, Splice, UsedBlocks, PlugHoles, Resize, Halves;
      OneReplaced(s.blocks, i, Halves(b, size));
      SecondHalf(t, i, size);
      PlugSameBlocks(CutEnd(t, i, size), i + 1);
    }
  }

  lemma HalvesUsed(b: Block, size: nat)
    ensures UsedBlocks(Halves(b, size)) == {Block(b.start, Payload(b) + size, true)}
  {}

  lemma SecondHalf(s: State, i: nat, size: nat)
    requires i < |s.blocks|
    ensures var r := CutEnd(s, i, size).blocks;
            i + 1 < |r| && !r[i + 1].used
  {
    SpliceAt(s.blocks, i, 1, Halves(s.blocks[i], size));
  }

  /** Any two blocks are disjoint, headers included. */
  lemma Disjoint(s: State, i: nat, j: nat)
    requires Inv(s) && i < |s.blocks| && j < |s.blocks| && i != j
    ensures s.blocks[i].end <= s.blocks[j].start || s.blocks[j].end <= s.blocks[i].start
  {
    if i < j { StartsRise(s.blocks, i, j); } else { StartsRise(s.blocks, j, i); }
  }
}
