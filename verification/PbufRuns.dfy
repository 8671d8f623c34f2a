/** Any sequence of operations on packet buffers. */
module PbufRuns {
  import opened Words
  import opened PbufSpec
  import opened PbufAlloc
  import opened PbufOps

  datatype Op =
    | Take(length: U16, offset: nat)
    | Make(kind: Kind, data: Piece16)
    | Free(p: nat)
    | AddRef(p: nat)
    | Concatenate(h: nat, t: nat)
    | Link(h: nat, t: nat)
    | Dechain(p: nat)
    | Shrink(p: nat, n: nat)

  /** What the caller of an operation must see to. */
  ghost predicate May(w: World, op: Op)
  {
    && Owned(w, -1)
    && match op
       case Take(_, offset) => offset <= PBUF_POOL_BUFSIZE
       case Make(kind, _) => kind != Pool
       case Free(p) => Live(w.bufs, p) && w.outside[p] > 0
       case AddRef(p) => Live(w.bufs, p)
       case Concatenate(h, t) => MayCat(w, h, t)
       case Link(h, t) => MayCat(w, h, t)
       case Dechain(p) => Live(w.bufs, p)
       case Shrink(p, n) => MayShrink(w, p, n)
  }

  ghost function Step(w: World, op: Op): World
    requires May(w, op)
  {
    match op
    case Take(length, offset) => Allocated(w, length, offset).0
    case Make(kind, data) => Fresh(w, kind, data)
    case Free(p) => Given(w, p)
    case AddRef(p) => Ref(w, p)
    case Concatenate(h, t) => Cat(w, h, t)
    case Link(h, t) => Ref(Cat(w, h, t), t)
    case Dechain(p) => Dechained(w, p)
    case Shrink(p, n) => Reallocated(w, p, n)
  }

  /** A 16-bit count has room for one more reference where one is added. */
  ghost predicate HasRoom(w: World, op: Op)
    requires May(w, op)
  {
    match op
    case AddRef(p) => w.bufs[p].ref < 0xffff
    case Link(_, t) => w.bufs[t].ref < 0xffff
    case _ => true
  }

  /** Every operation leaves ownership in order, exactly when the count it raises has room. */
  lemma StepOwned(w: World, op: Op)
    requires May(w, op)
    ensures Owned(Step(w, op), -1) <==> HasRoom(w, op)
  {
    hide Owned, Allocated, Fresh, Given, Ref, Cat, Dechained, Reallocated, MayShrink, Content, Building, Restored;
    OwnedSized(w, -1);
    match op
    case Take(length, offset) => AllocIs(w, length, offset);
    case Make(kind, data) => FreshKeeps(w, kind, data);
    case Free(p) => GivenKeeps(w, p);
    case AddRef(p) => RefKeeps(w, p);
    case Concatenate(h, t) => CatKeeps(w, h, t);
    case Link(h, t) =>
      CatKeeps(w, h, t);
      CatRef(w, h, t);
      RefKeeps(Cat(w, h, t), t);
    case Dechain(p) => DechainKeeps(w, p);
    case Shrink(p, n) => ReallocKeeps(w, p, n);
  }

  /** When an operation leaves every total right: nothing is added or cut off, or no other chain joins the changed one
      from the side; and a sum fits 16 bits. */
  ghost predicate Fits(w: World, op: Op)
    requires May(w, op)
  {
    match op
    case Concatenate(h, t) => CatFits(w, h, t)
    case Link(h, t) => CatFits(w, h, t)
    case Dechain(p) => w.bufs[p].totLen == |w.bufs[p].data| || NoSideChain(w, w.path[p], p)
    case Shrink(p, n) =>
      n >= w.bufs[p].totLen || var m := Place(w.bufs, w.path[p], n).0; m < |w.path[p]| && NoSideChain(w, w.path[p], w.path[p][m])
    case _ => true
  }

  lemma StepTotals(w: World, op: Op)
    requires May(w, op) && Sized(w) && Totals(w)
    ensures Sized(Step(w, op)) && (Totals(Step(w, op)) <==> Fits(w, op))
  {
    hide Owned, Totals, Allocated, Fresh, Given, Cat, Dechained, Content, Building, Restored, NoSideChain, Place, CatFits;
    match op
    case Take(length, offset) => AllocTotals(w, length, offset);
    case Make(kind, data) => FreshTotals(w, kind, data);
    case Free(p) => GivenKeeps(w, p);
    case AddRef(p) => RefTotals(w, p);
    case Concatenate(h, t) => CatTotals(w, h, t);
    case Link(h, t) =>
      CatRef(w, h, t);
      CatTotals(w, h, t);
      RefTotals(Cat(w, h, t), t);
    case Dechain(p) => DechainTotals(w, p);
    case Shrink(p, n) => if n < w.bufs[p].totLen { ReallocTotals(w, p, n); }
  }

  // ----- runs -----

  /** The callers keep to the rules, and no count overflows. */
  ghost predicate Permitted(w: World, ops: seq<Op>)
    decreases |ops|
  {
    ops == [] || (May(w, ops[0]) && HasRoom(w, ops[0]) && Permitted(Step(w, ops[0]), ops[1..]))
  }

  ghost function Run(w: World, ops: seq<Op>): World
    requires Permitted(w, ops)
    decreases |ops|
  {
    if ops == [] then w else Run(Step(w, ops[0]), ops[1..])
  }

  /** Over any run counts, links, the pool and what is alive stay in order. */
  lemma {:induction false} RunOwned(w: World, ops: seq<Op>)
    requires Owned(w, -1) && Permitted(w, ops)
    ensures Owned(Run(w, ops), -1)
    decreases |ops|
  {
    hide Owned, May, Step;
    if ops != [] {
      StepOwned(w, ops[0]);
      RunOwned(Step(w, ops[0]), ops[1..]);
    }
  }

  /** Every total is right all the way. */
  ghost predicate RightThroughout(w: World, ops: seq<Op>)
    requires Permitted(w, ops)
    decreases |ops|
  {
    Sized(w) && Totals(w) && (ops == [] || RightThroughout(Step(w, ops[0]), ops[1..]))
  }

  /** Every step keeps the totals right. */
  ghost predicate FitsThroughout(w: World, ops: seq<Op>)
    requires Permitted(w, ops)
    decreases |ops|
  {
    ops == [] || (Fits(w, ops[0]) && FitsThroughout(Step(w, ops[0]), ops[1..]))
  }

  lemma {:induction false} RunTotals(w: World, ops: seq<Op>)
    requires Owned(w, -1) && Permitted(w, ops) && Sized(w) && Totals(w)
    ensures RightThroughout(w, ops) <==> FitsThroughout(w, ops)
    decreases |ops|
  {
    hide Owned, May, Step, Totals, Fits;
    if ops != [] {
      StepOwned(w, ops[0]);
      StepTotals(w, ops[0]);
      if Totals(Step(w, ops[0])) { RunTotals(Step(w, ops[0]), ops[1..]); }
    }
  }

  // ----- nothing is lost -----

  /** A buffer that is linked to. */
  lemma {:induction false} LinkFrom(bufs: seq<Buf>, i: int) returns (j: nat)
    requires Links(bufs, i) > 0
    ensures Live(bufs, j) && bufs[j].next == i
    decreases |bufs|
  {
    var n := |bufs| - 1;
    if Points(bufs[n], i) > 0 {
      j := n;
    } else {
      j := LinkFrom(bufs[..n], i);
    }
  }

  /** Of the first k buffers, the live one with the longest chain. */
  lemma {:induction false} Longest(w: World, k: nat) returns (i: int)
    requires Sized(w) && k <= |w.bufs|
    ensures i == -1 ==> forall g | 0 <= g < k :: !w.bufs[g].live
    ensures i != -1 ==> Live(w.bufs, i) && i < k && forall g | 0 <= g < k && w.bufs[g].live :: |w.path[g]| <= |w.path[i]|
    decreases k
  {
    i := -1;
    if k > 0 {
      i := Longest(w, k - 1);
      if w.bufs[k - 1].live && (i == -1 || |w.path[k - 1]| > |w.path[i]|) { i := k - 1; }
    }
  }

  /** A buffer no caller refers to is linked to from a longer chain. */
  lemma LinkedFrom(w: World, i: nat) returns (j: nat)
    requires Owned(w, -1) && Live(w.bufs, i) && Sized(w) && w.outside[i] == 0
    ensures Live(w.bufs, j) && |w.path[j]| > |w.path[i]|
  {
    assert CountOk(w, i, -1);
    j := LinkFrom(w.bufs, i);
    assert PathOk(w, j);
  }

  /** When the callers have given up every reference, no buffer is alive and the pool has all of its buffers. */
  lemma AllReturned(w: World)
    requires Owned(w, -1) && forall i | 0 <= i < |w.outside| :: w.outside[i] == 0
    ensures forall i | 0 <= i < |w.bufs| :: !w.bufs[i].live && (i in w.pool <==> w.bufs[i].kind == Pool)
  {
    var i := Longest(w, |w.bufs|);
    if i != -1 { var _ := LinkedFrom(w, i); }
  }

  // ----- what goes wrong at 16 bits -----

  ghost const Nothing := World([], [], [], [])

  /** Two buffers of 40000 octets that nothing else refers to: after pbuf_cat the total of the first is 14464. */
  lemma TotalWraps()
    ensures var d := Zeros(40000);
            var w := Fresh(Fresh(Nothing, Ram, d), Ram, d);
            && Sized(w) && Totals(w) && MayCat(w, 0, 1) && NoSideChain(w, w.path[0], Last(w.path[0]))
            && var t := Cat(w, 0, 1);
               t.bufs[0].totLen == 14464 && Sized(t) && |Content(t, 0)| == 80000 && !Totals(t)
  {
    hide Owned, Concat;
    var d := Zeros(40000);
    var v := Fresh(Nothing, Ram, d);
    var w := Fresh(v, Ram, d);
    assert Owned(Nothing, -1) && Totals(Nothing) by { NothingOwned(); }
    FreshKeeps(Nothing, Ram, d);
    FreshTotals(Nothing, Ram, d);
    FreshKeeps(v, Ram, d);
    FreshTotals(v, Ram, d);
    assert w.path == [[0], [1]];
    CatContent(w, 0, 1, 0);
    AloneContent(w, 0);
    AloneContent(w, 1);
  }

  lemma NothingOwned()
    ensures Owned(Nothing, -1) && Sized(Nothing) && Totals(Nothing)
  {}

  /** A buffer that 65535 callers refer to: one more pbuf_ref, and its count is 0 while it is alive. */
  lemma CountWraps()
    ensures var w := World([Buf(Ram, true, -1, [], 0, 0xffff)], [], [0xffff], [[0]]);
            Owned(w, -1) && May(w, AddRef(0)) && Ref(w, 0).bufs[0].live && Ref(w, 0).bufs[0].ref == 0
  {
    var w := World([Buf(Ram, true, -1, [], 0, 0xffff)], [], [0xffff], [[0]]);
    assert w.bufs[..0] == [];
    assert Links(w.bufs, 0) == 0;
    assert PathOk(w, 0) && CountOk(w, 0, -1);
  }
}
