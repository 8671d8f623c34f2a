/** The PPP device: packets into chains of pool buffers on the way out, octets into packets on the way in. */
module PppLine {
  import opened PppFcsTable
  import opened PppFcs
  import opened PppFrame

  function Flat(chain: seq<seq<Octet>>): seq<Octet>
  {
    if chain == [] then [] else chain[0] + Flat(chain[1..])
  }

  lemma {:induction false} FlatJoin(a: seq<seq<Octet>>, b: seq<seq<Octet>>)
    ensures Flat(a + b) == Flat(a) + Flat(b)
    decreases |a|
  {
    if a == [] {
      assert a + b == b;
    } else {
      assert (a + b)[1..] == a[1..] + b;
      FlatJoin(a[1..], b);
    }
  }

  /** The last buffer of a chain, and the octets in front of it. */
  lemma FlatLast(chain: seq<seq<Octet>>)
    requires chain != []
    ensures var n := |chain| - 1;
            Flat(chain) == Flat(chain[..n]) + chain[n]
  {
    var n := |chain| - 1;
    assert chain == chain[..n] + [chain[n]] && [chain[n]][1..] == [];
    FlatJoin(chain[..n], [chain[n]]);
  }

  // ----- sending -----

  /** pppAppend: a character goes into the last buffer if two octets still fit there, else into a new one. */
  function Appended(bufs: seq<seq<Octet>>, piece: seq<Octet>): (r: seq<seq<Octet>>)
    requires bufs != []
    ensures r != [] && |bufs| <= |r|
  {
    var n := |bufs| - 1;
    if PBUF_POOL_BUFSIZE - |bufs[n]| < 2 then bufs + [piece] else bufs[n := bufs[n] + piece]
  }

  function Packed(bufs: seq<seq<Octet>>, out: Accm, cs: seq<Octet>): (r: seq<seq<Octet>>)
    requires bufs != []
    ensures r != []
    decreases |cs|
  {
    if cs == [] then bufs else Packed(Appended(bufs, Stuffed(out, cs[0])), out, cs[1..])
  }

  /** The buffers of a whole frame. */
  function FrameBuffers(out: Accm, body: seq<Octet>): seq<seq<Octet>>
  {
    Appended(Packed(Appended([[]], [FLAG]), out, Checked(body)), [FLAG])
  }

  predicate Fit(bufs: seq<seq<Octet>>) { forall b | b in bufs :: |b| <= PBUF_POOL_BUFSIZE }

  lemma AppendedIs(bufs: seq<seq<Octet>>, piece: seq<Octet>)
    requires bufs != [] && |piece| <= 2 && Fit(bufs)
    ensures var t := Appended(bufs, piece);
            t != [] && Flat(t) == Flat(bufs) + piece && Fit(t) && |bufs| <= |t|
  {
    var n := |bufs| - 1;
    var t := Appended(bufs, piece);
    FlatLast(bufs);
    FlatLast(t);
    if PBUF_POOL_BUFSIZE - |bufs[n]| < 2 {
      assert t[..n + 1] == bufs;
    } else {
      assert t[..n] == bufs[..n];
      assert forall i | 0 <= i < n :: t[i] == bufs[i];
    }
  }

  lemma StuffedShort(out: Accm, c: Octet)
    ensures |Stuffed(out, c)| <= 2
  {}

  lemma {:induction false} PackedIs(bufs: seq<seq<Octet>>, out: Accm, cs: seq<Octet>)
    requires bufs != [] && Fit(bufs)
    ensures var t := Packed(bufs, out, cs);
            t != [] && Flat(t) == Flat(bufs) + Stuff(out, cs) && Fit(t) && |bufs| <= |t|
    decreases |cs|
  {
    hide Stuffed, Fit, Flat, Appended;
    if cs != [] {
      var piece := Stuffed(out, cs[0]);
      StuffedShort(out, cs[0]);
      AppendedIs(bufs, piece);
      PackedIs(Appended(bufs, piece), out, cs[1..]);
      assert (Flat(bufs) + piece) + Stuff(out, cs[1..]) == Flat(bufs) + (piece + Stuff(out, cs[1..]));
    } else {
      assert Flat(bufs) + [] == Flat(bufs);
    }
  }

  /** The buffers hold exactly the frame, and none is overfilled. */
  lemma FrameBuffersHold(out: Accm, body: seq<Octet>)
    ensures Flat(FrameBuffers(out, body)) == Frame(out, body) && Fit(FrameBuffers(out, body))
  {
    hide Fit, Stuff, Checked, Appended, Packed;
    var cs := Checked(body);
    var bufs := Appended([[]], [FLAG]);
    assert Fit([[]]) && Flat([[]]) == [] by { EmptyBuffer(); }
    AppendedIs([[]], [FLAG]);
    PackedIs(bufs, out, cs);
    AppendedIs(Packed(bufs, out, cs), [FLAG]);
    assert [] + [FLAG] == [FLAG];
  }

  lemma EmptyBuffer()
    ensures Fit([[]]) && Flat([[]]) == []
  {
    var e: seq<seq<Octet>> := [[]];
    assert e[1..] == [] && e[0] + [] == [];
  }

  // ----- receiving -----

  /** Data octets a buffer of the input chain can hold. */
  function Room(i: nat): nat { if i == 0 then PBUF_POOL_BUFSIZE - INPUT_HEADER else PBUF_POOL_BUFSIZE }

  /** All buffers but the last are full, and the last is not empty. */
  ghost predicate Filled(chain: seq<seq<Octet>>)
  {
    && (forall i | 0 <= i < |chain| - 1 :: |chain[i]| == Room(i))
    && (chain != [] ==> 0 < |chain[|chain| - 1]| <= Room(|chain| - 1))
  }

  lemma {:induction false} FilledLength(chain: seq<seq<Octet>>, k: nat)
    requires k < |chain| && forall i | 0 <= i < k :: |chain[i]| == Room(i)
    ensures (|Flat(chain[..k])| + INPUT_HEADER) % PBUF_POOL_BUFSIZE == if k == 0 then INPUT_HEADER else 0
    decreases k
  {
    if k == 0 {
      assert chain[..0] == [];
    } else {
      FilledLength(chain, k - 1);
      var c := chain[..k];
      assert c[..k - 1] == chain[..k - 1];
      FlatLast(c);
    }
  }

  /** A new buffer is needed exactly when there is none yet or the last one is full. */
  lemma WhenNeeded(r: Receiver, chain: seq<seq<Octet>>)
    requires Filled(chain) && r.open == (chain != []) && r.data == Flat(chain)
    ensures NeedsBuffer(r) <==> chain == [] || |chain[|chain| - 1]| == Room(|chain| - 1)
  {
    if chain != [] {
      var n := |chain| - 1;
      FilledLength(chain, n);
      FlatLast(chain);
      LengthModulo(|Flat(chain[..n])| + INPUT_HEADER, |chain[n]|, if n == 0 then INPUT_HEADER else 0);
    }
  }

  lemma LengthModulo(front: nat, last: nat, m: nat)
    requires front % PBUF_POOL_BUFSIZE == m && m < PBUF_POOL_BUFSIZE && 0 < last <= PBUF_POOL_BUFSIZE - m
    ensures (front + last) % PBUF_POOL_BUFSIZE == 0 <==> last == PBUF_POOL_BUFSIZE - m
  {}

  /** Taking two octets off the end of a chain: from the last buffer if it has them, else from the last two. */
  function Trimmed(chain: seq<seq<Octet>>): seq<seq<Octet>>
    requires Filled(chain) && |Flat(chain)| >= 2 && chain != []
  {
    var n := |chain| - 1;
    if |chain[n]| >= 2 then chain[n := chain[n][..|chain[n]| - 2]]
    else if n == 0 then chain
    else chain[..n][n - 1 := chain[n - 1][..|chain[n - 1]| - 1]]
  }

  lemma TrimmedIs(chain: seq<seq<Octet>>)
    requires Filled(chain) && chain != [] && |Flat(chain)| >= 2
    ensures Flat(Trimmed(chain)) == Flat(chain)[..|Flat(chain)| - 2]
  {
    var n := |chain| - 1;
    assert Flat(chain[..0]) == [];
    FlatLast(chain);
    hide Flat;
    if |chain[n]| >= 2 {
      TrimLast(chain, 2);
    } else {
      assert n > 0;
      hide Filled;
      TrimTwo(chain);
    }
  }

  lemma TrimTwo(chain: seq<seq<Octet>>)
    requires |chain| >= 2 && |chain[|chain| - 1]| == 1 && |chain[|chain| - 2]| >= 1
    ensures |Flat(chain)| >= 2
    ensures var n := |chain| - 1;
            Flat(chain[..n][n - 1 := chain[n - 1][..|chain[n - 1]| - 1]]) == Flat(chain)[..|Flat(chain)| - 2]
  {
    hide Flat;
    var n := |chain| - 1;
    var front := chain[..n];
    FlatLast(chain);
    FlatLast(front);
    TrimLast(front, 1);
  }

  lemma TrimLast(chain: seq<seq<Octet>>, k: nat)
    requires chain != [] && k <= |chain[|chain| - 1]|
    ensures k <= |Flat(chain)|
    ensures var n := |chain| - 1;
            Flat(chain[n := chain[n][..|chain[n]| - k]]) == Flat(chain)[..|Flat(chain)| - k]
  {
    var n := |chain| - 1;
    var t := chain[n := chain[n][..|chain[n]| - k]];
    FlatLast(chain);
    FlatLast(t);
    hide Flat;
    assert t[..n] == chain[..n];
  }

  lemma {:induction false} PackedJoin(bufs: seq<seq<Octet>>, out: Accm, a: seq<Octet>, b: seq<Octet>)
    requires bufs != []
    ensures Packed(bufs, out, a + b) == Packed(Packed(bufs, out, a), out, b)
    decreases |a|
  {
    hide Appended, Stuffed;
    if a == [] {
      assert a + b == b;
    } else {
      assert (a + b)[1..] == a[1..] + b;
      PackedJoin(Appended(bufs, Stuffed(out, a[0])), out, a[1..], b);
    }
  }

  lemma PackedStep(bufs: seq<seq<Octet>>, out: Accm, a: seq<Octet>, c: Octet)
    requires bufs != []
    ensures Packed(bufs, out, a + [c]) == Appended(Packed(bufs, out, a), Stuffed(out, c))
  {
    hide Appended, Stuffed;
    PackedJoin(bufs, out, a, [c]);
    var t := Packed(bufs, out, a);
    assert [c][1..] == [];
    assert Packed(t, out, [c]) == Packed(Appended(t, Stuffed(out, c)), out, []);
  }

  lemma FcsSnoc(a: seq<Octet>, c: Octet)
    ensures FcsOf(INIT_FCS, a + [c]) == FcsStep(FcsOf(INIT_FCS, a), c)
  {
    hide FcsStep;
    var f := FcsOf(INIT_FCS, a);
    FcsJoin(INIT_FCS, a, [c]);
    assert [c][1..] == [];
    assert FcsOf(f, [c]) == FcsOf(FcsStep(f, c), []);
  }

  /** The chain under construction; `live` is false once a buffer could not be had, `left` counts those still free. */
  class Writer {
    var bufs: seq<seq<Octet>>
    var live: bool
    var left: nat

    constructor (pool: nat)
      requires 0 < pool
      ensures live && bufs == [[]] && left == pool - 1
    {
      bufs, live, left := [[]], true, pool - 1;
    }

    /** The chain is the given one, unless the pool was too small for it. */
    ghost predicate Holds(want: seq<seq<Octet>>, pool: nat)
      reads this
    {
      && bufs != [] && (live <==> |want| <= pool) && (live ==> bufs == want && left == pool - |want|)
    }

    /** pppAppend. */
    method Append(piece: seq<Octet>, ghost want: seq<seq<Octet>>, ghost pool: nat)
      requires want != [] && Holds(want, pool)
      modifies this
      ensures Holds(Appended(want, piece), pool)
    {
      if live && PBUF_POOL_BUFSIZE - |bufs[|bufs| - 1]| < 2 {
        if left == 0 {
          live := false;
        } else {
          bufs, left := bufs + [[]], left - 1;
        }
      }
      if live {
        var n := |bufs| - 1;
        assert [] + piece == piece;
        bufs := bufs[n := bufs[n] + piece];
      }
    }
  }

  class PppControl {
    var inAccm: Accm
    var outAccm: Accm
    var inState: Phase
    var inFcs: Fcs
    var inProtocol: bv16
    var inEscaped: bool
    var chain: seq<seq<Octet>>

    ghost function View(): Receiver
      reads this
    {
      Receiver(inState, inFcs, inProtocol, inEscaped, chain != [], Flat(chain))
    }

    ghost predicate Ready()
      reads this
    {
      Filled(chain) && Valid(View())
    }

    /** pppOpen. */
    constructor ()
      ensures Ready() && View() == Opened() && inAccm == DEFAULT_MAP && outAccm == DEFAULT_MAP
    {
      inAccm, outAccm, inState, inFcs, inProtocol, inEscaped, chain := DEFAULT_MAP, DEFAULT_MAP, Idle, 0, 0, false, [];
    }

    /** pppWrite: the buffers handed to the device, or none when the pool could not hold the frame. */
    method Write(s: seq<Octet>, pool: nat) returns (sent: seq<seq<Octet>>)
      ensures sent == if |FrameBuffers(outAccm, s)| <= pool then FrameBuffers(outAccm, s) else []
    {
      hide Appended, Stuffed, FcsStep, Check, Packed, FcsOf, FrameBuffers;
      ghost var start := Appended([[]], [FLAG]);
      FrameBuffersAre(outAccm, s);
      NothingPacked(start, outAccm);
      if pool == 0 { return []; }
      var fcsOut := INIT_FCS;
      var w := new Writer(pool);
      w.Append([FLAG], [[]], pool);
      var i := 0;
      assert s[..0] == [];
      while i < |s|
        invariant 0 <= i <= |s| && fresh(w)
        invariant fcsOut == FcsOf(INIT_FCS, s[..i]) && w.Holds(Packed(start, outAccm, s[..i]), pool)
      {
        assert s[..i + 1] == s[..i] + [s[i]];
        FcsSnoc(s[..i], s[i]);
        PackedStep(start, outAccm, s[..i], s[i]);
        fcsOut := FcsStep(fcsOut, s[i]);
        w.Append(Stuffed(outAccm, s[i]), Packed(start, outAccm, s[..i]), pool);
        i := i + 1;
      }
      assert s[..|s|] == s;
      ghost var body := Packed(start, outAccm, s);
      var check := Check(fcsOut);
      w.Append(Stuffed(outAccm, check[0]), body, pool);
      ghost var low := Appended(body, Stuffed(outAccm, check[0]));
      w.Append(Stuffed(outAccm, check[1]), low, pool);
      w.Append([FLAG], Appended(low, Stuffed(outAccm, check[1])), pool);
      sent := if w.live then w.bufs else [];
    }

    /** pppInProc: the octets of one read; `ok` says at each whether a buffer could be had. */
    method InProc(s: seq<Octet>, ok: seq<bool>) returns (events: seq<Event>)
      requires Ready() && |ok| == |s|
      modifies this
      ensures Ready() && (View(), events) == Feed(inAccm, old(View()), s, ok) && inAccm == old(inAccm) && outAccm == old(outAccm)
    {
      hide Feed, Receive;
      events := [];
      var i := 0;
      FeedNone(inAccm, View());
      assert s[..0] == [] && ok[..0] == [];
      while i < |s|
        invariant 0 <= i <= |s| && Ready() && inAccm == old(inAccm) && outAccm == old(outAccm)
        invariant (View(), events) == Feed(inAccm, old(View()), s[..i], ok[..i])
      {
        assert s[..i + 1] == s[..i] + [s[i]] && ok[..i + 1] == ok[..i] + [ok[i]];
        FeedJoin(inAccm, old(View()), s[..i], [s[i]], ok[..i], [ok[i]]);
        FeedOne(inAccm, View(), s[i], [ok[i]]);
        var more := ReceiveOctet(s[i], ok[i]);
        events := events + more;
        i := i + 1;
      }
      assert s[..|s|] == s && ok[..|s|] == ok;
    }

    method ReceiveOctet(c: Octet, ok: bool) returns (events: seq<Event>)
      requires Ready()
      modifies this
      ensures Ready() && (View(), events) == Receive(inAccm, old(View()), c, ok) && inAccm == old(inAccm) && outAccm == old(outAccm)
    {
      hide Escaped, FcsStep, Plain, AtFlag, Trans;
      ReceiveValid(inAccm, View(), c, ok);
      events := [];
      if Escaped(inAccm, c) {
        if c == ESCAPE {
          inEscaped := true;
        } else if c == FLAG {
          events := EndOfFrame();
        }
      } else {
        var curChar := c;
        if inEscaped {
          inEscaped := false;
          curChar := Trans(curChar);
        }
        events := PlainOctet(curChar, ok);
      }
    }

    /** The flag: judge the packet, hand it on or drop it, and start afresh. */
    method EndOfFrame() returns (events: seq<Event>)
      requires Ready()
      modifies this
      ensures Filled(chain) && View() == Fresh(old(View())) && events == AtFlag(old(View()))
      ensures inAccm == old(inAccm) && outAccm == old(outAccm)
    {
      events := [];
      if inState == Idle || inState == Start || inState == Address {
      } else if inState != Data {
        events := [Drop];
        chain := [];
      } else if inFcs != GOOD_FCS {
        events := [Drop];
        chain := [];
      } else if |chain| == 0 || (|chain| == 1 && |chain[0]| < 2) {
        assert |Flat(chain)| < 2 by { ShortChain(chain); }
        events := [Fault];
        chain := [];
      } else {
        LongChain(chain);
        TrimmedIs(chain);
        events := [Deliver(inProtocol, Flat(Trimmed(chain)))];
        chain := [];
      }
      inFcs, inState, inEscaped := INIT_FCS, Address, false;
    }

    method PlainOctet(c: Octet, ok: bool) returns (events: seq<Event>)
      requires Ready()
      modifies this
      ensures Filled(chain) && (View(), events) == Plain(old(View()), c, ok) && inAccm == old(inAccm) && outAccm == old(outAccm)
    {
      hide FcsStep, Odd, FirstOctet, WithSecond, NeedsBuffer;
      events := [];
      if inState == Data {
        WhenNeeded(View(), chain);
        if |chain| == 0 || |chain[|chain| - 1]| == Room(|chain| - 1) {
          if !ok {
            events, chain, inState := [Drop], [], Start;
            inFcs := FcsStep(inFcs, c);
            return;
          }
          FlatNew(chain, c);
          chain := chain + [[c]];
        } else {
          FlatGrown(chain, c);
          chain := chain[|chain| - 1 := chain[|chain| - 1] + [c]];
        }
      } else if inState == Idle && c != ALL_STATIONS {
      } else {
        if inState == Idle || inState == Start { inFcs := INIT_FCS; }
        if inState == Protocol2 {
          inProtocol, inState := WithSecond(inProtocol, c), Data;
        } else if c == ALL_STATIONS && (inState == Idle || inState == Start || inState == Address) {
          inState := Control;
        } else if c == UI && inState != Protocol1 {
          inState := Protocol1;
        } else if Odd(c) {
          inProtocol, inState := c as bv16, Data;
        } else {
          inProtocol, inState := FirstOctet(c), Protocol2;
        }
      }
      inFcs := FcsStep(inFcs, c);
    }
  }

  lemma FrameBuffersAre(out: Accm, s: seq<Octet>)
    ensures var check := Check(FcsOf(INIT_FCS, s));
            var body := Packed(Appended([[]], [FLAG]), out, s);
            && |check| == 2 && 1 <= |FrameBuffers(out, s)|
            && FrameBuffers(out, s) == Appended(Appended(Appended(body, Stuffed(out, check[0])), Stuffed(out, check[1])), [FLAG])
  {
    hide Appended, Stuffed, Check, FcsOf, Packed;
    var check := Check(FcsOf(INIT_FCS, s));
    CheckLength(FcsOf(INIT_FCS, s));
    var start := Appended([[]], [FLAG]);
    assert s + check == (s + [check[0]]) + [check[1]];
    PackedStep(start, out, s + [check[0]], check[1]);
    PackedStep(start, out, s, check[0]);
  }

  lemma NothingPacked(bufs: seq<seq<Octet>>, out: Accm)
    requires bufs != []
    ensures Packed(bufs, out, []) == bufs && FcsOf(INIT_FCS, []) == INIT_FCS
  {}

  lemma FeedNone(inMap: Accm, r: Receiver)
    ensures Feed(inMap, r, [], []) == (r, [])
  {}

  lemma ShortChain(chain: seq<seq<Octet>>)
    requires |chain| == 0 || (|chain| == 1 && |chain[0]| < 2)
    ensures |Flat(chain)| < 2
  {
    if chain != [] { FlatLast(chain); }
  }

  lemma LongChain(chain: seq<seq<Octet>>)
    requires Filled(chain) && !(|chain| == 0 || (|chain| == 1 && |chain[0]| < 2))
    ensures |Flat(chain)| >= 2
  {
    var n := |chain| - 1;
    FlatLast(chain);
    if n > 0 {
      FlatLast(chain[..n]);
    }
  }

  lemma FlatNew(chain: seq<seq<Octet>>, c: Octet)
    requires Filled(chain) && (chain == [] || |chain[|chain| - 1]| == Room(|chain| - 1))
    ensures Flat(chain + [[c]]) == Flat(chain) + [c] && Filled(chain + [[c]])
  {
    FlatJoin(chain, [[c]]);
    assert [[c]][1..] == [] && [c] + [] == [c];
  }

  lemma FlatGrown(chain: seq<seq<Octet>>, c: Octet)
    requires Filled(chain) && chain != [] && |chain[|chain| - 1]| != Room(|chain| - 1)
    ensures var n := |chain| - 1;
            var t := chain[n := chain[n] + [c]];
            Flat(t) == Flat(chain) + [c] && Filled(t)
  {
    var n := |chain| - 1;
    var t := chain[n := chain[n] + [c]];
    FlatLast(chain);
    FlatLast(t);
    assert t[..n] == chain[..n];
    assert Flat(chain[..n]) + (chain[n] + [c]) == (Flat(chain[..n]) + chain[n]) + [c];
  }
}
