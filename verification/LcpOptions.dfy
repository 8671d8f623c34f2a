/** The LCP options: how a request is written, and what acks and rejects of it are accepted. */
module LcpOptions {
  import opened Words

  const PPP_DEFMRU: U16 := 296
  const PPP_PAP: U16 := 0xc023
  const PPP_CHAP: U16 := 0xc223
  const PPP_LQR: U16 := 0xc025
  const CBCP_OPT: Byte := 6

  /** lcp_options: which options to negotiate, and their values. */
  datatype Options = Options(
    negMru: bool, negAsyncmap: bool, negUpap: bool, negChap: bool, negMagic: bool, negPcomp: bool, negAccomp: bool,
    negLqr: bool, negCbcp: bool, mru: U16, mdType: Byte, asyncmap: U32, magic: U32, lqrPeriod: U32)

  /** The options in the order they are sent; CHAP and PAP share a type. */
  datatype Opt = Mru | Asyncmap | Chap | Pap | Quality | Callback | Magic | Pcomp | Accomp

  const ORDER: seq<Opt> := [Mru, Asyncmap, Chap, Pap, Quality, Callback, Magic, Pcomp, Accomp]

  function TypeOf(o: Opt): Byte
  {
    match o
    case Mru => 1
    case Asyncmap => 2
    case Chap => 3
    case Pap => 3
    case Quality => 4
    case Magic => 5
    case Pcomp => 7
    case Accomp => 8
    case Callback => 13
  }

  function LengthOf(o: Opt): Byte
  {
    match o
    case Mru => 4
    case Asyncmap => 6
    case Chap => 5
    case Pap => 4
    case Quality => 8
    case Callback => 3
    case Magic => 6
    case Pcomp => 2
    case Accomp => 2
  }

  function Put16(n: U16): (r: seq<Byte>)
    ensures |r| == 2
  {
    [Hi(n), Lo(n)]
  }

  function Put32(n: U32): (r: seq<Byte>)
    ensures |r| == 4
  {
    [Oct(n, 0), Oct(n, 1), Oct(n, 2), Oct(n, 3)]
  }

  /** One option, header and value. */
  function Encode(go: Options, o: Opt): (r: seq<Byte>)
    ensures |r| == LengthOf(o) && r[0] == TypeOf(o) && r[1] == LengthOf(o)
  {
    [TypeOf(o), LengthOf(o)] + ValueOf(go, o)
  }

  function ValueOf(go: Options, o: Opt): (r: seq<Byte>)
    ensures |r| == LengthOf(o) - 2
  {
    hide Oct, Hi, Lo;
    match o
    case Mru => Put16(go.mru)
    case Asyncmap => Put32(go.asyncmap)
    case Chap => Put16(PPP_CHAP) + [go.mdType]
    case Pap => Put16(PPP_PAP)
    case Quality => Put16(PPP_LQR) + Put32(go.lqrPeriod)
    case Callback => [CBCP_OPT]
    case Magic => Put32(go.magic)
    case Pcomp => []
    case Accomp => []
  }

  /** Whether an option is sent: the defaults are not, and PAP is asked for only when CHAP is not. */
  predicate Wanted(go: Options, o: Opt)
  {
    match o
    case Mru => go.negMru && go.mru != PPP_DEFMRU
    case Asyncmap => go.negAsyncmap && go.asyncmap != 0xffff_ffff
    case _ => Asked(go, o)
  }

  /** The flag alone, which is all that lcp_rejci looks at. */
  predicate Asked(go: Options, o: Opt)
  {
    match o
    case Mru => go.negMru
    case Asyncmap => go.negAsyncmap
    case Chap => go.negChap
    case Pap => !go.negChap && go.negUpap
    case Quality => go.negLqr
    case Callback => go.negCbcp
    case Magic => go.negMagic
    case Pcomp => go.negPcomp
    case Accomp => go.negAccomp
  }

  function EncodeAll(go: Options, os: seq<Opt>): seq<Byte>
  {
    if os == [] then [] else Encode(go, os[0]) + EncodeAll(go, os[1..])
  }

  /** The wanted ones among some options, in their order. */
  function Chosen(go: Options, os: seq<Opt>): seq<Opt>
  {
    if os == [] then [] else (if Wanted(go, os[0]) then [os[0]] else []) + Chosen(go, os[1..])
  }

  /** lcp_addci. */
  function AddCi(go: Options): seq<Byte> { EncodeAll(go, Chosen(go, ORDER)) }

  function If(b: bool, n: nat): nat { if b then n else 0 }

  /** lcp_cilen. */
  function CiLen(go: Options): nat
  {
    If(go.negMru && go.mru != PPP_DEFMRU, 4) + If(go.negAsyncmap && go.asyncmap != 0xffff_ffff, 6) + If(go.negChap, 5)
    + If(!go.negChap && go.negUpap, 4) + If(go.negLqr, 8) + If(go.negCbcp, 3) + If(go.negMagic, 6) + If(go.negPcomp, 2)
    + If(go.negAccomp, 2)
  }

  lemma {:induction false} EncodeLength(go: Options, os: seq<Opt>)
    ensures |EncodeAll(go, Chosen(go, os))| == WantedLength(go, os)
  {
    hide Encode, Wanted;
    if os != [] {
      EncodeLength(go, os[1..]);
      if Wanted(go, os[0]) { assert Chosen(go, os)[1..] == Chosen(go, os[1..]); } else { assert Chosen(go, os) == Chosen(go, os[1..]); }
    }
  }

  function WantedLength(go: Options, os: seq<Opt>): nat
  {
    if os == [] then 0 else If(Wanted(go, os[0]), LengthOf(os[0])) + WantedLength(go, os[1..])
  }

  /** The announced length is that of what is written. */
  lemma CiLenIsLength(go: Options)
    ensures CiLen(go) == |AddCi(go)|
  {
    EncodeLength(go, ORDER);
    OrderLength(go);
  }

  lemma LengthAt(go: Options, k: nat)
    requires k < |ORDER|
    ensures WantedLength(go, ORDER[k..]) == If(Wanted(go, ORDER[k]), LengthOf(ORDER[k])) + WantedLength(go, ORDER[k + 1..])
  {
    assert ORDER[k..][1..] == ORDER[k + 1..];
  }

  lemma OrderIs()
    ensures |ORDER| == 9 && ORDER[0] == Mru && ORDER[1] == Asyncmap && ORDER[2] == Chap && ORDER[3] == Pap && ORDER[4] == Quality
    ensures ORDER[5] == Callback && ORDER[6] == Magic && ORDER[7] == Pcomp && ORDER[8] == Accomp
  {}

  lemma LengthEnds(go: Options, os: seq<Opt>)
    ensures WantedLength(go, os[0..]) == WantedLength(go, os) && WantedLength(go, os[|os|..]) == 0
  {
    assert os[0..] == os;
  }

  lemma OrderLength(go: Options)
    ensures WantedLength(go, ORDER) == CiLen(go)
  {
    hide WantedLength, ORDER;
    OrderIs();
    LengthEnds(go, ORDER);
    LengthAt(go, 0);
    LengthAt(go, 1);
    LengthAt(go, 2);
    LengthAt(go, 3);
    LengthAt(go, 4);
    LengthAt(go, 5);
    LengthAt(go, 6);
    LengthAt(go, 7);
    LengthAt(go, 8);
  }

  // ----- acks -----

  /** The fields of an option compared one by one, as lcp_ackci does. */
  predicate Matches(go: Options, o: Opt, p: seq<Byte>)
  {
    && |p| >= LengthOf(o) && p[0] == TypeOf(o) && p[1] == LengthOf(o)
    && ValueMatches(go, o, p)
  }

  predicate ValueMatches(go: Options, o: Opt, p: seq<Byte>)
    requires |p| >= LengthOf(o)
  {
    match o
    case Mru => Get16(p, 2) == go.mru
    case Asyncmap => Get32(p, 2) == go.asyncmap
    case Chap => Get16(p, 2) == PPP_CHAP && p[4] == go.mdType
    case Pap => Get16(p, 2) == PPP_PAP
    case Quality => Get16(p, 2) == PPP_LQR && Get32(p, 4) == go.lqrPeriod
    case Callback => p[2] == CBCP_OPT
    case Magic => Get32(p, 2) == go.magic
    case Pcomp => true
    case Accomp => true
  }

  lemma Get16Is(p: seq<Byte>, i: nat, n: U16)
    requires i + 2 <= |p|
    ensures Get16(p, i) == n <==> p[i..i + 2] == Put16(n)
  {
    Split16(p[i], p[i + 1]);
    Join16(n);
    hide Hi, Lo, Word16;
  }

  lemma Get32Is(p: seq<Byte>, i: nat, n: U32)
    requires i + 4 <= |p|
    ensures Get32(p, i) == n <==> p[i..i + 4] == Put32(n)
  {
    Split32(p[i], p[i + 1], p[i + 2], p[i + 3]);
    Join32(n);
    hide Oct, Word32;
  }

  /** Comparing the fields is comparing the octets. */
  lemma MatchesIs(go: Options, o: Opt, p: seq<Byte>)
    ensures Matches(go, o, p) <==> |p| >= LengthOf(o) && p[..LengthOf(o)] == Encode(go, o)
  {
    hide Get16, Get32, Put16, Put32, Hi, Lo, Oct;
    if |p| >= LengthOf(o) {
      var v := p[2..LengthOf(o)];
      assert p[..LengthOf(o)] == [p[0], p[1]] + v;
      assert Encode(go, o) == [TypeOf(o), LengthOf(o)] + ValueOf(go, o);
      ValueIs(go, o, p);
      hide Encode, ValueMatches, ValueOf;
      if p[0] == TypeOf(o) && p[1] == LengthOf(o) && p[..LengthOf(o)] == Encode(go, o) {
        assert ([TypeOf(o), LengthOf(o)] + v)[2..] == v && ([TypeOf(o), LengthOf(o)] + ValueOf(go, o))[2..] == ValueOf(go, o);
      }
    }
  }

  lemma ValueIs(go: Options, o: Opt, p: seq<Byte>)
    requires |p| >= LengthOf(o)
    ensures ValueMatches(go, o, p) <==> p[2..LengthOf(o)] == ValueOf(go, o)
  {
    hide Get16, Get32, Put16, Put32;
    match o
    case Mru => Get16Is(p, 2, go.mru);
    case Asyncmap => Get32Is(p, 2, go.asyncmap);
    case Chap =>
      Get16Is(p, 2, PPP_CHAP);
      PairOfTwo(p, 2, 4, 5, Put16(PPP_CHAP), [go.mdType]);
    case Pap => Get16Is(p, 2, PPP_PAP);
    case Quality =>
      Get16Is(p, 2, PPP_LQR);
      Get32Is(p, 4, go.lqrPeriod);
      PairOfTwo(p, 2, 4, 8, Put16(PPP_LQR), Put32(go.lqrPeriod));
    case Callback => assert p[2..3] == [p[2]];
    case Magic => Get32Is(p, 2, go.magic);
    case Pcomp =>
    case Accomp =>
  }

  lemma PairOfTwo(p: seq<Byte>, i: nat, j: nat, k: nat, a: seq<Byte>, b: seq<Byte>)
    requires i <= j <= k <= |p| && |a| == j - i && |b| == k - j
    ensures p[i..k] == a + b <==> p[i..j] == a && p[j..k] == b
  {
    assert p[i..k] == p[i..j] + p[j..k];
    assert (a + b)[..j - i] == a && (a + b)[j - i..] == b;
    assert p[i..k][..j - i] == p[i..j] && p[i..k][j - i..] == p[j..k];
  }

  /** lcp_ackci: option by option, in the order they were sent. */
  predicate AckFrom(go: Options, os: seq<Opt>, p: seq<Byte>)
    decreases |os|
  {
    if os == [] then p == []
    else if !Wanted(go, os[0]) then AckFrom(go, os[1..], p)
    else Matches(go, os[0], p) && AckFrom(go, os[1..], p[LengthOf(os[0])..])
  }

  /** An ack is good exactly when it repeats what was sent. */
  lemma {:induction false} AckExactly(go: Options, os: seq<Opt>, p: seq<Byte>)
    ensures AckFrom(go, os, p) <==> p == EncodeAll(go, Chosen(go, os))
    decreases |os|
  {
    hide Encode, Wanted, Matches;
    if os != [] {
      if Wanted(go, os[0]) {
        assert Chosen(go, os)[1..] == Chosen(go, os[1..]);
        MatchesIs(go, os[0], p);
        var n := LengthOf(os[0]);
        if |p| >= n {
          AckExactly(go, os[1..], p[n..]);
          assert p == p[..n] + p[n..];
        }
      } else {
        assert Chosen(go, os) == Chosen(go, os[1..]);
        AckExactly(go, os[1..], p);
      }
    }
  }

  // ----- rejects -----

  function Clear(t: Options, o: Opt): Options
  {
    match o
    case Mru => t.(negMru := false)
    case Asyncmap => t.(negAsyncmap := false)
    case Chap => t.(negChap := false, negUpap := false)
    case Pap => t.(negUpap := false)
    case Quality => t.(negLqr := false)
    case Callback => t.(negCbcp := false)
    case Magic => t.(negMagic := false)
    case Pcomp => t.(negPcomp := false)
    case Accomp => t.(negAccomp := false)
  }

  function ClearAll(t: Options, os: seq<Opt>): Options
    decreases |os|
  {
    if os == [] then t else ClearAll(Clear(t, os[0]), os[1..])
  }

  /** The header of option o stands at the front, and o was asked for. */
  predicate Heads(go: Options, o: Opt, p: seq<Byte>)
  {
    Asked(go, o) && |p| >= LengthOf(o) && p[1] == LengthOf(o) && p[0] == TypeOf(o)
  }

  datatype Verdict = Good(options: Options) | Bad

  /** lcp_rejci: each option asked for may be rejected, in order; its value must be the one sent. */
  function RejFrom(go: Options, t: Options, os: seq<Opt>, p: seq<Byte>): Verdict
    decreases |os|
  {
    if os == [] then if p == [] then Good(t) else Bad
    else if !Heads(go, os[0], p) then RejFrom(go, t, os[1..], p)
    else if !ValueMatches(go, os[0], p) then Bad
    else RejFrom(go, Clear(t, os[0]), os[1..], p[LengthOf(os[0])..])
  }

  predicate Subsequence(r: seq<Opt>, os: seq<Opt>)
    decreases |os|
  {
    if r == [] then true
    else if os == [] then false
    else if r[0] == os[0] then Subsequence(r[1..], os[1..])
    else Subsequence(r, os[1..])
  }

  /** A reject that is accepted names options asked for, in order and with their values, and clears exactly those. */
  lemma {:induction false} RejSound(go: Options, t: Options, os: seq<Opt>, p: seq<Byte>) returns (r: seq<Opt>)
    requires RejFrom(go, t, os, p).Good?
    ensures Subsequence(r, os) && (forall o | o in r :: Asked(go, o))
    ensures p == EncodeAll(go, r) && RejFrom(go, t, os, p).options == ClearAll(t, r)
    decreases |os|
  {
    hide Encode, Asked, ValueMatches, Clear;
    r := [];
    if os != [] {
      if Heads(go, os[0], p) {
        var n := LengthOf(os[0]);
        MatchesIs(go, os[0], p);
        var s := RejSound(go, Clear(t, os[0]), os[1..], p[n..]);
        r := [os[0]] + s;
        assert r[1..] == s && p == p[..n] + p[n..];
      } else {
        r := RejSound(go, t, os[1..], p);
        SubsequenceLater(r, os);
      }
    }
  }

  lemma {:induction false} SubsequenceLater(r: seq<Opt>, os: seq<Opt>)
    requires os != [] && Subsequence(r, os[1..])
    ensures Subsequence(r, os)
    decreases |os|, 0
  {
    if r != [] && r[0] == os[0] {
      SubsequenceRest(r, os[1..]);
    }
  }

  lemma {:induction false} SubsequenceRest(r: seq<Opt>, os: seq<Opt>)
    requires r != [] && Subsequence(r, os)
    ensures Subsequence(r[1..], os)
    decreases |os|, 1
  {
    if r[0] == os[0] {
      SubsequenceLater(r[1..], os);
    } else {
      SubsequenceRest(r, os[1..]);
      SubsequenceLater(r[1..], os);
    }
  }

  lemma TypesTellApart(go: Options, a: Opt, b: Opt)
    requires Asked(go, a) && Asked(go, b) && TypeOf(a) == TypeOf(b)
    ensures a == b
  {}

  /** Every reject of options asked for, in order and with their values, is accepted. */
  lemma {:induction false} RejComplete(go: Options, t: Options, os: seq<Opt>, r: seq<Opt>)
    requires Subsequence(r, os) && forall o | o in r :: Asked(go, o)
    ensures RejFrom(go, t, os, EncodeAll(go, r)) == Good(ClearAll(t, r))
    decreases |os|
  {
    hide Encode, Asked, ValueMatches, Clear;
    var p := EncodeAll(go, r);
    if os != [] {
      if r == [] {
        RejComplete(go, t, os[1..], r);
      } else if r[0] == os[0] {
        assert forall o | o in r[1..] :: o in r;
        var n := LengthOf(r[0]);
        assert p[..n] == Encode(go, r[0]) && p[n..] == EncodeAll(go, r[1..]);
        MatchesIs(go, r[0], p);
        RejComplete(go, Clear(t, os[0]), os[1..], r[1..]);
      } else {
        assert p[0] == TypeOf(r[0]);
        if Asked(go, os[0]) && TypeOf(os[0]) == TypeOf(r[0]) { TypesTellApart(go, os[0], r[0]); }
        RejComplete(go, t, os[1..], r);
      }
    }
  }

  predicate NoRepeats(os: seq<Opt>) { forall i, j | 0 <= i < j < |os| :: os[i] != os[j] }

  lemma {:induction false} SubsequenceIn(r: seq<Opt>, os: seq<Opt>)
    requires Subsequence(r, os) && NoRepeats(os)
    ensures NoRepeats(r) && forall o | o in r :: o in os
    decreases |os|
  {
    if r != [] {
      assert forall i, j | 0 <= i < j < |os[1..]| :: os[1..][i] != os[1..][j];
      if r[0] == os[0] {
        SubsequenceIn(r[1..], os[1..]);
        assert os[0] !in os[1..];
        assert r == [r[0]] + r[1..];
      } else {
        SubsequenceIn(r, os[1..]);
      }
    }
  }

  /** Options not among r. */
  function Except(os: seq<Opt>, r: seq<Opt>): seq<Opt>
  {
    if os == [] then [] else (if os[0] in r then [] else [os[0]]) + Except(os[1..], r)
  }

  lemma WantedClear(t: Options, o: Opt, x: Opt)
    requires o.Chap? ==> t.negChap
    ensures Wanted(Clear(t, o), x) <==> Wanted(t, x) && x != o
    ensures o != Chap ==> Clear(t, o).negChap == t.negChap
    ensures ValueOf(Clear(t, o), x) == ValueOf(t, x)
  {}

  lemma {:induction false} WantedClearAll(t: Options, r: seq<Opt>, x: Opt)
    requires NoRepeats(r) && (Chap in r ==> t.negChap)
    ensures Wanted(ClearAll(t, r), x) <==> Wanted(t, x) && x !in r
    ensures ValueOf(ClearAll(t, r), x) == ValueOf(t, x)
    decreases |r|
  {
    hide Wanted, Clear, ValueOf;
    if r != [] {
      WantedClear(t, r[0], x);
      assert forall i, j | 0 <= i < j < |r[1..]| :: r[1..][i] != r[1..][j];
      WantedClearAll(Clear(t, r[0]), r[1..], x);
      assert r == [r[0]] + r[1..];
    }
  }

  lemma {:induction false} ChosenClear(t: Options, r: seq<Opt>, os: seq<Opt>)
    requires NoRepeats(r) && (Chap in r ==> t.negChap)
    ensures Chosen(ClearAll(t, r), os) == Except(Chosen(t, os), r)
    decreases |os|
  {
    hide Wanted, ClearAll;
    if os != [] {
      WantedClearAll(t, r, os[0]);
      ChosenClear(t, r, os[1..]);
      if Wanted(t, os[0]) { assert Chosen(t, os)[1..] == Chosen(t, os[1..]); } else { assert Chosen(t, os) == Chosen(t, os[1..]); }
    }
  }

  lemma {:induction false} EncodeSame(s: Options, t: Options, os: seq<Opt>)
    requires forall x :: ValueOf(s, x) == ValueOf(t, x)
    ensures EncodeAll(s, os) == EncodeAll(t, os)
    decreases |os|
  {
    hide ValueOf;
    if os != [] { EncodeSame(s, t, os[1..]); }
  }

  lemma OrderOnce()
    ensures NoRepeats(ORDER)
  {}

  /** After a reject, the next request is the old one with exactly the rejected options left out; a rejected CHAP takes
      PAP with it. */
  lemma RejEffect(go: Options, r: seq<Opt>)
    requires Subsequence(r, ORDER) && forall o | o in r :: Asked(go, o)
    ensures AddCi(ClearAll(go, r)) == EncodeAll(go, Except(Chosen(go, ORDER), r))
    ensures Chap in r ==> !Wanted(ClearAll(go, r), Chap) && !Wanted(ClearAll(go, r), Pap)
  {
    OrderOnce();
    SubsequenceIn(r, ORDER);
    assert Chap in r ==> go.negChap;
    var t := ClearAll(go, r);
    ChosenClear(go, r, ORDER);
    forall x ensures ValueOf(t, x) == ValueOf(go, x) { WantedClearAll(go, r, x); }
    hide ORDER, ClearAll, Chosen;
    EncodeSame(t, go, Except(Chosen(go, ORDER), r));
    if Chap in r {
      WantedClearAll(go, r, Chap);
      WantedClearAll(go, r, Pap);
    }
  }
}
