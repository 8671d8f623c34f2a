/** lcp_reqci: what a peer's Configure-Request is answered with, option by option and as a whole. */
module LcpRequest {
  import opened Words
  import opened LcpOptions

  const PPP_MINMRU: U16 := 128
  const CHAP_DIGEST_MD5: Byte := 5

  datatype Answer = Ack | Nak | Rej

  /** The options of a request. One whose length cannot be right takes in the rest of the packet. */
  datatype Item = Item(octets: seq<Byte>, bad: bool)

  predicate BadLength(p: seq<Byte>) { |p| < 2 || p[1] < 2 || p[1] > |p| }

  function First(p: seq<Byte>): (i: Item)
    requires p != []
    ensures 0 < |i.octets| <= |p| && i.octets == p[..|i.octets|] && (!i.bad ==> |i.octets| >= 2 && i.octets[1] == |i.octets|)
  {
    if BadLength(p) then Item(p[..|p|], true) else Item(p[..p[1]], false)
  }

  // ----- bits of a character map -----

  function Bits(n: U32): bv32 { n as bv32 }

  predicate Lacks(map1: U32, map2: U32) { Bits(map1) & !Bits(map2) != 0 }

  function Both(map1: U32, map2: U32): U32 { (Bits(map1) | Bits(map2)) as int }

  // ----- one option -----

  /** The answer to an option, what is remembered of it, and the option suggested instead. */
  datatype Judged = Judged(answer: Answer, ho: Options, nak: seq<Byte>)

  function SuggestChap(ao: Options): (r: seq<Byte>)
    ensures |r| == 5
  {
    [TypeOf(Chap), 5] + Put16(PPP_CHAP) + [ao.mdType]
  }

  function SuggestPap(): (r: seq<Byte>)
    ensures |r| == 4
  {
    [TypeOf(Pap), 4] + Put16(PPP_PAP)
  }

  function JudgeMru(ao: Options, ho: Options, p: seq<Byte>): Judged
    requires |p| >= 2
  {
    if !ao.negMru || |p| != 4 then Judged(Rej, ho, [])
    else if Get16(p, 2) < PPP_MINMRU then Judged(Nak, ho, [1, 4] + Put16(PPP_MINMRU))
    else Judged(Ack, ho.(negMru := true, mru := Get16(p, 2)), [])
  }

  function JudgeAsyncmap(ao: Options, ho: Options, p: seq<Byte>): Judged
    requires |p| >= 2
  {
    if !ao.negAsyncmap || |p| != 6 then Judged(Rej, ho, [])
    else if Lacks(ao.asyncmap, Get32(p, 2)) then Judged(Nak, ho, [2, 6] + Put32(Both(ao.asyncmap, Get32(p, 2))))
    else Judged(Ack, ho.(negAsyncmap := true, asyncmap := Get32(p, 2)), [])
  }

  function JudgeAuth(ao: Options, ho: Options, p: seq<Byte>): Judged
    requires |p| >= 2
  {
    if |p| < 4 || !(ao.negUpap || ao.negChap) then Judged(Rej, ho, [])
    else if Get16(p, 2) == PPP_PAP then
      if ho.negChap || |p| != 4 then Judged(Rej, ho, [])
      else if !ao.negUpap then Judged(Nak, ho, SuggestChap(ao))
      else Judged(Ack, ho.(negUpap := true), [])
    else if Get16(p, 2) == PPP_CHAP then
      if ho.negUpap || |p| != 5 then Judged(Rej, ho, [])
      else if !ao.negChap then Judged(Nak, ho, SuggestPap())
      else if p[4] != CHAP_DIGEST_MD5 then Judged(Nak, ho, SuggestChap(ao))
      else Judged(Ack, ho.(negChap := true, mdType := p[4]), [])
    else Judged(Nak, ho, if ao.negChap then SuggestChap(ao) else SuggestPap())
  }

  function JudgeQuality(ao: Options, ho: Options, p: seq<Byte>): Judged
    requires |p| >= 2
  {
    if !ao.negLqr || |p| != 8 then Judged(Rej, ho, [])
    else if Get16(p, 2) != PPP_LQR then Judged(Nak, ho, [4, 8] + Put16(PPP_LQR) + Put32(ao.lqrPeriod))
    else Judged(Ack, ho, [])
  }

  /** `other` is the random number suggested when the peer has chosen ours. */
  function JudgeMagic(ao: Options, go: Options, ho: Options, p: seq<Byte>, other: U32): Judged
    requires |p| >= 2
  {
    if !(ao.negMagic || go.negMagic) || |p| != 6 then Judged(Rej, ho, [])
    else if go.negMagic && Get32(p, 2) == go.magic then Judged(Nak, ho, [5, 6] + Put32(other))
    else Judged(Ack, ho.(negMagic := true, magic := Get32(p, 2)), [])
  }

  function Judge(ao: Options, go: Options, ho: Options, i: Item, other: U32): Judged
    requires !i.bad ==> |i.octets| >= 2
  {
    if i.bad then Judged(Rej, ho, [])
    else
      var p := i.octets;
      if p[0] == 1 then JudgeMru(ao, ho, p)
      else if p[0] == 2 then JudgeAsyncmap(ao, ho, p)
      else if p[0] == 3 then JudgeAuth(ao, ho, p)
      else if p[0] == 4 then JudgeQuality(ao, ho, p)
      else if p[0] == 5 then JudgeMagic(ao, go, ho, p, other)
      else if p[0] == 7 then if !ao.negPcomp || |p| != 2 then Judged(Rej, ho, []) else Judged(Ack, ho.(negPcomp := true), [])
      else if p[0] == 8 then if !ao.negAccomp || |p| != 2 then Judged(Rej, ho, []) else Judged(Ack, ho.(negAccomp := true), [])
      else Judged(Rej, ho, [])
  }

  predicate IsMagic(i: Item) { !i.bad && i.octets != [] && i.octets[0] == 5 }

  /** A Nak becomes a Reject once Naks have been sent too often, except for the magic number. */
  function Settle(a: Answer, i: Item, strict: bool): Answer { if a == Nak && strict && !IsMagic(i) then Rej else a }

  // ----- the whole request -----

  datatype Outcome = Outcome(item: Item, answer: Answer, nak: seq<Byte>)

  /** The outcomes of all options in turn; `magic` gives the random number for the option that leaves that many octets. */
  function Outcomes(ao: Options, go: Options, ho: Options, p: seq<Byte>, strict: bool, magic: nat -> U32): seq<Outcome>
    decreases |p|
  {
    if p == [] then []
    else
      var i := First(p);
      var rest := p[|i.octets|..];
      var j := Judge(ao, go, ho, i, magic(|rest|));
      [Outcome(i, Settle(j.answer, i, strict), j.nak)] + Outcomes(ao, go, j.ho, rest, strict, magic)
  }

  /** What is remembered of the peer's options. */
  function Remembered(ao: Options, go: Options, ho: Options, p: seq<Byte>, magic: nat -> U32): Options
    decreases |p|
  {
    if p == [] then ho
    else
      var i := First(p);
      var rest := p[|i.octets|..];
      Remembered(ao, go, Judge(ao, go, ho, i, magic(|rest|)).ho, rest, magic)
  }

  /** Reject if any option is rejected, else Nak if any is nak'd, else Ack. */
  function Overall(os: seq<Outcome>): Answer
  {
    if exists k :: 0 <= k < |os| && os[k].answer == Rej then Rej
    else if exists k :: 0 <= k < |os| && os[k].answer == Nak then Nak
    else Ack
  }

  /** The rejected options, as they came. */
  function Rejected(os: seq<Outcome>): seq<Byte>
  {
    if os == [] then [] else (if os[0].answer == Rej then os[0].item.octets else []) + Rejected(os[1..])
  }

  /** The options suggested instead of those nak'd. */
  function Suggested(os: seq<Outcome>): seq<Byte>
  {
    if os == [] then [] else os[0].nak + Suggested(os[1..])
  }

  function AllOctets(os: seq<Outcome>): seq<Byte>
  {
    if os == [] then [] else os[0].item.octets + AllOctets(os[1..])
  }

  /** The options are the packet cut up: no octet is lost or read twice. */
  lemma {:induction false} OutcomesCover(ao: Options, go: Options, ho: Options, p: seq<Byte>, strict: bool, magic: nat -> U32)
    ensures AllOctets(Outcomes(ao, go, ho, p, strict, magic)) == p
    decreases |p|
  {
    hide Judge, Settle;
    if p != [] {
      var i := First(p);
      var rest := p[|i.octets|..];
      var j := Judge(ao, go, ho, i, magic(|rest|));
      OutcomesCover(ao, go, j.ho, rest, strict, magic);
      var os := Outcomes(ao, go, ho, p, strict, magic);
      assert os[1..] == Outcomes(ao, go, j.ho, rest, strict, magic);
      assert p == i.octets + rest;
    }
  }

  /** A suggestion comes with a Nak and only then, and is not much longer than the option. */
  predicate NakFits(j: Judged, n: nat) { (j.answer == Nak <==> j.nak != []) && |j.nak| <= n + n / 4 }

  lemma SimpleNaks(ao: Options, go: Options, ho: Options, p: seq<Byte>, other: U32)
    requires |p| >= 2
    ensures NakFits(JudgeMru(ao, ho, p), |p|) && NakFits(JudgeAsyncmap(ao, ho, p), |p|) && NakFits(JudgeQuality(ao, ho, p), |p|)
    ensures var j := JudgeMagic(ao, go, ho, p, other);
            NakFits(j, |p|) && (j.answer == Nak ==> go.negMagic)
  {
    hide Get16, Get32, Put16, Put32, Lacks, Both;
  }

  lemma AuthNaks(ao: Options, ho: Options, p: seq<Byte>)
    requires |p| >= 2
    ensures NakFits(JudgeAuth(ao, ho, p), |p|)
  {
    hide Get16, SuggestChap, SuggestPap;
  }

  lemma JudgeNak(ao: Options, go: Options, ho: Options, i: Item, other: U32)
    requires !i.bad ==> |i.octets| >= 2
    ensures var j := Judge(ao, go, ho, i, other);
            NakFits(j, |i.octets|) && (j.answer == Nak && IsMagic(i) ==> go.negMagic)
  {
    hide JudgeMru, JudgeAsyncmap, JudgeAuth, JudgeQuality, JudgeMagic;
    if !i.bad {
      SimpleNaks(ao, go, ho, i.octets, other);
      AuthNaks(ao, ho, i.octets);
    }
  }

  /** When the peer is to get no more Naks, the reply is a Nak only for a magic number that is ours. */
  lemma {:induction false} StrictReply(ao: Options, go: Options, ho: Options, p: seq<Byte>, magic: nat -> U32)
    ensures forall o | o in Outcomes(ao, go, ho, p, true, magic) :: o.answer == Nak ==> IsMagic(o.item) && go.negMagic
    decreases |p|
  {
    hide Judge;
    if p != [] {
      var i := First(p);
      var rest := p[|i.octets|..];
      var j := Judge(ao, go, ho, i, magic(|rest|));
      JudgeNak(ao, go, ho, i, magic(|rest|));
      StrictReply(ao, go, j.ho, rest, magic);
    }
  }

  // ----- two sides of this code -----

  /** What makes an option of the peer's acceptable. */
  predicate Acceptable(ao: Options, go: Options, g: Options, o: Opt)
  {
    match o
    case Mru => ao.negMru && g.mru >= PPP_MINMRU
    case Asyncmap => ao.negAsyncmap && !Lacks(ao.asyncmap, g.asyncmap)
    case Chap => ao.negChap && g.mdType == CHAP_DIGEST_MD5
    case Pap => ao.negUpap
    case Quality => ao.negLqr
    case Callback => false
    case Magic => (ao.negMagic || go.negMagic) && !(go.negMagic && g.magic == go.magic)
    case Pcomp => ao.negPcomp
    case Accomp => ao.negAccomp
  }

  lemma JudgeOwn(ao: Options, go: Options, ho: Options, g: Options, o: Opt, other: U32)
    requires (o == Chap ==> !ho.negUpap) && (o == Pap ==> !ho.negChap)
    ensures var j := Judge(ao, go, ho, Item(Encode(g, o), false), other);
            && (j.answer == Ack <==> Acceptable(ao, go, g, o))
            && (j.ho.negChap ==> ho.negChap || o == Chap) && (j.ho.negUpap ==> ho.negUpap || o == Pap)
  {
    hide Encode, Judge, JudgeAuth, Acceptable, ValueMatches;
    var p := Encode(g, o);
    EncodedMatches(g, o);
    if o == Chap || o == Pap {
      JudgedAuth(ao, go, ho, p, other);
      AuthOwn(ao, go, ho, g, o, p);
    } else {
      OtherOwn(ao, go, ho, g, o, p, other);
    }
  }

  lemma EncodedMatches(g: Options, o: Opt)
    ensures ValueMatches(g, o, Encode(g, o)) && ((o == Chap || o == Pap) ==> Encode(g, o)[0] == 3)
  {
    var p := Encode(g, o);
    assert p[..LengthOf(o)] == p;
    MatchesIs(g, o, p);
    hide Encode, ValueMatches;
  }

  lemma JudgedAuth(ao: Options, go: Options, ho: Options, p: seq<Byte>, other: U32)
    requires |p| >= 2 && p[0] == 3
    ensures Judge(ao, go, ho, Item(p, false), other) == JudgeAuth(ao, ho, p)
  {
    hide JudgeMru, JudgeAsyncmap, JudgeQuality, JudgeMagic, JudgeAuth;
  }

  lemma AuthOwn(ao: Options, go: Options, ho: Options, g: Options, o: Opt, p: seq<Byte>)
    requires (o == Chap && !ho.negUpap) || (o == Pap && !ho.negChap)
    requires |p| == LengthOf(o) && ValueMatches(g, o, p)
    ensures var j := JudgeAuth(ao, ho, p);
            && (j.answer == Ack <==> Acceptable(ao, go, g, o))
            && (j.ho.negChap ==> ho.negChap || o == Chap) && (j.ho.negUpap ==> ho.negUpap || o == Pap)
  {
    hide Get16, Get32, SuggestChap, SuggestPap, Lacks;
  }

  lemma OtherOwn(ao: Options, go: Options, ho: Options, g: Options, o: Opt, p: seq<Byte>, other: U32)
    requires o != Chap && o != Pap && |p| == LengthOf(o) && p[0] == TypeOf(o) && ValueMatches(g, o, p)
    ensures var j := Judge(ao, go, ho, Item(p, false), other);
            (j.answer == Ack <==> Acceptable(ao, go, g, o)) && j.ho.negChap == ho.negChap && j.ho.negUpap == ho.negUpap
  {
    hide JudgeMru, JudgeAsyncmap, JudgeAuth, JudgeQuality, JudgeMagic, ValueMatches, Acceptable;
    match o
    case Mru => MruOwn(ao, go, ho, g, p);
    case Asyncmap => AsyncmapOwn(ao, go, ho, g, p);
    case Quality => QualityOwn(ao, go, ho, g, p);
    case Magic => MagicOwn(ao, go, ho, g, p, other);
    case _ => FlagsOwn(ao, go, g, o);
  }

  /** The option is judged by its value, and what is remembered of authentication stays. */
  predicate JudgedBy(j: Judged, ho: Options, good: bool)
  {
    (j.answer == Ack <==> good) && j.ho.negChap == ho.negChap && j.ho.negUpap == ho.negUpap
  }

  lemma MruOwn(ao: Options, go: Options, ho: Options, g: Options, p: seq<Byte>)
    requires |p| == 4 && ValueMatches(g, Mru, p)
    ensures JudgedBy(JudgeMru(ao, ho, p), ho, Acceptable(ao, go, g, Mru))
  {
    hide Get16, Put16;
  }

  lemma AsyncmapOwn(ao: Options, go: Options, ho: Options, g: Options, p: seq<Byte>)
    requires |p| == 6 && ValueMatches(g, Asyncmap, p)
    ensures JudgedBy(JudgeAsyncmap(ao, ho, p), ho, Acceptable(ao, go, g, Asyncmap))
  {
    hide Get32, Put32, Lacks, Both;
  }

  lemma QualityOwn(ao: Options, go: Options, ho: Options, g: Options, p: seq<Byte>)
    requires |p| == 8 && ValueMatches(g, Quality, p)
    ensures JudgedBy(JudgeQuality(ao, ho, p), ho, Acceptable(ao, go, g, Quality))
  {
    hide Get16, Get32, Put16, Put32;
  }

  lemma MagicOwn(ao: Options, go: Options, ho: Options, g: Options, p: seq<Byte>, other: U32)
    requires |p| == 6 && ValueMatches(g, Magic, p)
    ensures JudgedBy(JudgeMagic(ao, go, ho, p, other), ho, Acceptable(ao, go, g, Magic))
  {
    hide Get32, Put32;
  }

  lemma FlagsOwn(ao: Options, go: Options, g: Options, o: Opt)
    ensures o == Pcomp ==> (Acceptable(ao, go, g, o) <==> ao.negPcomp)
    ensures o == Accomp ==> (Acceptable(ao, go, g, o) <==> ao.negAccomp)
    ensures o == Callback ==> !Acceptable(ao, go, g, o)
  {}

  lemma FirstOwn(g: Options, os: seq<Opt>)
    requires os != []
    ensures var p := EncodeAll(g, os);
            p != [] && First(p) == Item(Encode(g, os[0]), false) && p[|First(p).octets|..] == EncodeAll(g, os[1..])
  {
    var p, e, r := EncodeAll(g, os), Encode(g, os[0]), EncodeAll(g, os[1..]);
    assert p == e + r;
    hide Encode, EncodeAll;
    FirstOf(e, r);
  }

  lemma FirstOf(e: seq<Byte>, r: seq<Byte>)
    requires |e| >= 2 && e[1] == |e|
    ensures First(e + r) == Item(e, false) && (e + r)[|e|..] == r
  {
    assert (e + r)[..|e|] == e;
  }

  lemma {:induction false} AckOwn(ao: Options, go: Options, ho: Options, g: Options, os: seq<Opt>, strict: bool, magic: nat -> U32)
    requires (Chap in os ==> !ho.negUpap && Pap !in os) && (Pap in os ==> !ho.negChap)
    ensures (forall x | x in Outcomes(ao, go, ho, EncodeAll(g, os), strict, magic) :: x.answer == Ack)
            <==> forall o | o in os :: Acceptable(ao, go, g, o)
    decreases |os|
  {
    hide Encode, Judge, Acceptable, First, EncodeAll;
    if os == [] {
      assert EncodeAll(g, os) == [] by { NothingEncoded(g, os); }
    } else {
      var p := EncodeAll(g, os);
      FirstOwn(g, os);
      var i := First(p);
      var rest := p[|i.octets|..];
      var j := Judge(ao, go, ho, i, magic(|rest|));
      JudgeOwn(ao, go, ho, g, os[0], magic(|rest|));
      assert os == [os[0]] + os[1..];
      AckOwn(ao, go, j.ho, g, os[1..], strict, magic);
      var all, more := Outcomes(ao, go, ho, p, strict, magic), Outcomes(ao, go, j.ho, rest, strict, magic);
      assert all == [Outcome(i, Settle(j.answer, i, strict), j.nak)] + more;
      assert all[0].answer == Ack <==> j.answer == Ack;
    }
  }

  lemma NothingEncoded(g: Options, os: seq<Opt>)
    requires os == []
    ensures EncodeAll(g, os) == []
  {}

  lemma AuthOnce(g: Options, os: seq<Opt>)
    ensures forall o | o in Chosen(g, os) :: Wanted(g, o)
    ensures !(Chap in Chosen(g, os) && Pap in Chosen(g, os))
  {
    hide Wanted;
    if os != [] { AuthOnce(g, os[1..]); }
    assert !(Wanted(g, Chap) && Wanted(g, Pap)) by { NotBoth(g); }
  }

  lemma NotBoth(g: Options)
    ensures !(Wanted(g, Chap) && Wanted(g, Pap))
  {}

  /** A request made by this code is acked by this code exactly when every option in it is acceptable; and the ack,
      which repeats it, is then accepted by the side that made it. */
  lemma Agreement(ao: Options, go: Options, g: Options, strict: bool, magic: nat -> U32)
    ensures Overall(Outcomes(ao, go, NOTHING, AddCi(g), strict, magic)) == Ack
            <==> forall o | o in Chosen(g, ORDER) :: Acceptable(ao, go, g, o)
    ensures AckFrom(g, ORDER, AddCi(g))
  {
    AuthOnce(g, ORDER);
    AckExactly(g, ORDER, AddCi(g));
    hide ORDER, Chosen, EncodeAll, Acceptable, AckFrom;
    AckOwn(ao, go, NOTHING, g, Chosen(g, ORDER), strict, magic);
    var os := Outcomes(ao, go, NOTHING, AddCi(g), strict, magic);
    hide Outcomes;
    assert Overall(os) == Ack <==> forall x | x in os :: x.answer == Ack by { OverallAck(os); }
  }

  lemma OverallAck(os: seq<Outcome>)
    ensures Overall(os) == Ack <==> forall x | x in os :: x.answer == Ack
  {}

  lemma {:induction false} SuggestedFits(ao: Options, go: Options, ho: Options, p: seq<Byte>, strict: bool, magic: nat -> U32)
    ensures |Suggested(Outcomes(ao, go, ho, p, strict, magic))| <= |p| + |p| / 4
    decreases |p|
  {
    hide Judge, Settle;
    if p != [] {
      var i := First(p);
      var rest := p[|i.octets|..];
      var j := Judge(ao, go, ho, i, magic(|rest|));
      JudgeNak(ao, go, ho, i, magic(|rest|));
      SuggestedFits(ao, go, j.ho, rest, strict, magic);
      var os := Outcomes(ao, go, ho, p, strict, magic);
      assert os[1..] == Outcomes(ao, go, j.ho, rest, strict, magic);
      QuarterSum(|i.octets|, |rest|);
    }
  }

  /** A suggestion is longer than the option only when CHAP is suggested for an authentication option of four octets. */
  lemma NakOutgrows(ao: Options, go: Options, ho: Options, i: Item, other: U32)
    requires !i.bad ==> |i.octets| >= 2
    ensures var j := Judge(ao, go, ho, i, other);
            && (|j.nak| > |i.octets| <==> j.answer == Nak && !i.bad && |i.octets| == 4 && i.octets[0] == 3 && ao.negChap)
            && |j.nak| <= |i.octets| + 1
  {
    hide JudgeMru, JudgeAsyncmap, JudgeAuth, JudgeQuality, JudgeMagic;
    if !i.bad {
      OthersNoLonger(ao, go, ho, i.octets, other);
      AuthOutgrows(ao, ho, i.octets);
    }
  }

  lemma OthersNoLonger(ao: Options, go: Options, ho: Options, p: seq<Byte>, other: U32)
    requires |p| >= 2
    ensures |JudgeMru(ao, ho, p).nak| <= |p| && |JudgeAsyncmap(ao, ho, p).nak| <= |p| && |JudgeQuality(ao, ho, p).nak| <= |p|
    ensures |JudgeMagic(ao, go, ho, p, other).nak| <= |p|
  {
    hide Get16, Get32, Put16, Put32, Lacks, Both;
  }

  lemma AuthOutgrows(ao: Options, ho: Options, p: seq<Byte>)
    requires |p| >= 2
    ensures var j := JudgeAuth(ao, ho, p);
            (|j.nak| > |p| <==> j.answer == Nak && |p| == 4 && ao.negChap) && |j.nak| <= |p| + 1
  {
    hide Get16, SuggestChap, SuggestPap;
  }

  /** It happens: a request for PAP, of four octets, where only CHAP will do is answered by a Nak of five. */
  lemma NakOutgrowsRequest(ao: Options, go: Options, p: seq<Byte>, magic: nat -> U32)
    requires ao.negChap && !ao.negUpap && |p| == 4 && p[0] == 3 && p[1] == 4 && Get16(p, 2) == PPP_PAP
    ensures var os := Outcomes(ao, go, NOTHING, p, false, magic);
            Overall(os) == Nak && Suggested(os) == SuggestChap(ao) && |Suggested(os)| == |p| + 1
  {
    hide SuggestChap, Judge, Get16, Overall, Suggested;
    var i := Item(p, false);
    assert p[..4] == p && p[4..] == [] && First(p) == i;
    JudgedAuth(ao, go, NOTHING, p, magic(0));
    var one := Outcome(i, Nak, SuggestChap(ao));
    assert Judge(ao, go, NOTHING, i, magic(0)) == Judged(Nak, NOTHING, SuggestChap(ao));
    assert Outcomes(ao, go, NOTHING, p, false, magic) == [one];
    OneNak(one);
  }

  lemma OneNak(o: Outcome)
    requires o.answer == Nak
    ensures Overall([o]) == Nak && Suggested([o]) == o.nak
  {
    assert [o][1..] == [] && o.nak + [] == o.nak;
    assert [o][0].answer == Nak;
  }

  lemma QuarterSum(a: nat, b: nat)
    ensures a / 4 + b / 4 <= (a + b) / 4
  {}

  lemma {:induction false} JoinOutcomes(a: seq<Outcome>, b: seq<Outcome>)
    ensures Rejected(a + b) == Rejected(a) + Rejected(b) && Suggested(a + b) == Suggested(a) + Suggested(b)
    decreases |a|
  {
    if a == [] {
      assert a + b == b;
    } else {
      assert (a + b)[1..] == a[1..] + b;
      JoinOutcomes(a[1..], b);
    }
  }

  /** The overall answer after one more option. */
  lemma OverallNext(os: seq<Outcome>, o: Outcome)
    ensures Overall(os + [o]) == if Overall(os) == Rej || o.answer == Rej then Rej
                                 else if Overall(os) == Nak || o.answer == Nak then Nak else Ack
  {
    var t := os + [o];
    assert forall k | 0 <= k < |os| :: t[k] == os[k];
    assert t[|os|] == o;
  }

  /** No option is empty, so something is rejected exactly when the rejected octets are not none. */
  lemma {:induction false} NothingRejected(os: seq<Outcome>)
    requires Overall(os) != Rej
    ensures Rejected(os) == []
    decreases |os|
  {
    if os != [] {
      assert os[0].answer != Rej;
      assert forall k | 0 <= k < |os[1..]| :: os[1..][k] == os[k + 1];
      NothingRejected(os[1..]);
    }
  }

  const NOTHING := Options(false, false, false, false, false, false, false, false, false, 0, 0, 0, 0, 0)

  /** The request so far: `done` are the outcomes of the options before `next`. */
  ghost predicate Reading(ao: Options, go: Options, p: seq<Byte>, strict: bool, magic: nat -> U32,
                          done: seq<Outcome>, ho: Options, next: nat)
  {
    && next <= |p|
    && Outcomes(ao, go, NOTHING, p, strict, magic) == done + Outcomes(ao, go, ho, p[next..], strict, magic)
    && Remembered(ao, go, NOTHING, p, magic) == Remembered(ao, go, ho, p[next..], magic)
  }

  lemma ReadOne(ao: Options, go: Options, p: seq<Byte>, strict: bool, magic: nat -> U32, done: seq<Outcome>, ho: Options, next: nat)
    requires Reading(ao, go, p, strict, magic, done, ho, next) && next < |p|
    ensures var i := First(p[next..]);
            var left := |p| - next - |i.octets|;
            var j := Judge(ao, go, ho, i, magic(left));
            Reading(ao, go, p, strict, magic, done + [Outcome(i, Settle(j.answer, i, strict), j.nak)], j.ho, next + |i.octets|)
  {
    hide Judge, Settle;
    var rest := p[next..];
    var i := First(rest);
    assert rest[|i.octets|..] == p[next + |i.octets|..];
    var j := Judge(ao, go, ho, i, magic(|rest| - |i.octets|));
    var one := [Outcome(i, Settle(j.answer, i, strict), j.nak)];
    var more := Outcomes(ao, go, j.ho, p[next + |i.octets|..], strict, magic);
    assert done + (one + more) == (done + one) + more;
  }

  lemma ReadAll(ao: Options, go: Options, p: seq<Byte>, strict: bool, magic: nat -> U32, done: seq<Outcome>, ho: Options)
    requires Reading(ao, go, p, strict, magic, done, ho, |p|)
    ensures done == Outcomes(ao, go, NOTHING, p, strict, magic) && ho == Remembered(ao, go, NOTHING, p, magic)
  {
    assert p[|p|..] == [] && done + [] == done;
  }

  class Lcp {
    var go: Options
    var ho: Options
    var ao: Options

    constructor (got: Options, allowed: Options)
      ensures go == got && ao == allowed && ho == NOTHING
    {
      go, ho, ao := got, NOTHING, allowed;
    }

    /** lcp_addci: the wanted options one after the other; the result is as long as lcp_cilen says. */
    method Request() returns (r: seq<Byte>)
      ensures r == AddCi(go) && |r| == CiLen(go)
    {
      hide Wanted, Encode, ORDER, Chosen, EncodeAll, CiLen;
      CiLenIsLength(go);
      r := [];
      var k := 0;
      assert ORDER[0..] == ORDER;
      while k < |ORDER|
        invariant 0 <= k <= |ORDER| && AddCi(go) == r + EncodeAll(go, Chosen(go, ORDER[k..]))
      {
        var o := ORDER[k];
        ChosenFirst(go, ORDER[k..]);
        assert ORDER[k..][1..] == ORDER[k + 1..] && ORDER[k..][0] == o;
        ghost var more := EncodeAll(go, Chosen(go, ORDER[k + 1..]));
        if Wanted(go, o) {
          assert r + (Encode(go, o) + more) == (r + Encode(go, o)) + more;
          r := r + Encode(go, o);
        } else {
          assert [] + more == more;
        }
        k := k + 1;
      }
      NoneChosen(go, ORDER[k..]);
      assert r + [] == r;
    }

    /** lcp_ackci. */
    method AckCi(packet: seq<Byte>) returns (good: bool)
      ensures good <==> packet == AddCi(go)
    {
      hide Wanted, Matches, ORDER, Chosen, EncodeAll;
      AckExactly(go, ORDER, packet);
      var p, k := packet, 0;
      assert ORDER[0..] == ORDER;
      while k < |ORDER|
        invariant 0 <= k <= |ORDER| && (AckFrom(go, ORDER, packet) <==> AckFrom(go, ORDER[k..], p))
      {
        assert ORDER[k..][1..] == ORDER[k + 1..] && ORDER[k..][0] == ORDER[k];
        if Wanted(go, ORDER[k]) {
          if !Matches(go, ORDER[k], p) { return false; }
          MatchesIs(go, ORDER[k], p);
          p := p[LengthOf(ORDER[k])..];
        }
        k := k + 1;
      }
      good := p == [];
    }

    /** lcp_rejci; `isOpen` says that the automaton is open, when nothing is changed. */
    method RejCi(packet: seq<Byte>, isOpen: bool) returns (good: bool)
      modifies this`go
      ensures var v := RejFrom(old(go), old(go), ORDER, packet);
              (good <==> v.Good?) && go == if v.Good? && !isOpen then v.options else old(go)
    {
      hide Asked, ValueMatches, Clear, ORDER;
      var p, k, next := packet, 0, go;
      assert ORDER[0..] == ORDER;
      while k < |ORDER|
        invariant 0 <= k <= |ORDER| && RejFrom(go, go, ORDER, packet) == RejFrom(go, next, ORDER[k..], p)
      {
        assert ORDER[k..][1..] == ORDER[k + 1..] && ORDER[k..][0] == ORDER[k];
        if Heads(go, ORDER[k], p) {
          if !ValueMatches(go, ORDER[k], p) { return false; }
          next := Clear(next, ORDER[k]);
          p := p[LengthOf(ORDER[k])..];
        }
        k := k + 1;
      }
      if p != [] { return false; }
      if !isOpen { go := next; }
      good := true;
    }

    /** Octets moved towards the front of a buffer. */
    static method MoveDown(buf: array<Byte>, src: nat, dst: nat, n: nat)
      requires dst <= src && src + n <= buf.Length
      modifies buf
      ensures buf[..] == Moved(old(buf[..]), src, dst, n)
    {
      ghost var before := buf[..];
      var k := 0;
      MoveNone(before, src, dst);
      while k < n
        invariant 0 <= k <= n && buf[..] == Moved(before, src, dst, k)
      {
        MoveOne(before, src, dst, k);
        assert buf[..][src + k] == before[src + k];
        buf[dst + k] := buf[src + k];
        k := k + 1;
      }
    }

    /** A rejected option kept at the end of those kept before it. */
    static method Keep(buf: array<Byte>, next: nat, rejp: nat, n: nat)
      requires rejp <= next && next + n <= buf.Length
      modifies buf
      ensures buf[..rejp + n] == old(buf[..rejp]) + old(buf[..])[next..next + n] && buf[..][next + n..] == old(buf[..])[next + n..]
    {
      ghost var before := buf[..];
      if next != rejp { MoveDown(buf, next, rejp, n); }
      Compacted(before, buf[..], next, rejp, n);
      assert buf[..rejp + n] == buf[..][..rejp + n] && before[..rejp] == old(buf[..rejp]);
    }

    /** The loop of lcp_reqci. Rejected options are moved to the front as they are found; those not read yet are never
        written over. */
    method ReadOptions(buf: array<Byte>, len: nat, strict: bool, magic: nat -> U32) returns (rc: Answer, nak: seq<Byte>, rejp: nat)
      requires len <= buf.Length
      modifies this`ho, buf
      ensures var os := Outcomes(ao, go, NOTHING, old(buf[..len]), strict, magic);
              rc == Overall(os) && nak == Suggested(os) && rejp <= len && buf[..rejp] == Rejected(os)
      ensures rc != Rej ==> buf[..] == old(buf[..])
      ensures ho == Remembered(ao, go, NOTHING, old(buf[..len]), magic)
    {
      hide Judge, Settle, Outcomes, Remembered, Overall, Rejected, Suggested, Reading, First, Kept;
      ghost var p := buf[..len];
      ghost var whole := buf[..];
      ghost var done: seq<Outcome> := [];
      ho, rc, nak, rejp := NOTHING, Ack, [], 0;
      var next := 0;
      StartReading(ao, go, p, strict, magic);
      KeptFirst(whole);
      while next < len
        invariant 0 <= next <= len && Reading(ao, go, p, strict, magic, done, ho, next)
        invariant rc == Overall(done) && nak == Suggested(done)
        invariant 0 <= rejp <= next && Kept(whole, buf[..], done, next, rejp, rc)
      {
        ghost var now := buf[..];
        KeptIs(whole, now, done, next, rejp, rc);
        StillThere(whole, now, len, next);
        assert buf[next..len] == now[next..len];
        var i := First(buf[next..len]);
        FirstFits(p[next..]);
        InPlace(whole, now, len, next, |i.octets|);
        ReadOne(ao, go, p, strict, magic, done, ho, next);
        var j := Judge(ao, go, ho, i, magic(len - next - |i.octets|));
        ho := j.ho;
        nak := nak + j.nak;
        var orc := Settle(j.answer, i, strict);
        ghost var o := Outcome(i, orc, j.nak);
        AddOutcome(done, o);
        if orc == Nak && rc != Rej { rc := Nak; }
        if orc == Rej {
          rc := Rej;
          Keep(buf, next, rejp, |i.octets|);
          KeptMoved(whole, now, buf[..], done, o, next, rejp, Overall(done));
          rejp := rejp + |i.octets|;
        } else {
          KeptPlain(whole, now, done, o, next, rejp, Overall(done), rc);
        }
        done := done + [o];
        next := next + |i.octets|;
      }
      KeptIs(whole, buf[..], done, next, rejp, rc);
      ReadAll(ao, go, p, strict, magic, done, ho);
    }

    /** lcp_reqci: the reply is left in the place of the request, and what the peer asked for is remembered. A Nak that is
        longer than the request needs room behind it. */
    method ReqCi(buf: array<Byte>, len: nat, strict: bool, magic: nat -> U32) returns (rc: Answer, n: nat)
      requires len <= buf.Length
      requires var os := Outcomes(ao, go, NOTHING, buf[..len], strict, magic);
               Overall(os) == Nak ==> |Suggested(os)| <= buf.Length
      modifies this`ho, buf
      ensures var os := Outcomes(ao, go, NOTHING, old(buf[..len]), strict, magic);
              && rc == Overall(os) && n <= buf.Length
              && buf[..n] == match rc { case Ack => old(buf[..len]) case Nak => Suggested(os) case Rej => Rejected(os) }
      ensures ho == Remembered(ao, go, NOTHING, old(buf[..len]), magic)
    {
      hide Outcomes, Remembered, Overall, Rejected, Suggested;
      ghost var whole := buf[..];
      var nak, rejp;
      rc, nak, rejp := ReadOptions(buf, len, strict, magic);
      if rc == Ack {
        n := len;
        assert buf[..len] == buf[..][..len] && whole[..len] == old(buf[..len]);
      } else if rc == Nak {
        n := |nak|;
        CopyIn(buf, nak);
      } else {
        n := rejp;
      }
    }

    static method CopyIn(buf: array<Byte>, octets: seq<Byte>)
      requires |octets| <= buf.Length
      modifies buf
      ensures buf[..|octets|] == octets
    {
      var k := 0;
      while k < |octets|
        invariant 0 <= k <= |octets| && buf[..k] == octets[..k]
      {
        buf[k] := octets[k];
        k := k + 1;
      }
    }
  }

  /** The rejected options are at the front of the buffer, and what has not been read is where it was. */
  ghost predicate Kept(whole: seq<Byte>, now: seq<Byte>, done: seq<Outcome>, next: nat, rejp: nat, rc: Answer)
  {
    && |now| == |whole| && rejp <= next <= |now| && now[..rejp] == Rejected(done) && now[next..] == whole[next..]
    && (rc != Rej ==> rejp == 0 && now == whole)
  }

  lemma KeptFirst(whole: seq<Byte>)
    ensures Kept(whole, whole, [], 0, 0, Ack)
  {}

  lemma KeptIs(whole: seq<Byte>, now: seq<Byte>, done: seq<Outcome>, next: nat, rejp: nat, rc: Answer)
    requires Kept(whole, now, done, next, rejp, rc)
    ensures |now| == |whole| && rejp <= next <= |now| && now[..rejp] == Rejected(done) && now[next..] == whole[next..]
    ensures rc != Rej ==> now == whole
  {}

  lemma KeptPlain(whole: seq<Byte>, now: seq<Byte>, done: seq<Outcome>, o: Outcome, next: nat, rejp: nat, was: Answer, rc: Answer)
    requires Kept(whole, now, done, next, rejp, was) && o.answer != Rej && (was == Rej <==> rc == Rej)
    requires next + |o.item.octets| <= |now|
    ensures Kept(whole, now, done + [o], next + |o.item.octets|, rejp, rc)
  {
    AddOutcome(done, o);
    hide Rejected;
    assert now[next + |o.item.octets|..] == now[next..][|o.item.octets|..];
  }

  lemma KeptMoved(whole: seq<Byte>, now: seq<Byte>, after: seq<Byte>, done: seq<Outcome>, o: Outcome, next: nat, rejp: nat, was: Answer)
    requires Kept(whole, now, done, next, rejp, was) && o.answer == Rej && next + |o.item.octets| <= |now| == |after|
    requires now[next..next + |o.item.octets|] == o.item.octets
    requires after[..rejp + |o.item.octets|] == now[..rejp] + now[next..next + |o.item.octets|]
    requires after[next + |o.item.octets|..] == now[next + |o.item.octets|..]
    ensures Kept(whole, after, done + [o], next + |o.item.octets|, rejp + |o.item.octets|, Rej)
  {
    AddOutcome(done, o);
    hide Rejected;
    assert now[next + |o.item.octets|..] == now[next..][|o.item.octets|..];
  }

  lemma ChosenFirst(go: Options, os: seq<Opt>)
    requires os != []
    ensures EncodeAll(go, Chosen(go, os)) == (if Wanted(go, os[0]) then Encode(go, os[0]) else []) + EncodeAll(go, Chosen(go, os[1..]))
  {
    hide Wanted, Encode;
    var rest := Chosen(go, os[1..]);
    assert Chosen(go, os) == (if Wanted(go, os[0]) then [os[0]] else []) + rest;
    hide Chosen;
    if Wanted(go, os[0]) {
      assert ([os[0]] + rest)[1..] == rest;
    } else {
      assert [] + rest == rest && [] + EncodeAll(go, rest) == EncodeAll(go, rest);
    }
  }

  lemma StartReading(ao: Options, go: Options, p: seq<Byte>, strict: bool, magic: nat -> U32)
    ensures Reading(ao, go, p, strict, magic, [], NOTHING, 0) && Overall([]) == Ack && Rejected([]) == [] && Suggested([]) == []
  {
    assert p[0..] == p;
    assert [] + Outcomes(ao, go, NOTHING, p, strict, magic) == Outcomes(ao, go, NOTHING, p, strict, magic);
  }

  /** What has not been read is still in place. */
  lemma StillThere(whole: seq<Byte>, now: seq<Byte>, len: nat, next: nat)
    requires next <= len <= |whole| == |now| && now[next..] == whole[next..]
    ensures now[next..len] == whole[..len][next..]
  {
    assert now[next..len] == now[next..][..len - next];
  }

  lemma InPlace(whole: seq<Byte>, now: seq<Byte>, len: nat, next: nat, n: nat)
    requires next + n <= len <= |whole| == |now| && now[next..] == whole[next..]
    ensures now[next..next + n] == whole[..len][next..][..n] && now[next + n..] == whole[next + n..]
  {
    assert now[next..next + n] == now[next..][..n] && now[next + n..] == now[next..][n..];
  }

  lemma FirstFits(p: seq<Byte>)
    requires p != []
    ensures 0 < |First(p).octets| <= |p| && p[..|First(p).octets|] == First(p).octets
  {}

  lemma AddOutcome(os: seq<Outcome>, o: Outcome)
    ensures Overall(os + [o]) == if Overall(os) == Rej || o.answer == Rej then Rej
                                 else if Overall(os) == Nak || o.answer == Nak then Nak else Ack
    ensures Rejected(os + [o]) == Rejected(os) + if o.answer == Rej then o.item.octets else []
    ensures Suggested(os + [o]) == Suggested(os) + o.nak
  {
    OverallNext(os, o);
    JoinOutcomes(os, [o]);
    assert [o][1..] == [] && o.item.octets + [] == o.item.octets && o.nak + [] == o.nak;
  }

  lemma NoneChosen(go: Options, os: seq<Opt>)
    requires os == []
    ensures EncodeAll(go, Chosen(go, os)) == []
  {}

  /** A buffer after n octets have been moved down from src to dst. */
  function Moved(before: seq<Byte>, src: nat, dst: nat, n: nat): (r: seq<Byte>)
    requires dst <= src && src + n <= |before|
    ensures |r| == |before|
  {
    before[..dst] + before[src..src + n] + before[dst + n..]
  }

  lemma MoveNone(before: seq<Byte>, src: nat, dst: nat)
    requires dst <= src <= |before|
    ensures Moved(before, src, dst, 0) == before
  {}

  /** The octet to move next has not been written over. */
  lemma MoveOne(before: seq<Byte>, src: nat, dst: nat, k: nat)
    requires dst <= src && src + k < |before|
    ensures Moved(before, src, dst, k)[src + k] == before[src + k]
    ensures Moved(before, src, dst, k)[dst + k := before[src + k]] == Moved(before, src, dst, k + 1)
  {}

  /** Moving an option to the end of those kept leaves them and what has not been read as they were. */
  lemma Compacted(before: seq<Byte>, after: seq<Byte>, next: nat, rejp: nat, n: nat)
    requires rejp <= next && next + n <= |before|
    requires after == if next == rejp then before else Moved(before, next, rejp, n)
    ensures |after| == |before| && after[..rejp + n] == before[..rejp] + before[next..next + n] && after[next + n..] == before[next + n..]
  {}
}
