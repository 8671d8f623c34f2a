/** What lcp_reqci suggests can be agreed to, and what it remembers is what the peer sent. */
module LcpNaks {
  import opened Words
  import opened LcpOptions
  import opened LcpRequest

  // ----- maps -----

  lemma BitsBack(x: bv32)
    ensures Bits(x as int) == x
  {}

  predicate Misses(x: bv32, y: bv32) { x & !y != 0 }

  function Union(x: bv32, y: bv32): bv32 { x | y }

  lemma LacksMisses(map1: U32, map2: U32)
    ensures Lacks(map1, map2) <==> Misses(Bits(map1), Bits(map2))
  {}

  lemma BothBits(map1: U32, map2: U32)
    ensures Bits(Both(map1, map2)) == Union(Bits(map1), Bits(map2))
  {
    BitsBack(Bits(map1) | Bits(map2));
  }

  lemma UnionContains(x: bv32, y: bv32)
    ensures !Misses(x, Union(x, y)) && !Misses(y, Union(x, y))
  {}

  lemma UnionLeast(x: bv32, y: bv32, z: bv32)
    ensures !Misses(x, z) && !Misses(y, z) ==> !Misses(Union(x, y), z)
  {}

  /** One map contains another when uniting them adds nothing. */
  lemma LacksIs(map1: U32, map2: U32)
    ensures Lacks(map1, map2) <==> Bits(map1) | Bits(map2) != Bits(map2)
  {
    var x, y := Bits(map1), Bits(map2);
    assert x & !y != 0 <==> x | y != y;
  }

  /** The suggested map contains both, and is contained in every map that does. */
  lemma BothLeast(map1: U32, map2: U32, other: U32)
    ensures !Lacks(map1, Both(map1, map2)) && !Lacks(map2, Both(map1, map2))
    ensures !Lacks(map1, other) && !Lacks(map2, other) ==> !Lacks(Both(map1, map2), other)
  {
    hide Bits, Lacks, Both, Misses, Union;
    BothBits(map1, map2);
    UnionContains(Bits(map1), Bits(map2));
    UnionLeast(Bits(map1), Bits(map2), Bits(other));
    LacksMisses(map1, Both(map1, map2));
    LacksMisses(map2, Both(map1, map2));
    LacksMisses(map1, other);
    LacksMisses(map2, other);
    LacksMisses(Both(map1, map2), other);
  }

  // ----- the answer to each option of an lwIP peer -----

  /** What an end is ready to talk about. */
  predicate Allowed(ao: Options, go: Options, o: Opt)
  {
    match o
    case Mru => ao.negMru
    case Asyncmap => ao.negAsyncmap
    case Chap => ao.negUpap || ao.negChap
    case Pap => ao.negUpap || ao.negChap
    case Quality => ao.negLqr
    case Callback => false
    case Magic => ao.negMagic || go.negMagic
    case Pcomp => ao.negPcomp
    case Accomp => ao.negAccomp
  }

  /** What is noted of an option that is acked. */
  function Note(ho: Options, g: Options, o: Opt): Options
  {
    match o
    case Mru => ho.(negMru := true, mru := g.mru)
    case Asyncmap => ho.(negAsyncmap := true, asyncmap := g.asyncmap)
    case Chap => ho.(negChap := true, mdType := g.mdType)
    case Pap => ho.(negUpap := true)
    case Quality => ho
    case Callback => ho
    case Magic => ho.(negMagic := true, magic := g.magic)
    case Pcomp => ho.(negPcomp := true)
    case Accomp => ho.(negAccomp := true)
  }

  /** An option that is not allowed is rejected; one that is allowed but not acceptable is nak'd; one that is acceptable
      is acked, and noted as it came. */
  predicate AnsweredWell(ao: Options, go: Options, ho: Options, g: Options, o: Opt, j: Judged)
  {
    && j.answer == (if !Allowed(ao, go, o) then Rej else if !Acceptable(ao, go, g, o) then Nak else Ack)
    && j.ho == (if j.answer == Ack then Note(ho, g, o) else ho)
  }

  lemma AnswerOwn(ao: Options, go: Options, ho: Options, g: Options, o: Opt, other: U32)
    requires (o == Chap ==> !ho.negUpap) && (o == Pap ==> !ho.negChap)
    ensures AnsweredWell(ao, go, ho, g, o, Judge(ao, go, ho, Item(Encode(g, o), false), other))
  {
    hide Encode, Judge, ValueMatches, AnsweredWell, JudgeAuth;
    var p := Encode(g, o);
    EncodedMatches(g, o);
    if o == Chap || o == Pap {
      JudgedAuth(ao, go, ho, p, other);
      AnswerAuth(ao, go, ho, g, o, p);
    } else {
      AnswerOther(ao, go, ho, g, o, p, other);
    }
  }

  lemma AnswerAuth(ao: Options, go: Options, ho: Options, g: Options, o: Opt, p: seq<Byte>)
    requires (o == Chap && !ho.negUpap) || (o == Pap && !ho.negChap)
    requires |p| == LengthOf(o) && ValueMatches(g, o, p)
    ensures AnsweredWell(ao, go, ho, g, o, JudgeAuth(ao, ho, p))
  {
    hide Get16, Get32, SuggestChap, SuggestPap, Lacks;
  }

  lemma AnswerOther(ao: Options, go: Options, ho: Options, g: Options, o: Opt, p: seq<Byte>, other: U32)
    requires o != Chap && o != Pap && |p| == LengthOf(o) && p[0] == TypeOf(o) && ValueMatches(g, o, p)
    ensures AnsweredWell(ao, go, ho, g, o, Judge(ao, go, ho, Item(p, false), other))
  {
    hide Get16, Get32, Put16, Put32, Lacks, Both, JudgeAuth;
  }

  function NoteAll(ho: Options, g: Options, os: seq<Opt>): Options
    decreases |os|
  {
    if os == [] then ho else NoteAll(Note(ho, g, os[0]), g, os[1..])
  }

  lemma {:induction false} NotedOwn(ao: Options, go: Options, ho: Options, g: Options, os: seq<Opt>, magic: nat -> U32)
    requires (Chap in os ==> !ho.negUpap && Pap !in os) && (Pap in os ==> !ho.negChap)
    requires forall o | o in os :: Acceptable(ao, go, g, o)
    ensures Remembered(ao, go, ho, EncodeAll(g, os), magic) == NoteAll(ho, g, os)
    decreases |os|
  {
    hide Encode, Judge, Acceptable, First, EncodeAll;
    if os == [] {
      NothingEncoded(g, os);
    } else {
      var p := EncodeAll(g, os);
      FirstOwn(g, os);
      var i := First(p);
      var rest := p[|i.octets|..];
      AnswerOwn(ao, go, ho, g, os[0], magic(|rest|));
      assert os == [os[0]] + os[1..];
      AllowedIfAcceptable(ao, go, g, os[0]);
      NotedOwn(ao, go, Note(ho, g, os[0]), g, os[1..], magic);
    }
  }

  lemma AllowedIfAcceptable(ao: Options, go: Options, g: Options, o: Opt)
    ensures Acceptable(ao, go, g, o) ==> Allowed(ao, go, o)
  {}

  /** After a request of an lwIP peer that is acked, what is remembered is what that peer asked for: each option it sent
      with its value, and no other. */
  lemma RemembersOwn(ao: Options, go: Options, g: Options, magic: nat -> U32)
    requires forall o | o in Chosen(g, ORDER) :: Acceptable(ao, go, g, o)
    ensures Remembered(ao, go, NOTHING, AddCi(g), magic)
            == Options(Wanted(g, Mru), Wanted(g, Asyncmap), Wanted(g, Pap), Wanted(g, Chap), Wanted(g, Magic), Wanted(g, Pcomp),
                       Wanted(g, Accomp), false, false,
                       If(Wanted(g, Mru), g.mru), If(Wanted(g, Chap), g.mdType), If(Wanted(g, Asyncmap), g.asyncmap),
                       If(Wanted(g, Magic), g.magic), 0)
  {
    AuthOnce(g, ORDER);
    hide ORDER, EncodeAll, Acceptable, Wanted;
    NotedOwn(ao, go, NOTHING, g, Chosen(g, ORDER), magic);
    NotedOrder(g);
  }

  function NoteIf(ho: Options, g: Options, o: Opt): Options { if Wanted(g, o) then Note(ho, g, o) else ho }

  lemma NoteStep(ho: Options, g: Options, k: nat)
    requires k < |ORDER|
    ensures NoteAll(ho, g, Chosen(g, ORDER[k..])) == NoteAll(NoteIf(ho, g, ORDER[k]), g, Chosen(g, ORDER[k + 1..]))
  {
    hide Wanted, Note;
    var os := ORDER[k..];
    assert os[1..] == ORDER[k + 1..];
    var rest := Chosen(g, os[1..]);
    if Wanted(g, os[0]) { assert ([os[0]] + rest)[1..] == rest; } else { assert [] + rest == rest; }
  }

  lemma NotedOrder(g: Options)
    ensures NoteAll(NOTHING, g, Chosen(g, ORDER))
            == Options(Wanted(g, Mru), Wanted(g, Asyncmap), Wanted(g, Pap), Wanted(g, Chap), Wanted(g, Magic), Wanted(g, Pcomp),
                       Wanted(g, Accomp), false, false,
                       If(Wanted(g, Mru), g.mru), If(Wanted(g, Chap), g.mdType), If(Wanted(g, Asyncmap), g.asyncmap),
                       If(Wanted(g, Magic), g.magic), 0)
  {
    hide Wanted, ORDER, NoteAll, Chosen;
    OrderIs();
    assert ORDER[0..] == ORDER;
    var d := NoteIf(NoteIf(NoteIf(NoteIf(NOTHING, g, Mru), g, Asyncmap), g, Chap), g, Pap);
    var i := NoteIf(NoteIf(NoteIf(NoteIf(d, g, Quality), g, Callback), g, Magic), g, Pcomp);
    FirstNotes(g);
    LastNotes(d, g);
    hide NoteIf;
    NoteStep(NOTHING, g, 0);
    NoteStep(NoteIf(NOTHING, g, Mru), g, 1);
    NoteStep(NoteIf(NoteIf(NOTHING, g, Mru), g, Asyncmap), g, 2);
    NoteStep(NoteIf(NoteIf(NoteIf(NOTHING, g, Mru), g, Asyncmap), g, Chap), g, 3);
    NoteStep(d, g, 4);
    NoteStep(NoteIf(d, g, Quality), g, 5);
    NoteStep(NoteIf(NoteIf(d, g, Quality), g, Callback), g, 6);
    NoteStep(NoteIf(NoteIf(NoteIf(d, g, Quality), g, Callback), g, Magic), g, 7);
    NoteStep(i, g, 8);
    NoteNone(NoteIf(i, g, Accomp), g);
  }

  lemma FirstNotes(g: Options)
    ensures NoteIf(NoteIf(NoteIf(NoteIf(NOTHING, g, Mru), g, Asyncmap), g, Chap), g, Pap)
            == NOTHING.(negMru := Wanted(g, Mru), negAsyncmap := Wanted(g, Asyncmap), negChap := Wanted(g, Chap),
                        negUpap := Wanted(g, Pap), mru := If(Wanted(g, Mru), g.mru),
                        asyncmap := If(Wanted(g, Asyncmap), g.asyncmap), mdType := If(Wanted(g, Chap), g.mdType))
  {
    hide Wanted;
  }

  lemma LastNotes(d: Options, g: Options)
    ensures NoteIf(NoteIf(NoteIf(NoteIf(NoteIf(d, g, Quality), g, Callback), g, Magic), g, Pcomp), g, Accomp)
            == d.(negMagic := Wanted(g, Magic) || d.negMagic, magic := if Wanted(g, Magic) then g.magic else d.magic,
                  negPcomp := Wanted(g, Pcomp) || d.negPcomp, negAccomp := Wanted(g, Accomp) || d.negAccomp)
  {
    hide Wanted;
    NoNotes(d, g);
    var e := NoteIf(d, g, Magic);
    MagicNote(d, g);
    hide NoteIf;
    FlagNotes(e, g);
  }

  lemma NoNotes(d: Options, g: Options)
    ensures NoteIf(NoteIf(d, g, Quality), g, Callback) == d
  {}

  lemma MagicNote(d: Options, g: Options)
    ensures NoteIf(d, g, Magic)
            == d.(negMagic := Wanted(g, Magic) || d.negMagic, magic := if Wanted(g, Magic) then g.magic else d.magic)
  {
    hide Wanted;
  }

  lemma FlagNotes(d: Options, g: Options)
    ensures NoteIf(NoteIf(d, g, Pcomp), g, Accomp)
            == d.(negPcomp := Wanted(g, Pcomp) || d.negPcomp, negAccomp := Wanted(g, Accomp) || d.negAccomp)
  {
    hide Wanted;
  }

  lemma NoteNone(ho: Options, g: Options)
    ensures NoteAll(ho, g, Chosen(g, ORDER[9..])) == ho
  {
    assert ORDER[9..] == [];
  }

  // ----- a Nak can be followed -----

  /** The suggested option, taken as a request of its own by the end that suggested it, is acked: unless it is CHAP with a
      digest that this end does not know itself, or the random number came out as our own again. */
  predicate CanBeFollowed(ao: Options, go: Options, nak: seq<Byte>, other: U32)
  {
    && |nak| >= 2 && First(nak) == Item(nak, false)
    && (Judge(ao, go, NOTHING, Item(nak, false), other).answer == Ack
        <==> !(nak == SuggestChap(ao) && ao.mdType != CHAP_DIGEST_MD5) && !(nak[0] == 5 && nak == [5, 6] + Put32(go.magic)))
  }

  lemma WholeItem(p: seq<Byte>)
    requires |p| >= 2 && p[1] == |p|
    ensures First(p) == Item(p, false)
  {
    assert p[..|p|] == p;
  }

  lemma Get16After(a: Byte, b: Byte, n: U16, rest: seq<Byte>)
    ensures Get16([a, b] + Put16(n) + rest, 2) == n
  {
    Join16(n);
  }

  lemma Get32After(a: Byte, b: Byte, n: U32)
    ensures Get32([a, b] + Put32(n), 2) == n
  {
    Join32(n);
    hide Oct;
  }

  lemma MruFollowed(ao: Options, go: Options, ho: Options, p: seq<Byte>, other: U32)
    requires |p| >= 2 && JudgeMru(ao, ho, p).answer == Nak
    ensures CanBeFollowed(ao, go, JudgeMru(ao, ho, p).nak, other)
  {
    hide Put16, Get16, SuggestChap, JudgeAsyncmap, JudgeAuth, JudgeQuality, JudgeMagic;
    var q: seq<Byte> := [1, 4] + Put16(PPP_MINMRU);
    Get16After(1, 4, PPP_MINMRU, []);
    assert [1, 4] + Put16(PPP_MINMRU) + [] == q;
    ChapFirst(ao);
    WholeItem(q);
  }

  lemma AsyncmapFollowed(ao: Options, go: Options, ho: Options, p: seq<Byte>, other: U32)
    requires |p| >= 2 && JudgeAsyncmap(ao, ho, p).answer == Nak
    ensures CanBeFollowed(ao, go, JudgeAsyncmap(ao, ho, p).nak, other)
  {
    var m := Both(ao.asyncmap, Get32(p, 2));
    var q: seq<Byte> := [2, 6] + Put32(m);
    Get32After(2, 6, m);
    BothLeast(ao.asyncmap, Get32(p, 2), 0);
    hide Put32, Get32, SuggestChap, Lacks, Both;
    WholeItem(q);
  }

  lemma QualityFollowed(ao: Options, go: Options, ho: Options, p: seq<Byte>, other: U32)
    requires |p| >= 2 && JudgeQuality(ao, ho, p).answer == Nak
    ensures CanBeFollowed(ao, go, JudgeQuality(ao, ho, p).nak, other)
  {
    var q: seq<Byte> := [4, 8] + Put16(PPP_LQR) + Put32(ao.lqrPeriod);
    Get16After(4, 8, PPP_LQR, Put32(ao.lqrPeriod));
    hide Put16, Put32, Get16, SuggestChap;
    WholeItem(q);
  }

  lemma MagicFollowed(ao: Options, go: Options, ho: Options, p: seq<Byte>, suggested: U32, other: U32)
    requires |p| >= 2 && JudgeMagic(ao, go, ho, p, suggested).answer == Nak
    ensures CanBeFollowed(ao, go, JudgeMagic(ao, go, ho, p, suggested).nak, other)
  {
    var q: seq<Byte> := [5, 6] + Put32(suggested);
    Get32After(5, 6, suggested);
    Get32After(5, 6, go.magic);
    hide Put32, Get32, SuggestChap;
    WholeItem(q);
  }

  lemma AuthFollowed(ao: Options, go: Options, ho: Options, p: seq<Byte>, other: U32)
    requires |p| >= 2 && JudgeAuth(ao, ho, p).answer == Nak
    ensures CanBeFollowed(ao, go, JudgeAuth(ao, ho, p).nak, other)
  {
    SuggestionsRead(ao);
    hide Put16, Put32, Get16, SuggestChap, SuggestPap, First, JudgeMru, JudgeAsyncmap, JudgeQuality, JudgeMagic;
    WholeItem(SuggestChap(ao));
    WholeItem(SuggestPap());
  }

  lemma SuggestionsRead(ao: Options)
    ensures var c := SuggestChap(ao); c[0] == 3 && c[1] == 5 && Get16(c, 2) == PPP_CHAP && c[4] == ao.mdType
    ensures var p := SuggestPap(); p[0] == 3 && p[1] == 4 && Get16(p, 2) == PPP_PAP
  {
    Get16After(3, 5, PPP_CHAP, [ao.mdType]);
    Get16After(3, 4, PPP_PAP, []);
    assert SuggestPap() == [3, 4] + Put16(PPP_PAP) + [];
    assert SuggestChap(ao) == [3, 5] + Put16(PPP_CHAP) + [ao.mdType];
  }

  lemma ChapFirst(ao: Options)
    ensures SuggestChap(ao)[0] == 3
  {}

  lemma NakFollowed(ao: Options, go: Options, ho: Options, i: Item, suggested: U32, other: U32)
    requires !i.bad ==> |i.octets| >= 2
    requires Judge(ao, go, ho, i, suggested).answer == Nak
    ensures CanBeFollowed(ao, go, Judge(ao, go, ho, i, suggested).nak, other)
  {
    hide JudgeMru, JudgeAsyncmap, JudgeAuth, JudgeQuality, JudgeMagic, CanBeFollowed;
    var p := i.octets;
    if p[0] == 1 { MruFollowed(ao, go, ho, p, other); }
    else if p[0] == 2 { AsyncmapFollowed(ao, go, ho, p, other); }
    else if p[0] == 3 { AuthFollowed(ao, go, ho, p, other); }
    else if p[0] == 4 { QualityFollowed(ao, go, ho, p, other); }
    else if p[0] == 5 { MagicFollowed(ao, go, ho, p, suggested, other); }
  }

  /** Every option of a whole Nak can be followed. */
  lemma {:induction false} NaksFollowed(ao: Options, go: Options, ho: Options, p: seq<Byte>, strict: bool, magic: nat -> U32, other: U32)
    ensures forall o | o in Outcomes(ao, go, ho, p, strict, magic) && o.answer == Nak :: CanBeFollowed(ao, go, o.nak, other)
    decreases |p|
  {
    hide Judge, CanBeFollowed;
    if p != [] {
      var i := First(p);
      var rest := p[|i.octets|..];
      var j := Judge(ao, go, ho, i, magic(|rest|));
      if j.answer == Nak { NakFollowed(ao, go, ho, i, magic(|rest|), other); }
      NaksFollowed(ao, go, j.ho, rest, strict, magic, other);
    }
  }

  /** The map suggested contains ours and the peer's, and no map that does is smaller. */
  lemma MapSuggested(ao: Options, ho: Options, p: seq<Byte>, third: U32)
    requires |p| >= 2 && JudgeAsyncmap(ao, ho, p).answer == Nak
    ensures var nak := JudgeAsyncmap(ao, ho, p).nak;
            && |p| == |nak| == 6
            && !Lacks(ao.asyncmap, Get32(nak, 2)) && !Lacks(Get32(p, 2), Get32(nak, 2))
            && (!Lacks(ao.asyncmap, third) && !Lacks(Get32(p, 2), third) ==> !Lacks(Get32(nak, 2), third))
  {
    Get32After(2, 6, Both(ao.asyncmap, Get32(p, 2)));
    BothLeast(ao.asyncmap, Get32(p, 2), third);
    hide Put32, Get32, Lacks, Both;
  }
}
