/** Two automata joined by a link that loses nothing: they open, and they close. Messages may arrive in any order. */
module FsmLink {
  import opened FsmSpec

  datatype Msg = Msg(code: Code, id: Id)

  function Length(t: Trace): nat { if t.Empty? then 0 else Length(t.before) + 1 }

  /** The messages among the actions after the first k. */
  function SentAfter(t: Trace, k: nat): seq<Msg>
    decreases t
  {
    match t
    case Empty => []
    case Then(b, a) =>
      if Length(t) <= k then [] else SentAfter(b, k) + if a.Sent? then [Msg(a.code, a.id)] else []
  }

  /** One end: its options, its automaton, and the messages on their way to it. */
  datatype Half = Half(o: Options, m: Fsm, inbox: seq<Msg>)

  datatype Net = Net(a: Half, b: Half)

  datatype End = A | B

  /** Something happens at one end, or the k-th message on its way there arrives. The verdicts on a request are free; a
      Nak or Reject can be followed. */
  datatype Move =
    | Happens(at: End, e: Event)
    | Arrives(at: End, k: nat, reply: Code, strict: Code, ret: int)

  function Arrival(m: Msg, v: Move): Event
    requires v.Arrives?
  {
    match m.code
    case ConfReq => RcvConfReq(m.id, v.reply, v.strict)
    case ConfAck => RcvConfAck(m.id, true)
    case ConfNak => RcvConfNakRej(m.id, v.ret)
    case ConfRej => RcvConfNakRej(m.id, v.ret)
    case TermReq => RcvTermReq(m.id)
    case TermAck => RcvTermAck
    case CodeRej => RcvCodeRej(false)
  }

  function Without(q: seq<Msg>, k: nat): seq<Msg>
    requires k < |q|
  {
    q[..k] + q[k + 1..]
  }

  predicate Possible(h: Half, v: Move) { v.Arrives? ==> v.k < |h.inbox| && IsReply(v.reply) && IsReply(v.strict) && v.ret > 0 }

  function EventOf(h: Half, v: Move): Event
    requires Possible(h, v)
  {
    match v
    case Happens(_, e) => e
    case Arrives(_, k, _, _, _) => Arrival(h.inbox[k], v)
  }

  /** What a move does at its end, and what it puts on the way to the other. */
  function Act(h: Half, v: Move): (Half, seq<Msg>)
    requires Possible(h, v)
  {
    var t := Step(h.o, h.m, EventOf(h, v));
    (h.(m := t, inbox := if v.Arrives? then Without(h.inbox, v.k) else h.inbox), SentAfter(t.trace, Length(h.m.trace)))
  }

  function Moved(n: Net, v: Move): Net
    requires Possible(if v.at.A? then n.a else n.b, v)
  {
    match v.at
    case A => var (h, out) := Act(n.a, v); Net(h, n.b.(inbox := n.b.inbox + out))
    case B => var (h, out) := Act(n.b, v); Net(n.a.(inbox := n.a.inbox + out), h)
  }

  function Other(n: Net): Net { Net(n.b, n.a) }

  // ----- counts -----

  datatype Kind = AnUp | ADown | AFinish | ARefusal | ATermReq | ATermAck

  predicate Is(a: Action, k: Kind)
  {
    match k
    case AnUp => a.Up?
    case ADown => a.Down?
    case AFinish => a.Finish?
    case ARefusal => a.Sent? && (a.code.ConfNak? || a.code.ConfRej?)
    case ATermReq => a.Sent? && a.code.TermReq?
    case ATermAck => a.Sent? && a.code.TermAck?
  }

  function Count(t: Trace, k: Kind): nat
  {
    match t
    case Empty => 0
    case Then(b, a) => Count(b, k) + if Is(a, k) then 1 else 0
  }

  // ----- opening -----

  /** How far one end's request has come: not sent, on its way, answered with the answer on its way, or acked. */
  datatype Phase = Idle | Asked | Answered(code: Code) | Done

  predicate Agrees(p: Phase) { p.Done? || (p.Answered? && p.code.ConfAck?) }

  function Ask(p: Phase, id: Id): multiset<Msg> { if p.Asked? then multiset{Msg(ConfReq, id)} else multiset{} }

  function Answer(p: Phase, id: Id): multiset<Msg> { if p.Answered? then multiset{Msg(p.code, id)} else multiset{} }

  function Negotiated(acked: bool, agreed: bool): State
  {
    if acked then if agreed then Opened else AckRcvd else if agreed then AckSent else ReqSent
  }

  predicate Waiting(s: State) { s.Initial? || s.Starting? || s.Closed? }

  /** How often an end has still to be opened or brought up. */
  function ToCome(s: State): nat { if s.Initial? then 2 else if Waiting(s) then 1 else 0 }

  /** An end whose own request is in phase `mine` and whose peer's in phase `theirs`. */
  predicate Stage(o: Options, m: Fsm, mine: Phase, theirs: Phase)
  {
    && (mine.Answered? ==> IsReply(mine.code))
    && Untouched(m)
    && if mine.Idle? then (Waiting(m.state) || (o.silent && m.state.Stopped?)) && (theirs.Idle? || theirs.Asked?)
       else m.state == Negotiated(mine.Done?, Agrees(theirs)) && (m.seenAck <==> mine.Done?)
  }

  /** Up has been called once if the automaton is open and not at all otherwise, nothing has been taken down, and the timer
      runs while negotiating. */
  predicate Untouched(m: Fsm)
  {
    && (m.timer <==> Negotiating(m.state))
    && Count(m.trace, AnUp) == (if m.state.Opened? then 1 else 0)
    && Count(m.trace, ADown) == Count(m.trace, AFinish) == Count(m.trace, ATermReq) == Count(m.trace, ATermAck) == 0
  }

  /** What is on the way to an end: its peer's request, and the answer to its own. */
  predicate Carries(q: seq<Msg>, mine: Phase, id: Id, theirs: Phase, peerId: Id)
  {
    multiset(q) == Ask(theirs, peerId) + Answer(mine, id)
  }

  predicate Fits(me: Half, peer: Half, mine: Phase, theirs: Phase)
  {
    && Stage(me.o, me.m, mine, theirs) && Stage(peer.o, peer.m, theirs, mine)
    && Carries(me.inbox, mine, me.m.reqid, theirs, peer.m.reqid) && Carries(peer.inbox, theirs, peer.m.reqid, mine, me.m.reqid)
  }

  /** Arrivals still to come, if no more requests are refused. */
  function Weight(p: Phase): nat
  {
    match p
    case Idle => 2
    case Asked => 2
    case Answered(c) => if c.ConfAck? then 1 else 3
    case Done => 0
  }

  /** Each end is opened and its lower layer comes up, in either order; from then on messages can arrive there. */
  predicate Opening(h: Half, v: Move)
  {
    && Possible(h, v)
    && match v
       case Happens(_, e) => (e.Open? && (h.m.state.Initial? || h.m.state.Closed?)) || (e.LowerUp? && (h.m.state.Initial? || h.m.state.Starting?))
       case Arrives(_, _, _, _, _) => !Waiting(h.m.state)
  }

  /** The request goes out, or a silent end waits for the peer's. */
  lemma Begins(h: Half, e: Event)
    requires Opening(h, Happens(A, e))
    requires h.m.timer <==> Negotiating(h.m.state)
    ensures var t := Step(h.o, h.m, e);
            var out := SentAfter(t.trace, Length(h.m.trace));
            && (t.timer <==> Negotiating(t.state))
            && (forall k :: Count(t.trace, k) == Count(h.m.trace, k)) && ToCome(t.state) == ToCome(h.m.state) - 1
            && (if out == [] then (Waiting(t.state) || (h.o.silent && t.state.Stopped?))
                else t.state.ReqSent? && !t.seenAck && out == [Msg(ConfReq, t.reqid)])
  {
    OneSent(h.m.trace, Reset, ConfReq, NextId(h.m.id));
    NothingSent(h.m.trace, Start);
  }

  lemma NothingSent(t: Trace, a: Action)
    ensures SentAfter(t, Length(t)) == []
    ensures !a.Sent? ==> SentAfter(Then(t, a), Length(t)) == []
    ensures a.Sent? ==> SentAfter(Then(t, a), Length(t)) == [Msg(a.code, a.id)]
  {
    if t.Then? {}
  }

  lemma OneSent(t: Trace, a: Action, c: Code, id: Id)
    requires !a.Sent?
    ensures SentAfter(Then(Then(t, a), Sent(c, id)), Length(t)) == [Msg(c, id)]
    ensures forall d, x :: SentAfter(Then(Then(Then(t, a), Sent(c, id)), Sent(d, x)), Length(t)) == [Msg(c, id), Msg(d, x)]
    ensures SentAfter(Then(Then(t, Sent(c, id)), a), Length(t)) == [Msg(c, id)]
  {
    NothingSent(t, a);
    NothingSent(t, Sent(c, id));
  }

  /** The answer to a request, from an automaton that is negotiating. */
  lemma ReplySends(m: Fsm, id: Id, c: Code)
    requires IsReply(c) && (m.state.ReqSent? || m.state.AckRcvd?)
    ensures var t := Reply(m, id, c);
            && t.state == Negotiated(m.state.AckRcvd?, c.ConfAck?) && t.seenAck == m.seenAck && t.reqid == m.reqid
            && t.timer == (m.timer && !t.state.Opened?)
            && t.trace == (if t.state.Opened? then Then(Then(m.trace, Sent(c, id)), Up) else Then(m.trace, Sent(c, id)))
  {}

  lemma AnswerCounts(t: Trace, c: Code, id: Id)
    requires IsReply(c)
    ensures var u := Then(t, Sent(c, id));
            && Count(u, ARefusal) == Count(t, ARefusal) + (if c.ConfAck? then 0 else 1)
            && (forall k :: k != ARefusal ==> Count(u, k) == Count(t, k))
            && Count(Then(u, Up), AnUp) == Count(t, AnUp) + 1
            && (forall k :: k != AnUp ==> Count(Then(u, Up), k) == Count(u, k))
  {}

  lemma RequestIn(h: Half, id: Id, reply: Code, strict: Code)
    requires IsReply(reply) && IsReply(strict) && (h.m.state.ReqSent? || h.m.state.AckRcvd?)
    requires h.m.timer <==> Negotiating(h.m.state)
    ensures var t := Step(h.o, h.m, RcvConfReq(id, reply, strict));
            var c := if h.m.nakloops >= h.o.maxNak then strict else reply;
            && (t.timer <==> Negotiating(t.state))
            && t.state == Negotiated(h.m.state.AckRcvd?, c.ConfAck?) && t.seenAck == h.m.seenAck && t.reqid == h.m.reqid
            && SentAfter(t.trace, Length(h.m.trace)) == [Msg(c, id)]
            && Count(t.trace, AnUp) == Count(h.m.trace, AnUp) + (if t.state.Opened? then 1 else 0)
            && Count(t.trace, ARefusal) == Count(h.m.trace, ARefusal) + (if c.ConfAck? then 0 else 1)
            && (forall k :: k != AnUp && k != ARefusal ==> Count(t.trace, k) == Count(h.m.trace, k))
  {
    var c := if h.m.nakloops >= h.o.maxNak then strict else reply;
    assert Step(h.o, h.m, RcvConfReq(id, reply, strict)) == Reply(h.m, id, c);
    ReplySends(h.m, id, c);
    AnswerCounts(h.m.trace, c, id);
    NothingSent(h.m.trace, Sent(c, id));
    hide Step, Reply, Count;
  }

  /** A waiting silent end sends its own request first. */
  lemma FirstRequestIn(h: Half, id: Id, reply: Code, strict: Code)
    requires IsReply(reply) && IsReply(strict) && h.m.state.Stopped?
    requires h.m.timer <==> Negotiating(h.m.state)
    ensures var t := Step(h.o, h.m, RcvConfReq(id, reply, strict));
            var c := if 0 >= h.o.maxNak then strict else reply;
            && (t.timer <==> Negotiating(t.state))
            && t.state == Negotiated(false, c.ConfAck?) && !t.seenAck
            && SentAfter(t.trace, Length(h.m.trace)) == [Msg(ConfReq, t.reqid), Msg(c, id)]
            && Count(t.trace, ARefusal) == Count(h.m.trace, ARefusal) + (if c.ConfAck? then 0 else 1)
            && (forall k :: k != ARefusal ==> Count(t.trace, k) == Count(h.m.trace, k))
  {
    var c := if 0 >= h.o.maxNak then strict else reply;
    var u := SendConfReq(h.o, h.m, false).(state := ReqSent);
    EngageStopped(h);
    assert Step(h.o, h.m, RcvConfReq(id, reply, strict)) == Reply(u, id, c);
    ReplySends(u, id, c);
    AnswerCounts(u.trace, c, id);
    OneSent(h.m.trace, Reset, ConfReq, u.reqid);
    hide Step, Reply, SendConfReq;
  }

  lemma EngageStopped(h: Half)
    requires h.m.state.Stopped?
    ensures var u := SendConfReq(h.o, h.m, false).(state := ReqSent);
            && Engage(h.o, h.m) == u && u.nakloops == 0 && !u.seenAck && u.timer
            && u.trace == Then(Then(h.m.trace, Reset), Sent(ConfReq, u.reqid))
            && forall k :: Count(u.trace, k) == Count(h.m.trace, k)
  {}

  lemma AckIn(h: Half)
    requires (h.m.state.ReqSent? || h.m.state.AckSent?) && !h.m.seenAck
    requires h.m.timer <==> Negotiating(h.m.state)
    ensures var t := Step(h.o, h.m, RcvConfAck(h.m.reqid, true));
            && (t.timer <==> Negotiating(t.state))
            && t.state == Negotiated(true, h.m.state.AckSent?) && t.seenAck && t.reqid == h.m.reqid
            && SentAfter(t.trace, Length(h.m.trace)) == []
            && Count(t.trace, AnUp) == Count(h.m.trace, AnUp) + (if t.state.Opened? then 1 else 0)
            && (forall k :: k != AnUp ==> Count(t.trace, k) == Count(h.m.trace, k))
  {
    NothingSent(h.m.trace, GotAck(h.m.reqid));
    assert SentAfter(Then(Then(h.m.trace, GotAck(h.m.reqid)), Up), Length(h.m.trace)) == [];
  }

  lemma RefusalIn(h: Half, ret: int)
    requires (h.m.state.ReqSent? || h.m.state.AckSent?) && !h.m.seenAck && ret > 0
    requires h.m.timer <==> Negotiating(h.m.state)
    ensures var t := Step(h.o, h.m, RcvConfNakRej(h.m.reqid, ret));
            && (t.timer <==> Negotiating(t.state))
            && t.state == h.m.state && !t.seenAck && SentAfter(t.trace, Length(h.m.trace)) == [Msg(ConfReq, t.reqid)]
            && (forall k :: Count(t.trace, k) == Count(h.m.trace, k))
  {
    NothingSent(h.m.trace, Sent(ConfReq, NextId(h.m.id)));
  }

  lemma Removed(q: seq<Msg>, k: nat)
    requires k < |q|
    ensures multiset(Without(q, k)) == multiset(q) - multiset{q[k]} && q[k] in multiset(q)
  {
    assert q == q[..k] + [q[k]] + q[k + 1..];
  }

  /** The state after a move keeps to the phases, and weighs what it should. */
  predicate Follows(me: Half, peer: Half, was: nat, v: Move, mine: Phase, theirs: Phase)
    requires Possible(me, v)
  {
    var (h, out) := Act(me, v);
    && Fits(h, peer.(inbox := peer.inbox + out), mine, theirs)
    && ToCome(h.m.state) == ToCome(me.m.state) - (if v.Arrives? then 0 else 1)
    && Weight(mine) + Weight(theirs) + (if v.Arrives? then 1 else 0)
       == was + 2 * (Count(h.m.trace, ARefusal) - Count(me.m.trace, ARefusal))
  }

  lemma CarriesMore(q: seq<Msg>, out: seq<Msg>, mine: Phase, id: Id, theirs: Phase, peerId: Id)
    requires multiset(q) + multiset(out) == Ask(theirs, peerId) + Answer(mine, id)
    ensures Carries(q + out, mine, id, theirs, peerId)
  {}

  /** The request has arrived. */
  lemma CarriesAsk(q: seq<Msg>, k: nat, mine: Phase, id: Id, theirs: Phase, peerId: Id)
    requires Carries(q, mine, id, theirs, peerId) && k < |q| && q[k].code.ConfReq? && (mine.Answered? ==> IsReply(mine.code))
    ensures theirs == Asked && q[k].id == peerId && forall c, x :: Carries(Without(q, k), mine, id, Answered(c), x)
  {
    Removed(q, k);
    assert multiset(Without(q, k)) == Answer(mine, id);
  }

  /** The answer has arrived. */
  lemma CarriesAnswer(q: seq<Msg>, k: nat, mine: Phase, id: Id, now: Id, theirs: Phase, peerId: Id)
    requires Carries(q, mine, id, theirs, peerId) && k < |q| && !q[k].code.ConfReq?
    ensures mine.Answered? && q[k] == Msg(mine.code, id)
    ensures Carries(Without(q, k), Done, now, theirs, peerId) && Carries(Without(q, k), Asked, now, theirs, peerId)
  {
    Removed(q, k);
    hide Without;
    assert multiset(Without(q, k)) == Ask(theirs, peerId);
  }

  lemma ActBegins(me: Half, peer: Half, mine: Phase, theirs: Phase, v: Move)
    requires Fits(me, peer, mine, theirs) && Opening(me, v) && v.Happens?
    ensures Follows(me, peer, Weight(mine) + Weight(theirs), v, if Act(me, v).1 == [] then mine else Asked, theirs)
  {
    hide Step, Count, SentAfter, Length, Carries;
    Begins(me, v.e);
    var (h, out) := Act(me, v);
    assert mine.Idle?;
    if out == [] {
      assert peer.inbox + out == peer.inbox;
      StillIdle(me.inbox, peer.inbox, me.m.reqid, h.m.reqid, theirs, peer.m.reqid);
    } else {
      AskOut(me.inbox, peer.inbox, me.m.reqid, h.m.reqid, theirs, peer.m.reqid);
    }
  }

  lemma StillIdle(q: seq<Msg>, peerq: seq<Msg>, id: Id, now: Id, theirs: Phase, peerId: Id)
    ensures Carries(q, Idle, id, theirs, peerId) <==> Carries(q, Idle, now, theirs, peerId)
    ensures Carries(peerq, theirs, peerId, Idle, id) <==> Carries(peerq, theirs, peerId, Idle, now)
  {}

  lemma AskOut(q: seq<Msg>, peerq: seq<Msg>, id: Id, now: Id, theirs: Phase, peerId: Id)
    ensures Carries(q, Idle, id, theirs, peerId) ==> Carries(q, Asked, now, theirs, peerId)
    ensures Carries(peerq, theirs, peerId, Idle, id) ==> Carries(peerq + [Msg(ConfReq, now)], theirs, peerId, Asked, now)
  {}

  lemma ActAck(me: Half, peer: Half, mine: Phase, theirs: Phase, v: Move)
    requires Fits(me, peer, mine, theirs) && Opening(me, v) && v.Arrives? && me.inbox[v.k].code.ConfAck?
    ensures Follows(me, peer, Weight(mine) + Weight(theirs), v, Done, theirs)
  {
    hide Step, Count, SentAfter, Length, Without, Carries;
    CarriesAnswer(me.inbox, v.k, mine, me.m.reqid, Act(me, v).0.m.reqid, theirs, peer.m.reqid);
    AckIn(me);
    AnsweredOut(peer.inbox, mine.code, me.m.reqid, theirs, peer.m.reqid);
    assert peer.inbox + [] == peer.inbox;
  }

  lemma AnsweredOut(q: seq<Msg>, c: Code, id: Id, theirs: Phase, peerId: Id)
    ensures Carries(q, theirs, peerId, Answered(c), id) ==> Carries(q, theirs, peerId, Done, id)
    ensures Carries(q, theirs, peerId, Answered(c), id) ==> forall now: Id :: Carries(q + [Msg(ConfReq, now)], theirs, peerId, Asked, now)
  {}

  lemma ActRefusal(me: Half, peer: Half, mine: Phase, theirs: Phase, v: Move)
    requires Fits(me, peer, mine, theirs) && Opening(me, v) && v.Arrives?
    requires !me.inbox[v.k].code.ConfReq? && !me.inbox[v.k].code.ConfAck?
    ensures Follows(me, peer, Weight(mine) + Weight(theirs), v, Asked, theirs)
  {
    hide Step, Count, SentAfter, Length, Without, Carries;
    CarriesAnswer(me.inbox, v.k, mine, me.m.reqid, Act(me, v).0.m.reqid, theirs, peer.m.reqid);
    RefusalIn(me, v.ret);
    AnsweredOut(peer.inbox, mine.code, me.m.reqid, theirs, peer.m.reqid);
  }

  lemma ActRequest(me: Half, peer: Half, mine: Phase, theirs: Phase, v: Move) returns (c: Code)
    requires Fits(me, peer, mine, theirs) && Opening(me, v) && v.Arrives? && me.inbox[v.k].code.ConfReq? && !mine.Idle?
    ensures Follows(me, peer, Weight(mine) + Weight(theirs), v, mine, Answered(c))
  {
    hide Step, Count, SentAfter, Length, Without, Carries;
    var x := me.inbox[v.k];
    CarriesAsk(me.inbox, v.k, mine, me.m.reqid, theirs, peer.m.reqid);
    RequestIn(me, x.id, v.reply, v.strict);
    c := if me.m.nakloops >= me.o.maxNak then v.strict else v.reply;
    AnswerOut(Without(me.inbox, v.k), peer.inbox, mine, me.m.reqid, me.m.reqid, c, peer.m.reqid);
  }

  lemma ActFirstRequest(me: Half, peer: Half, mine: Phase, theirs: Phase, v: Move) returns (c: Code)
    requires Fits(me, peer, mine, theirs) && Opening(me, v) && v.Arrives? && me.inbox[v.k].code.ConfReq? && mine.Idle?
    ensures Follows(me, peer, Weight(mine) + Weight(theirs), v, Asked, Answered(c))
  {
    hide Step, Count, SentAfter, Length, Without, Carries;
    var x := me.inbox[v.k];
    CarriesAsk(me.inbox, v.k, mine, me.m.reqid, theirs, peer.m.reqid);
    FirstRequestIn(me, x.id, v.reply, v.strict);
    c := if 0 >= me.o.maxNak then v.strict else v.reply;
    AnswerOut(Without(me.inbox, v.k), peer.inbox, mine, me.m.reqid, Act(me, v).0.m.reqid, c, peer.m.reqid);
  }

  lemma AnswerOut(q: seq<Msg>, peerq: seq<Msg>, mine: Phase, id: Id, now: Id, c: Code, peerId: Id)
    ensures Carries(peerq, Asked, peerId, mine, id) ==>
              if mine.Idle? then Carries(peerq + [Msg(ConfReq, now), Msg(c, peerId)], Answered(c), peerId, Asked, now)
              else Carries(peerq + [Msg(c, peerId)], Answered(c), peerId, mine, id)
    ensures mine.Idle? && Carries(q, mine, id, Answered(c), peerId) ==> Carries(q, Asked, now, Answered(c), peerId)
  {}

  lemma ActFits(me: Half, peer: Half, mine: Phase, theirs: Phase, v: Move) returns (mine': Phase, theirs': Phase)
    requires Fits(me, peer, mine, theirs) && Opening(me, v)
    ensures Follows(me, peer, Weight(mine) + Weight(theirs), v, mine', theirs')
  {
    hide Follows, Fits, Act, Weight;
    mine', theirs' := mine, theirs;
    if v.Happens? {
      ActBegins(me, peer, mine, theirs, v);
      if Act(me, v).1 != [] { mine' := Asked; }
    } else if me.inbox[v.k].code.ConfReq? {
      var c;
      if mine.Idle? { c := ActFirstRequest(me, peer, mine, theirs, v); } else { c := ActRequest(me, peer, mine, theirs, v); }
      mine', theirs' := if mine.Idle? then Asked else mine, Answered(c);
    } else if me.inbox[v.k].code.ConfAck? {
      ActAck(me, peer, mine, theirs, v);
      mine' := Done;
    } else {
      ActRefusal(me, peer, mine, theirs, v);
      mine' := Asked;
    }
  }

  // ----- runs that open -----

  function HalfAt(n: Net, x: End): Half { if x.A? then n.a else n.b }

  ghost predicate OpeningRun(n: Net, vs: seq<Move>)
    decreases |vs|
  {
    vs == [] || (Opening(HalfAt(n, vs[0].at), vs[0]) && OpeningRun(Moved(n, vs[0]), vs[1..]))
  }

  ghost function RunOf(n: Net, vs: seq<Move>): Net
    requires OpeningRun(n, vs)
    decreases |vs|
  {
    if vs == [] then n else RunOf(Moved(n, vs[0]), vs[1..])
  }

  function Arrivals(vs: seq<Move>): nat { if vs == [] then 0 else (if vs[0].Arrives? then 1 else 0) + Arrivals(vs[1..]) }

  function Refused(n: Net): nat { Count(n.a.m.trace, ARefusal) + Count(n.b.m.trace, ARefusal) }

  function StillToCome(n: Net): nat { ToCome(n.a.m.state) + ToCome(n.b.m.state) }

  ghost predicate InPhase(n: Net, left: int)
  {
    exists a, b :: Fits(n.a, n.b, a, b) && Weight(a) + Weight(b) == left
  }

  lemma MovedInPhase(n: Net, left: int, v: Move)
    requires InPhase(n, left) && Opening(HalfAt(n, v.at), v)
    ensures InPhase(Moved(n, v), left - (if v.Arrives? then 1 else 0) + 2 * (Refused(Moved(n, v)) - Refused(n)))
    ensures StillToCome(Moved(n, v)) == StillToCome(n) - (if v.Arrives? then 0 else 1)
  {
    hide Fits, Act, Weight, Count, Follows, Opening, Possible, ToCome;
    OpeningPossible(HalfAt(n, v.at), v);
    var a, b :| Fits(n.a, n.b, a, b) && Weight(a) + Weight(b) == left;
    var m := Moved(n, v);
    if v.at.A? {
      var a', b' := ActFits(n.a, n.b, a, b, v);
      FollowsIs(n.a, n.b, Weight(a) + Weight(b), v, a', b');
      assert Fits(m.a, m.b, a', b');
    } else {
      FitsOther(n.a, n.b, a, b);
      var b', a' := ActFits(n.b, n.a, b, a, v);
      FollowsIs(n.b, n.a, Weight(b) + Weight(a), v, b', a');
      FitsOther(m.b, m.a, b', a');
    }
  }

  lemma OpeningPossible(h: Half, v: Move)
    requires Opening(h, v)
    ensures Possible(h, v)
  {}

  lemma FitsOther(me: Half, peer: Half, mine: Phase, theirs: Phase)
    requires Fits(me, peer, mine, theirs)
    ensures Fits(peer, me, theirs, mine)
  {}

  lemma FollowsIs(me: Half, peer: Half, was: nat, v: Move, mine: Phase, theirs: Phase)
    requires Possible(me, v) && Follows(me, peer, was, v, mine, theirs)
    ensures var (h, out) := Act(me, v);
            && Fits(h, peer.(inbox := peer.inbox + out), mine, theirs)
            && ToCome(h.m.state) == ToCome(me.m.state) - (if v.Arrives? then 0 else 1)
            && Weight(mine) + Weight(theirs)
               == was - (if v.Arrives? then 1 else 0) + 2 * (Count(h.m.trace, ARefusal) - Count(me.m.trace, ARefusal))
  {}

  lemma {:induction false} RunInPhase(n: Net, left: int, vs: seq<Move>)
    requires InPhase(n, left) && OpeningRun(n, vs)
    ensures InPhase(RunOf(n, vs), left - Arrivals(vs) + 2 * (Refused(RunOf(n, vs)) - Refused(n)))
    ensures StillToCome(RunOf(n, vs)) + |vs| == StillToCome(n) + Arrivals(vs)
    decreases |vs|
  {
    hide InPhase, Moved, Refused, Opening, Possible, StillToCome;
    if vs != [] {
      OpeningPossible(HalfAt(n, vs[0].at), vs[0]);
      MovedInPhase(n, left, vs[0]);
      var m := Moved(n, vs[0]);
      RunInPhase(m, left - (if vs[0].Arrives? then 1 else 0) + 2 * (Refused(m) - Refused(n)), vs[1..]);
    }
  }

  function NewNet(oa: Options, ob: Options): Net { Net(Half(oa, Init(), []), Half(ob, Init(), [])) }

  lemma NewInPhase(oa: Options, ob: Options)
    ensures InPhase(NewNet(oa, ob), 4) && Refused(NewNet(oa, ob)) == 0 && StillToCome(NewNet(oa, ob)) == 4
  {
    assert Fits(NewNet(oa, ob).a, NewNet(oa, ob).b, Idle, Idle);
  }

  /** Nothing more can happen: both ends have been opened and brought up, and no message is on the way. */
  ghost predicate Finished(n: Net) { forall v: Move :: !Opening(HalfAt(n, v.at), v) }

  lemma FinishedIs(n: Net)
    requires Finished(n)
    ensures n.a.inbox == n.b.inbox == [] && !Waiting(n.a.m.state) && !Waiting(n.b.m.state)
  {
    HalfFinished(n, A);
    HalfFinished(n, B);
  }

  lemma HalfFinished(n: Net, x: End)
    requires Finished(n)
    ensures HalfAt(n, x).inbox == [] && !Waiting(HalfAt(n, x).m.state)
  {
    var h := HalfAt(n, x);
    assert !Opening(h, Happens(x, Open)) && !Opening(h, Happens(x, LowerUp)) && !Opening(h, Arrives(x, 0, ConfAck, ConfAck, 1));
  }

  /** Open, up called once, and nothing else asked of the upper or lower layer. */
  predicate IsOpened(m: Fsm) { m.state.Opened? && Untouched(m) }

  /** Two ends that are opened and brought up, over a link that loses nothing, messages in any order and any verdicts: at
      most four messages arrive and two more for each refused request, so that at most eight and two more moves are
      possible; and when nothing more can happen both are open, each having called up once. Only if both ends are silent
      does nothing happen at all. */
  lemma Opens(oa: Options, ob: Options, vs: seq<Move>)
    requires OpeningRun(NewNet(oa, ob), vs)
    ensures var n := RunOf(NewNet(oa, ob), vs);
            && Arrivals(vs) <= 4 + 2 * Refused(n) && |vs| <= 8 + 2 * Refused(n)
            && (Finished(n) && !(oa.silent && ob.silent) ==>
                  IsOpened(n.a.m) && IsOpened(n.b.m) && Arrivals(vs) == 4 + 2 * Refused(n))
            && (oa.silent && ob.silent ==> Arrivals(vs) == 0 && (Finished(n) ==> n.a.m.state.Stopped? && n.b.m.state.Stopped?))
  {
    hide Refused, RunOf, OpeningRun, InPhase, Finished, Mute, StillToCome, Moved, Opening, Possible;
    var start := NewNet(oa, ob);
    var n := RunOf(start, vs);
    NewInPhase(oa, ob);
    RunInPhase(start, 4, vs);
    RunOptions(start, vs);
    PhaseFinished(n, 4 - Arrivals(vs) + 2 * Refused(n));
    if oa.silent && ob.silent {
      NewMute(oa, ob);
      RunMute(start, vs);
      MuteFinished(n);
    }
  }

  lemma NewMute(oa: Options, ob: Options)
    requires oa.silent && ob.silent
    ensures Mute(NewNet(oa, ob))
  {}

  lemma PhaseFinished(n: Net, left: int)
    requires InPhase(n, left)
    ensures left >= 0
    ensures Finished(n) && !(n.a.o.silent && n.b.o.silent) ==> IsOpened(n.a.m) && IsOpened(n.b.m) && left == 0
  {
    var a, b :| Fits(n.a, n.b, a, b) && Weight(a) + Weight(b) == left;
    if Finished(n) {
      FinishedIs(n);
      hide Finished, Count, Carries;
      NothingCarried(a, n.a.m.reqid, b, n.b.m.reqid);
      NothingCarried(b, n.b.m.reqid, a, n.a.m.reqid);
    }
  }

  lemma NothingCarried(mine: Phase, id: Id, theirs: Phase, peerId: Id)
    ensures Carries([], mine, id, theirs, peerId) <==> !theirs.Asked? && !mine.Answered?
  {}

  lemma {:induction false} RunOptions(n: Net, vs: seq<Move>)
    requires OpeningRun(n, vs)
    ensures RunOf(n, vs).a.o == n.a.o && RunOf(n, vs).b.o == n.b.o
    decreases |vs|
  {
    hide Step, SentAfter, Length;
    if vs != [] { RunOptions(Moved(n, vs[0]), vs[1..]); }
  }

  /** Both ends are silent and wait for each other. */
  predicate Mute(n: Net)
  {
    && n.a.o.silent && n.b.o.silent && n.a.inbox == n.b.inbox == [] && !n.a.m.timer && !n.b.m.timer
    && (Waiting(n.a.m.state) || n.a.m.state.Stopped?) && (Waiting(n.b.m.state) || n.b.m.state.Stopped?)
  }

  lemma MovedMute(n: Net, v: Move)
    requires Mute(n) && Opening(HalfAt(n, v.at), v)
    ensures v.Happens? && Mute(Moved(n, v))
  {
    var h := HalfAt(n, v.at);
    Begins(h, v.e);
    NothingSent(h.m.trace, Start);
  }

  lemma {:induction false} RunMute(n: Net, vs: seq<Move>)
    requires Mute(n) && OpeningRun(n, vs)
    ensures Mute(RunOf(n, vs)) && Arrivals(vs) == 0
    decreases |vs|
  {
    if vs != [] {
      MovedMute(n, vs[0]);
      hide Mute, Moved;
      RunMute(Moved(n, vs[0]), vs[1..]);
    }
  }

  lemma MuteFinished(n: Net)
    requires Mute(n)
    ensures Finished(n) ==> n.a.m.state.Stopped? && n.b.m.state.Stopped?
  {
    if Finished(n) {
      FinishedIs(n);
      hide Finished;
    }
  }
}
