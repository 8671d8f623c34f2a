/** Identifiers and the restart counter (RFC 1661, sections 4.6 and 5). */
module FsmNumbers {
  import opened FsmSpec
  import opened FsmLink

  /** Messages that are not an answer to one. */
  predicate IsOwn(c: Code) { c.ConfReq? || c.TermReq? || c.CodeRej? }

  function OwnOf(q: seq<Msg>): seq<Msg> { if q == [] then [] else (if IsOwn(q[0].code) then [q[0]] else []) + OwnOf(q[1..]) }

  function AnswersOf(q: seq<Msg>): seq<Msg> { if q == [] then [] else (if IsOwn(q[0].code) then [] else [q[0]]) + AnswersOf(q[1..]) }

  predicate Carried(e: Event, id: Id)
  {
    match e
    case RcvConfReq(x, _, _) => id == x
    case RcvConfAck(x, _) => id == x
    case RcvConfNakRej(x, _) => id == x
    case RcvTermReq(x) => id == x
    case _ => false
  }

  /** A request that goes out again after a timeout keeps its identifier; every other message of one's own gets the next
      one in turn; an answer repeats the identifier it answers. At most one of each goes out, and the identifier that
      answers must carry is that of the last request. */
  predicate Numbered(m: Fsm, t: Fsm, e: Event, out: seq<Msg>)
  {
    var own := OwnOf(out);
    var answers := AnswersOf(out);
    && |own| <= 1 && |answers| <= 1
    && (answers != [] ==> Carried(e, answers[0].id))
    && (if own == [] then t.id == m.id && t.reqid == m.reqid
        else if e.Timeout? && own[0].code.ConfReq? then own[0].id == t.reqid == m.reqid && t.id == m.id
        else own[0].id == t.id == (m.id + 1) % 256 && t.reqid == if own[0].code.CodeRej? then m.reqid else t.id)
  }

  /** The restart counter starts anew with every new request, counts every timeout, and is set again when the peer's answer
      moves the negotiation on; a peer that terminates is not asked again. */
  predicate Counted(o: Options, m: Fsm, t: Fsm, e: Event, out: seq<Msg>)
  {
    var own := OwnOf(out);
    t.retransmits
    == if own != [] && !own[0].code.CodeRej? then
         (if e.Timeout? then m.retransmits else if own[0].code.ConfReq? then o.maxConf else o.maxTerm) - 1
       else if e.RcvTermReq? && m.state.Opened? then 0
       else if e.RcvConfAck? && t.state != m.state then o.maxConf
       else m.retransmits
  }

  function Out(m: Fsm, t: Fsm): seq<Msg> { SentAfter(t.trace, Length(m.trace)) }

  predicate Fine(o: Options, m: Fsm, t: Fsm, e: Event) { Numbered(m, t, e, Out(m, t)) && Counted(o, m, t, e, Out(m, t)) }

  function MessageOf(a: Action): seq<Msg> { if a.Sent? then [Msg(a.code, a.id)] else [] }

  /** Calls leave no message, wherever they stand. */
  lemma SentUpTo(t: Trace, a: Action, b: Action, c: Action)
    ensures SentAfter(t, Length(t)) == []
    ensures SentAfter(Then(t, a), Length(t)) == MessageOf(a)
    ensures !a.Sent? ==> SentAfter(Then(Then(t, a), b), Length(t)) == MessageOf(b)
    ensures !b.Sent? ==> SentAfter(Then(Then(t, a), b), Length(t)) == MessageOf(a)
    ensures !a.Sent? && !b.Sent? ==> SentAfter(Then(Then(Then(t, a), b), c), Length(t)) == MessageOf(c)
    ensures !a.Sent? ==> SentAfter(Then(Then(Then(t, a), b), c), Length(t)) == MessageOf(b) + MessageOf(c)
  {
    NothingSent(t, a);
    SentMore(t, a, Length(t));
    SentMore(Then(t, a), b, Length(t));
    SentMore(Then(Then(t, a), b), c, Length(t));
    hide SentAfter;
  }

  lemma SentMore(t: Trace, a: Action, k: nat)
    requires k <= Length(t)
    ensures Length(Then(t, a)) == Length(t) + 1 && SentAfter(Then(t, a), k) == SentAfter(t, k) + MessageOf(a)
  {}

  lemma SplitOne(x: Msg)
    ensures OwnOf([x]) == (if IsOwn(x.code) then [x] else []) && AnswersOf([x]) == if IsOwn(x.code) then [] else [x]
    ensures OwnOf([]) == [] && AnswersOf([]) == []
  {
    assert [x][1..] == [];
  }

  lemma SplitTwo(x: Msg, y: Msg)
    requires IsOwn(x.code) && !IsOwn(y.code)
    ensures OwnOf([x] + [y]) == [x] && AnswersOf([x] + [y]) == [y]
  {
    SplitOne(x);
    SplitOne(y);
    assert ([x] + [y])[1..] == [y];
  }

  lemma LayerNumbers(o: Options, m: Fsm, e: Event)
    requires e.LowerUp? || e.LowerDown? || e.Close? || e.ProtReject?
    ensures Fine(o, m, Step(o, m, e), e)
  {
    var id := NextId(m.id);
    SentUpTo(m.trace, Start, Start, Start);
    SentUpTo(m.trace, Finish, Start, Start);
    SentUpTo(m.trace, Down, Sent(TermReq, id), Start);
    SentUpTo(m.trace, Sent(TermReq, id), Start, Start);
    SentUpTo(m.trace, Reset, Sent(ConfReq, id), Start);
    SplitOne(Msg(TermReq, id));
    SplitOne(Msg(ConfReq, id));
    hide SentAfter, Length, OwnOf, AnswersOf;
  }

  lemma OpenNumbers(o: Options, m: Fsm)
    ensures Fine(o, m, Step(o, m, Open), Open)
  {
    var id := NextId(m.id);
    SentUpTo(m.trace, Start, Reset, Sent(ConfReq, id));
    SentUpTo(m.trace, Reset, Sent(ConfReq, id), Start);
    SentUpTo(m.trace, Down, Reset, Sent(ConfReq, id));
    SplitOne(Msg(ConfReq, id));
    hide SentAfter, Length, OwnOf, AnswersOf;
  }

  lemma TimeoutNumbers(o: Options, m: Fsm)
    requires m.timer && TimerState(m.state)
    ensures Fine(o, m, Step(o, m, Timeout), Timeout)
  {
    SentUpTo(m.trace, Finish, Start, Start);
    SentUpTo(m.trace, Sent(TermReq, NextId(m.id)), Start, Start);
    SentUpTo(m.trace, Sent(ConfReq, m.reqid), Start, Start);
    SplitOne(Msg(TermReq, NextId(m.id)));
    SplitOne(Msg(ConfReq, m.reqid));
    hide SentAfter, Length, OwnOf, AnswersOf;
  }

  lemma RequestNumbers(o: Options, m: Fsm, e: Event)
    requires e.RcvConfReq? && IsReply(e.reply) && IsReply(e.strict)
    ensures Fine(o, m, Step(o, m, e), e)
  {
    if m.state.Opened? || m.state.Stopped? {
      RequestEngages(o, m, e);
    } else {
      var c := if m.nakloops >= o.maxNak then e.strict else e.reply;
      SentUpTo(m.trace, Sent(TermAck, e.id), Start, Start);
      SentUpTo(m.trace, Sent(c, e.id), Up, Start);
      SplitOne(Msg(TermAck, e.id));
      SplitOne(Msg(c, e.id));
      hide SentAfter, Length, OwnOf, AnswersOf, SendConfReq;
    }
  }

  lemma RequestEngages(o: Options, m: Fsm, e: Event)
    requires e.RcvConfReq? && IsReply(e.reply) && IsReply(e.strict) && (m.state.Opened? || m.state.Stopped?)
    ensures Fine(o, m, Step(o, m, e), e)
  {
    var c := if 0 >= o.maxNak then e.strict else e.reply;
    var id := NextId(m.id);
    SentUpTo(m.trace, Down, Reset, Sent(ConfReq, id));
    SentUpTo(m.trace, Reset, Sent(ConfReq, id), Sent(c, e.id));
    SentMore(Then(m.trace, Down), Reset, Length(m.trace));
    SentMore(Then(Then(Then(m.trace, Down), Reset), Sent(ConfReq, id)), Sent(c, e.id), Length(m.trace));
    EngagedTrace(o, m, e);
    SplitTwo(Msg(ConfReq, id), Msg(c, e.id));
    hide SentAfter, Length, OwnOf, AnswersOf, OnConfReq;
  }

  /** A request that makes the automaton start over. */
  lemma EngagedTrace(o: Options, m: Fsm, e: Event)
    requires e.RcvConfReq? && IsReply(e.reply) && IsReply(e.strict) && (m.state.Opened? || m.state.Stopped?)
    ensures var t := OnConfReq(o, m, e.id, e.reply, e.strict);
            var c := if 0 >= o.maxNak then e.strict else e.reply;
            var u := if m.state.Opened? then Then(m.trace, Down) else m.trace;
            && t.trace == Then(Then(Then(u, Reset), Sent(ConfReq, NextId(m.id))), Sent(c, e.id))
            && t.id == t.reqid == NextId(m.id) && t.retransmits == o.maxConf - 1
  {}

  lemma AnswerNumbers(o: Options, m: Fsm, e: Event)
    requires (e.RcvConfAck? || e.RcvConfNakRej?) && (m.state.AckRcvd? || m.state.Opened? ==> m.seenAck)
    ensures Fine(o, m, Step(o, m, e), e)
  {
    var id := NextId(m.id);
    SentUpTo(m.trace, Sent(TermAck, m.reqid), Start, Start);
    SentUpTo(m.trace, Sent(ConfReq, id), Start, Start);
    SentUpTo(m.trace, GotAck(m.reqid), Sent(TermAck, m.reqid), Start);
    SentUpTo(m.trace, GotAck(m.reqid), Up, Start);
    SplitOne(Msg(ConfReq, id));
    SplitOne(Msg(TermAck, m.reqid));
    hide SentAfter, Length, OwnOf, AnswersOf;
  }

  lemma TermNumbers(o: Options, m: Fsm, e: Event)
    requires e.RcvTermReq?
    ensures Fine(o, m, Step(o, m, e), e)
  {
    SentUpTo(m.trace, Sent(TermAck, e.id), Start, Start);
    SentUpTo(m.trace, Down, Sent(TermAck, e.id), Start);
    SplitOne(Msg(TermAck, e.id));
    hide SentAfter, Length, OwnOf, AnswersOf;
  }

  lemma TermAckNumbers(o: Options, m: Fsm)
    ensures Fine(o, m, Step(o, m, RcvTermAck), RcvTermAck)
  {
    var id := NextId(m.id);
    SentUpTo(m.trace, Finish, Start, Start);
    SentUpTo(m.trace, Down, Reset, Sent(ConfReq, id));
    SplitOne(Msg(ConfReq, id));
    hide SentAfter, Length, OwnOf, AnswersOf;
  }

  lemma CodeNumbers(o: Options, m: Fsm, e: Event)
    requires e.RcvCodeRej? || e.RcvOther?
    ensures Fine(o, m, Step(o, m, e), e)
  {
    var id := NextId(m.id);
    SentUpTo(m.trace, Sent(CodeRej, id), Start, Start);
    SplitOne(Msg(CodeRej, id));
    hide SentAfter, Length, OwnOf, AnswersOf;
  }

  /** Every event of a reachable state numbers its messages and counts in this way. */
  lemma StepNumbers(o: Options, m: Fsm, e: Event)
    requires Inv(m) && Enabled(m, e)
    ensures Numbered(m, Step(o, m, e), e, SentAfter(Step(o, m, e).trace, Length(m.trace)))
    ensures Counted(o, m, Step(o, m, e), e, SentAfter(Step(o, m, e).trace, Length(m.trace)))
  {
    assert (m.state.AckRcvd? || m.state.Opened? ==> m.seenAck) && (e.Timeout? ==> m.timer && TimerState(m.state));
    hide Inv, Numbered, Counted;
    if e.LowerUp? || e.LowerDown? || e.Close? || e.ProtReject? { LayerNumbers(o, m, e); }
    else if e.Open? { OpenNumbers(o, m); }
    else if e.Timeout? { TimeoutNumbers(o, m); }
    else if e.RcvConfReq? { RequestNumbers(o, m, e); }
    else if e.RcvConfAck? || e.RcvConfNakRej? { AnswerNumbers(o, m, e); }
    else if e.RcvTermReq? { TermNumbers(o, m, e); }
    else if e.RcvTermAck? { TermAckNumbers(o, m); }
    else { CodeNumbers(o, m, e); }
  }
}
