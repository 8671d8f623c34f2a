/** The automaton against the state transition table of RFC 1661, section 4.1, and what its states mean. */
module FsmStandard {
  import opened FsmSpec
  import opened FsmLink

  /** The events of the standard. */
  datatype Occasion =
    | GoesUp | GoesDown | Opens | Closes | TimeoutLeft | TimeoutGone | GoodRequest | BadRequest | GoodAck | GoodNak
    | TermRequest | TermAnswer | UnknownCode | GoodReject | BadReject

  /** Its actions, without those on the restart counter. */
  datatype Deed = Tlu | Tld | Tls | Tlf | Scr | Sca | Scn | Str | Sta | Scj

  /** An entry of the table; None where the event cannot happen. */
  datatype Entry = Impossible | Entry(deeds: seq<Deed>, next: State)

  function OnLayer(s: State, x: Occasion): Entry
  {
    match x
    case GoesUp =>
      (match s
       case Initial => Entry([], Closed)
       case Starting => Entry([Scr], ReqSent)
       case _ => Impossible)
    case GoesDown =>
      (match s
       case Initial => Impossible
       case Starting => Impossible
       case Closed => Entry([], Initial)
       case Stopped => Entry([Tls], Starting)
       case Closing => Entry([], Initial)
       case Opened => Entry([Tld], Starting)
       case _ => Entry([], Starting))
    case Opens =>
      (match s
       case Initial => Entry([Tls], Starting)
       case Closed => Entry([Scr], ReqSent)
       case Closing => Entry([], Stopping)
       case _ => Entry([], s))
    case Closes =>
      (match s
       case Initial => Entry([], Initial)
       case Starting => Entry([Tlf], Initial)
       case Closed => Entry([], Closed)
       case Stopped => Entry([], Closed)
       case Closing => Entry([], Closing)
       case Stopping => Entry([], Closing)
       case Opened => Entry([Tld, Str], Closing)
       case _ => Entry([Str], Closing))
    case TimeoutLeft =>
      (match s
       case Closing => Entry([Str], Closing)
       case Stopping => Entry([Str], Stopping)
       case AckSent => Entry([Scr], AckSent)
       case _ => if Negotiating(s) then Entry([Scr], ReqSent) else Impossible)
    case TimeoutGone =>
      (match s
       case Closing => Entry([Tlf], Closed)
       case _ => if s.Stopping? || Negotiating(s) then Entry([Tlf], Stopped) else Impossible)
    case _ => Impossible
  }

  function OnArrival(s: State, x: Occasion): Entry
  {
    match x
    case GoodRequest =>
      (match s
       case Closed => Entry([Sta], Closed)
       case Stopped => Entry([Scr, Sca], AckSent)
       case AckRcvd => Entry([Sca, Tlu], Opened)
       case Opened => Entry([Tld, Scr, Sca], AckSent)
       case _ => if Negotiating(s) then Entry([Sca], AckSent) else Entry([], s))
    case BadRequest =>
      (match s
       case Closed => Entry([Sta], Closed)
       case Stopped => Entry([Scr, Scn], ReqSent)
       case AckRcvd => Entry([Scn], AckRcvd)
       case Opened => Entry([Tld, Scr, Scn], ReqSent)
       case _ => if Negotiating(s) then Entry([Scn], ReqSent) else Entry([], s))
    case GoodAck =>
      (match s
       case ReqSent => Entry([], AckRcvd)
       case AckRcvd => Entry([Scr], ReqSent)
       case AckSent => Entry([Tlu], Opened)
       case Opened => Entry([Tld, Scr], ReqSent)
       case _ => Entry(if s.Closed? || s.Stopped? then [Sta] else [], s))
    case GoodNak =>
      (match s
       case ReqSent => Entry([Scr], ReqSent)
       case AckRcvd => Entry([Scr], ReqSent)
       case AckSent => Entry([Scr], AckSent)
       case Opened => Entry([Tld, Scr], ReqSent)
       case _ => Entry(if s.Closed? || s.Stopped? then [Sta] else [], s))
    case TermRequest =>
      (match s
       case Opened => Entry([Tld, Sta], Stopping)
       case _ => Entry([Sta], if Negotiating(s) then ReqSent else s))
    case TermAnswer =>
      (match s
       case Closing => Entry([Tlf], Closed)
       case Stopping => Entry([Tlf], Stopped)
       case AckRcvd => Entry([], ReqSent)
       case Opened => Entry([Tld, Scr], ReqSent)
       case _ => Entry([], s))
    case UnknownCode => Entry([Scj], s)
    case GoodReject => Entry([], if s.AckRcvd? then ReqSent else s)
    case BadReject =>
      (match s
       case Closing => Entry([Tlf], Closed)
       case Closed => Entry([Tlf], Closed)
       case Opened => Entry([Tld, Str], Stopping)
       case _ => Entry([Tlf], Stopped))
    case _ => Impossible
  }

  /** The table. Nothing can arrive while the lower layer is down. */
  function Table(s: State, x: Occasion): Entry
  {
    if x.GoesUp? || x.GoesDown? || x.Opens? || x.Closes? || x.TimeoutLeft? || x.TimeoutGone? then OnLayer(s, x)
    else if s.Initial? || s.Starting? then Impossible
    else OnArrival(s, x)
  }

  /** The answer that a request gets. */
  function AnswerTo(o: Options, m: Fsm, reply: Code, strict: Code): Code
  {
    if (if Negotiating(m.state) then m.nakloops else 0) >= o.maxNak then strict else reply
  }

  datatype Reading = Discarded | Read(x: Occasion)

  /** What an event is in the standard's terms; answers to another request than the last, bad answers and rejects of
      unimportant codes are discarded there too. */
  function Meaning(o: Options, m: Fsm, e: Event): Reading
  {
    match e
    case LowerUp => Read(GoesUp)
    case LowerDown => Read(GoesDown)
    case Open => Read(Opens)
    case Close => Read(Closes)
    case Timeout => Read(if m.retransmits > 0 then TimeoutLeft else TimeoutGone)
    case ProtReject => Read(BadReject)
    case RcvConfReq(_, reply, strict) => Read(if AnswerTo(o, m, reply, strict).ConfAck? then GoodRequest else BadRequest)
    case RcvConfAck(id, good) => if id == m.reqid && good then Read(GoodAck) else Discarded
    case RcvConfNakRej(id, ret) => if id == m.reqid && ret != 0 then Read(GoodNak) else Discarded
    case RcvTermReq(_) => Read(TermRequest)
    case RcvTermAck => Read(TermAnswer)
    case RcvCodeRej(long) => if long then Read(GoodReject) else Discarded
    case RcvOther(handled) => if handled then Discarded else Read(UnknownCode)
  }

  /** An action of the automaton as the standard names it. */
  function DeedOf(a: Action): seq<Deed>
  {
    match a
    case Up => [Tlu]
    case Down => [Tld]
    case Start => [Tls]
    case Finish => [Tlf]
    case Reset => []
    case GotAck(_) => []
    case Sent(c, _) =>
      (match c
       case ConfReq => [Scr]
       case ConfAck => [Sca]
       case ConfNak => [Scn]
       case ConfRej => [Scn]
       case TermReq => [Str]
       case TermAck => [Sta]
       case CodeRej => [Scj])
  }

  /** What has been done after the first k actions. */
  function DeedsAfter(t: Trace, k: nat): seq<Deed>
    decreases t
  {
    match t
    case Empty => []
    case Then(b, a) => if Length(t) <= k then [] else DeedsAfter(b, k) + DeedOf(a)
  }

  predicate Follows(o: Options, m: Fsm, e: Event, entry: Entry)
  {
    var t := Step(o, m, e);
    match entry
    case Impossible => t == m
    case Entry(deeds, next) => t.state == next && DeedsAfter(t.trace, Length(m.trace)) == deeds
  }

  /** Where the code departs from the table: a silent end does not send its first request, and a passive one does not
      finish when its requests go unanswered; closing before the lower layer is up does not finish; a Terminate-Ack while
      open does not leave that state; a Nak can end the negotiation; answers after the first one to a request are ignored;
      and opening again restarts the link if so configured. */
  predicate Departs(o: Options, m: Fsm, e: Event)
  {
    match e
    case LowerUp => m.state.Starting? && o.silent
    case Open => (m.state.Closed? && o.silent) || (o.restart && (m.state.Stopped? || m.state.Closing? || m.state.Opened?))
    case Close => m.state.Starting?
    case Timeout => Negotiating(m.state) && m.retransmits <= 0 && o.passive
    case RcvTermAck => m.state.Opened?
    case RcvConfAck(id, good) => id == m.reqid && good && m.seenAck && Listening(m.state)
    case RcvConfNakRej(id, ret) =>
      id == m.reqid && ret != 0 && ((m.seenAck && Listening(m.state)) || (ret < 0 && (m.state.ReqSent? || m.state.AckSent?)))
    case _ => false
  }

  /** The states in which the standard does something about an answer. */
  predicate Listening(s: State) { s.Closed? || s.Stopped? || Negotiating(s) || s.Opened? }

  lemma DeedsOne(t: Trace, a: Action, b: Action, c: Action)
    ensures DeedsAfter(t, Length(t)) == []
    ensures DeedsAfter(Then(t, a), Length(t)) == DeedOf(a)
    ensures DeedsAfter(Then(Then(t, a), b), Length(t)) == DeedOf(a) + DeedOf(b)
    ensures DeedsAfter(Then(Then(Then(t, a), b), c), Length(t)) == DeedOf(a) + DeedOf(b) + DeedOf(c)
  {
    DeedsMore(t, a, Length(t));
    DeedsMore(Then(t, a), b, Length(t));
    DeedsMore(Then(Then(t, a), b), c, Length(t));
    NoDeeds(t);
    hide DeedOf, DeedsAfter;
    assert [] + DeedOf(a) == DeedOf(a);
  }

  lemma DeedsMore(t: Trace, a: Action, k: nat)
    requires k <= Length(t)
    ensures Length(Then(t, a)) == Length(t) + 1 && DeedsAfter(Then(t, a), k) == DeedsAfter(t, k) + DeedOf(a)
  {}

  lemma NoDeeds(t: Trace)
    ensures DeedsAfter(t, Length(t)) == []
  {
    if t.Then? {}
  }

  lemma LayerConforms(o: Options, m: Fsm, e: Event)
    requires e.LowerUp? || e.LowerDown? || e.Close?
    ensures Follows(o, m, e, Table(m.state, Meaning(o, m, e).x)) <==> !Departs(o, m, e)
  {
    DeedsOne(m.trace, Start, Start, Start);
    DeedsOne(m.trace, Down, Sent(TermReq, NextId(m.id)), Start);
    DeedsOne(m.trace, Sent(TermReq, NextId(m.id)), Start, Start);
    DeedsOne(m.trace, Reset, Sent(ConfReq, NextId(m.id)), Start);
    hide DeedsAfter, Length;
  }

  lemma OpenConforms(o: Options, m: Fsm)
    ensures Follows(o, m, Open, Table(m.state, Opens)) <==> !Departs(o, m, Open)
  {
    DeedsOne(m.trace, Start, Reset, Sent(ConfReq, NextId(m.id)));
    DeedsOne(m.trace, Reset, Sent(ConfReq, NextId(m.id)), Start);
    DeedsOne(m.trace, Down, Reset, Sent(ConfReq, NextId(m.id)));
    DeedsOne(m.trace, Down, Start, Start);
    hide DeedsAfter, Length;
  }

  lemma TimeoutConforms(o: Options, m: Fsm)
    requires m.timer && TimerState(m.state)
    ensures Follows(o, m, Timeout, Table(m.state, Meaning(o, m, Timeout).x)) <==> !Departs(o, m, Timeout)
  {
    DeedsOne(m.trace, Finish, Start, Start);
    DeedsOne(m.trace, Sent(TermReq, NextId(m.id)), Start, Start);
    DeedsOne(m.trace, Sent(ConfReq, m.reqid), Start, Start);
    hide DeedsAfter, Length;
  }

  lemma RejectConforms(o: Options, m: Fsm)
    ensures Follows(o, m, ProtReject, Table(m.state, BadReject))
  {
    DeedsOne(m.trace, Finish, Start, Start);
    DeedsOne(m.trace, Down, Sent(TermReq, NextId(m.id)), Start);
    hide DeedsAfter, Length;
  }

  lemma RequestConforms(o: Options, m: Fsm, id: Id, reply: Code, strict: Code)
    requires IsReply(reply) && IsReply(strict)
    ensures Follows(o, m, RcvConfReq(id, reply, strict), Table(m.state, Meaning(o, m, RcvConfReq(id, reply, strict)).x))
  {
    if m.state.Opened? {
      RequestWhileOpen(o, m, id, reply, strict);
    } else if m.state.Stopped? {
      RequestWhileStopped(o, m, id, reply, strict);
    } else if Negotiating(m.state) {
      RequestAnswered(o, m, id, reply, strict);
    } else {
      DeedsOne(m.trace, Sent(TermAck, id), Start, Start);
      hide DeedsAfter, Length;
    }
  }

  lemma RequestAnswered(o: Options, m: Fsm, id: Id, reply: Code, strict: Code)
    requires IsReply(reply) && IsReply(strict) && Negotiating(m.state)
    ensures Follows(o, m, RcvConfReq(id, reply, strict), Table(m.state, Meaning(o, m, RcvConfReq(id, reply, strict)).x))
  {
    var c := AnswerTo(o, m, reply, strict);
    DeedsOne(m.trace, Sent(c, id), Up, Start);
    hide DeedsAfter, Length;
    assert Step(o, m, RcvConfReq(id, reply, strict)) == Reply(m, id, c);
  }

  lemma RequestWhileStopped(o: Options, m: Fsm, id: Id, reply: Code, strict: Code)
    requires IsReply(reply) && IsReply(strict) && m.state.Stopped?
    ensures Follows(o, m, RcvConfReq(id, reply, strict), Table(m.state, Meaning(o, m, RcvConfReq(id, reply, strict)).x))
  {
    var c := AnswerTo(o, m, reply, strict);
    DeedsOne(m.trace, Reset, Sent(ConfReq, NextId(m.id)), Sent(c, id));
    hide DeedsAfter, Length;
  }

  lemma RequestWhileOpen(o: Options, m: Fsm, id: Id, reply: Code, strict: Code)
    requires IsReply(reply) && IsReply(strict) && m.state.Opened?
    ensures Follows(o, m, RcvConfReq(id, reply, strict), Table(m.state, Meaning(o, m, RcvConfReq(id, reply, strict)).x))
  {
    var c := AnswerTo(o, m, reply, strict);
    var u := Then(Then(Then(m.trace, Down), Reset), Sent(ConfReq, NextId(m.id)));
    DeedsOne(m.trace, Down, Reset, Sent(ConfReq, NextId(m.id)));
    DeedsMore(Then(m.trace, Down), Reset, Length(m.trace));
    DeedsMore(u, Sent(c, id), Length(m.trace));
    hide DeedsAfter, Length;
  }

  lemma AnswerConforms(o: Options, m: Fsm, e: Event)
    requires (e.RcvConfAck? || e.RcvConfNakRej?) && Meaning(o, m, e).Read? && (m.state.Opened? ==> m.seenAck)
    ensures Follows(o, m, e, Table(m.state, Meaning(o, m, e).x)) <==> !Departs(o, m, e)
  {
    var id := NextId(m.id);
    DeedsOne(m.trace, Sent(TermAck, m.reqid), Start, Start);
    DeedsOne(m.trace, Sent(ConfReq, id), Start, Start);
    DeedsOne(m.trace, GotAck(m.reqid), Sent(TermAck, m.reqid), Start);
    DeedsOne(m.trace, GotAck(m.reqid), Up, Start);
    DeedsOne(m.trace, GotAck(m.reqid), Sent(ConfReq, id), Start);
    hide DeedsAfter, Length;
  }

  lemma TermRequestConforms(o: Options, m: Fsm, id: Id)
    ensures Follows(o, m, RcvTermReq(id), Table(m.state, TermRequest))
  {
    DeedsOne(m.trace, Sent(TermAck, id), Start, Start);
    DeedsOne(m.trace, Down, Sent(TermAck, id), Start);
    hide DeedsAfter, Length;
  }

  lemma TermAnswerConforms(o: Options, m: Fsm)
    ensures Follows(o, m, RcvTermAck, Table(m.state, TermAnswer)) <==> !m.state.Opened?
  {
    DeedsOne(m.trace, Finish, Start, Start);
    hide DeedsAfter, Length;
  }

  lemma CodesConform(o: Options, m: Fsm)
    ensures Follows(o, m, RcvCodeRej(true), Table(m.state, GoodReject))
    ensures Follows(o, m, RcvOther(false), Table(m.state, UnknownCode))
  {
    DeedsOne(m.trace, Sent(CodeRej, NextId(m.id)), Start, Start);
    hide DeedsAfter, Length;
  }

  /** In every reachable state every event does exactly what the table says, or nothing where it is to be discarded or
      cannot happen, unless it is one of the departures; and each departure does something else. */
  lemma Conforms(o: Options, m: Fsm, e: Event)
    requires Inv(m) && Enabled(m, e)
    ensures match Meaning(o, m, e)
            case Discarded => Step(o, m, e) == m
            case Read(x) => Follows(o, m, e, Table(m.state, x)) <==> !Departs(o, m, e)
  {
    hide Follows, Table;
    assert m.state.Opened? ==> m.seenAck;
    assert e.Timeout? ==> m.timer && TimerState(m.state);
    hide Inv;
    match e
    case LowerUp => LayerConforms(o, m, e);
    case LowerDown => LayerConforms(o, m, e);
    case Close => LayerConforms(o, m, e);
    case Open => OpenConforms(o, m);
    case Timeout => TimeoutConforms(o, m);
    case ProtReject => RejectConforms(o, m);
    case RcvConfReq(id, reply, strict) => RequestConforms(o, m, id, reply, strict);
    case RcvConfAck(id, good) => if id == m.reqid && good { AnswerConforms(o, m, e); }
    case RcvConfNakRej(id, ret) => if id == m.reqid && ret != 0 { AnswerConforms(o, m, e); }
    case RcvTermReq(id) => TermRequestConforms(o, m, id);
    case RcvTermAck => TermAnswerConforms(o, m);
    case RcvCodeRej(long) => CodesConform(o, m);
    case RcvOther(handled) => CodesConform(o, m);
  }

  // ----- what the states mean -----

  /** The state tells whether the lower layer is up and whether the upper layer wants the link. */
  predicate Tells(s: State, up: bool, wanted: bool)
  {
    && (s.Initial? || s.Starting? <==> !up)
    && (s.Initial? || s.Closed? || s.Closing? <==> !wanted)
  }

  function NowUp(up: bool, e: Event): bool { if e.LowerUp? then true else if e.LowerDown? then false else up }

  function NowWanted(wanted: bool, e: Event): bool { if e.Open? then true else if e.Close? then false else wanted }

  lemma LayerTells(o: Options, m: Fsm, up: bool, wanted: bool)
    requires Tells(m.state, up, wanted)
    ensures Tells(OnLowerUp(o, m).state, true, wanted) && Tells(OnLowerDown(m).state, false, wanted)
    ensures Tells(OnClose(o, m).state, up, false) && Tells(OnProtReject(o, m).state, up, wanted)
  {}

  lemma OpenTells(o: Options, m: Fsm, up: bool, wanted: bool)
    requires Tells(m.state, up, wanted)
    ensures Tells(OnOpen(o, m).state, up, true)
  {}

  lemma TimeoutTells(o: Options, m: Fsm, up: bool, wanted: bool)
    requires Tells(m.state, up, wanted) && TimerState(m.state)
    ensures Tells(OnTimeout(o, m).state, up, wanted)
  {}

  lemma RequestTells(o: Options, m: Fsm, id: Id, reply: Code, strict: Code, up: bool, wanted: bool)
    requires Tells(m.state, up, wanted) && up && IsReply(reply) && IsReply(strict)
    ensures Tells(OnConfReq(o, m, id, reply, strict).state, up, wanted)
  {
    EngageState(o, m);
    hide Engage;
  }

  lemma EngageState(o: Options, m: Fsm)
    ensures Engage(o, m).state == if m.state.Stopped? then ReqSent else m.state
  {}

  lemma AnswerTells(o: Options, m: Fsm, id: Id, good: bool, ret: int, up: bool, wanted: bool)
    requires Tells(m.state, up, wanted)
    ensures Tells(OnConfAck(o, m, id, good).state, up, wanted) && Tells(OnConfNakRej(o, m, id, ret).state, up, wanted)
    ensures Tells(OnTermReq(m, id).state, up, wanted) && Tells(OnTermAck(o, m).state, up, wanted)
  {}

  lemma StepTells(o: Options, m: Fsm, e: Event, up: bool, wanted: bool)
    requires Tells(m.state, up, wanted) && Enabled(m, e) && (m.timer ==> TimerState(m.state))
    ensures Tells(Step(o, m, e).state, NowUp(up, e), NowWanted(wanted, e))
  {
    hide OnLowerUp, OnLowerDown, OnOpen, OnClose, OnTimeout, OnProtReject, OnConfReq, OnConfAck, OnConfNakRej, OnTermReq, OnTermAck;
    match e
    case LowerUp => LayerTells(o, m, up, wanted);
    case LowerDown => LayerTells(o, m, up, wanted);
    case Close => LayerTells(o, m, up, wanted);
    case ProtReject => LayerTells(o, m, up, wanted);
    case Open => OpenTells(o, m, up, wanted);
    case Timeout => TimeoutTells(o, m, up, wanted);
    case RcvConfReq(id, reply, strict) => if up { RequestTells(o, m, id, reply, strict, up, wanted); }
    case RcvConfAck(id, good) => AnswerTells(o, m, id, good, 0, up, wanted);
    case RcvConfNakRej(id, ret) => AnswerTells(o, m, id, false, ret, up, wanted);
    case RcvTermReq(id) => AnswerTells(o, m, id, false, 0, up, wanted);
    case RcvTermAck => AnswerTells(o, m, 0, false, 0, up, wanted);
    case RcvCodeRej(long) =>
    case RcvOther(handled) =>
  }

  function UpAfter(up: bool, es: seq<Event>): bool
    decreases |es|
  {
    if es == [] then up else UpAfter(NowUp(up, es[0]), es[1..])
  }

  function WantedAfter(wanted: bool, es: seq<Event>): bool
    decreases |es|
  {
    if es == [] then wanted else WantedAfter(NowWanted(wanted, es[0]), es[1..])
  }

  /** Over any run the state tells whether the lower layer was last reported up, and whether it was last opened or closed. */
  lemma {:induction false} RunTells(o: Options, m: Fsm, es: seq<Event>, up: bool, wanted: bool)
    requires Inv(m) && Allowed(o, m, es) && Tells(m.state, up, wanted)
    ensures Tells(Run(o, m, es).state, UpAfter(up, es), WantedAfter(wanted, es))
    decreases |es|
  {
    TimerOnly(m);
    hide Step, Inv, Tells;
    if es != [] {
      StepKeeps(o, m, es[0]);
      StepTells(o, m, es[0], up, wanted);
      RunTells(o, Step(o, m, es[0]), es[1..], NowUp(up, es[0]), NowWanted(wanted, es[0]));
    }
  }

  lemma TimerOnly(m: Fsm)
    requires Inv(m)
    ensures m.timer ==> TimerState(m.state)
  {}
}
