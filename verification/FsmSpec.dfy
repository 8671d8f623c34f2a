/** The option negotiation automaton: what each event does, and what holds over every run. Option checks are left to
    the protocol that uses the automaton; their results come in with the events. */
module FsmSpec {
  datatype State = Initial | Starting | Closed | Stopped | Closing | Stopping | ReqSent | AckRcvd | AckSent | Opened

  datatype Code = ConfReq | ConfAck | ConfNak | ConfRej | TermReq | TermAck | CodeRej

  type Id = x: int | 0 <= x < 256 witness 0

  function NextId(id: int): Id { (id + 1) % 256 }

  /** What the automaton does, and the valid Configure-Acks it is given. */
  datatype Action = Up | Down | Start | Finish | Reset | Sent(code: Code, id: Id) | GotAck(id: Id)

  datatype Trace = Empty | Then(before: Trace, last: Action)

  datatype Options = Options(silent: bool, passive: bool, restart: bool, maxConf: int, maxTerm: int, maxNak: int)

  datatype Fsm = Fsm(state: State, id: Id, reqid: Id, seenAck: bool, retransmits: int, nakloops: int, timer: bool, trace: Trace)

  /** A Configure-Request comes with two verdicts: `reply`, and `strict` for when Naks have been sent often enough.
      A Nak or Reject comes with what its option check returns: 0 for a bad one, negative to give up. */
  datatype Event =
    | LowerUp | LowerDown | Open | Close | Timeout | ProtReject
    | RcvConfReq(id: Id, reply: Code, strict: Code)
    | RcvConfAck(id: Id, good: bool)
    | RcvConfNakRej(id: Id, ret: int)
    | RcvTermReq(id: Id)
    | RcvTermAck
    | RcvCodeRej(long: bool)
    | RcvOther(handled: bool)

  predicate IsReply(c: Code) { c.ConfAck? || c.ConfNak? || c.ConfRej? }

  predicate WellFormed(e: Event) { e.RcvConfReq? ==> IsReply(e.reply) && IsReply(e.strict) }

  /** A timeout can only happen while the timer runs. */
  predicate Enabled(m: Fsm, e: Event) { WellFormed(e) && (e.Timeout? ==> m.timer) }

  predicate Negotiating(s: State) { s.ReqSent? || s.AckRcvd? || s.AckSent? }

  function Log(m: Fsm, a: Action): Fsm { m.(trace := Then(m.trace, a)) }

  function Send(m: Fsm, code: Code, id: Id): Fsm { Log(m, Sent(code, id)) }

  /** fsm_sconfreq. */
  function SendConfReq(o: Options, m: Fsm, retransmit: bool): Fsm
  {
    var a := if Negotiating(m.state) then m else Log(m, Reset).(nakloops := 0);
    var b := if retransmit then a else a.(retransmits := o.maxConf, id := NextId(a.id), reqid := NextId(a.id));
    Send(b, ConfReq, b.reqid).(seenAck := false, retransmits := b.retransmits - 1, timer := true)
  }

  /** Sending a Terminate-Request under a new id. */
  function SendTermReq(m: Fsm): Fsm
  {
    Send(m, TermReq, NextId(m.id)).(id := NextId(m.id), reqid := NextId(m.id), timer := true, retransmits := m.retransmits - 1)
  }

  function Init(): Fsm { Fsm(Initial, 0, 0, false, 0, 0, false, Empty) }

  /** Coming up: wait for the peer, or send the first request. */
  function Begin(o: Options, m: Fsm): Fsm
  {
    if o.silent then m.(state := Stopped) else SendConfReq(o, m, false).(state := ReqSent)
  }

  function OnLowerUp(o: Options, m: Fsm): Fsm
  {
    match m.state
    case Initial => m.(state := Closed)
    case Starting => Begin(o, m)
    case _ => m
  }

  function OnLowerDown(m: Fsm): Fsm
  {
    match m.state
    case Closed => m.(state := Initial)
    case Stopped => Log(m.(state := Starting), Start)
    case Closing => m.(state := Initial, timer := false)
    case Stopping => m.(state := Starting, timer := false)
    case ReqSent => m.(state := Starting, timer := false)
    case AckRcvd => m.(state := Starting, timer := false)
    case AckSent => m.(state := Starting, timer := false)
    case Opened => Log(m, Down).(state := Starting)
    case _ => m
  }

  function Restart(o: Options, m: Fsm): Fsm { if o.restart then OnLowerUp(o, OnLowerDown(m)) else m }

  function OnOpen(o: Options, m: Fsm): Fsm
  {
    match m.state
    case Initial => Log(m.(state := Starting), Start)
    case Closed => Begin(o, m)
    case Closing => Restart(o, m.(state := Stopping))
    case Stopped => Restart(o, m)
    case Opened => Restart(o, m)
    case _ => m
  }

  function OnClose(o: Options, m: Fsm): Fsm
  {
    match m.state
    case Starting => m.(state := Initial)
    case Stopped => m.(state := Closed)
    case Stopping => m.(state := Closing)
    case Opened => SendTermReq(Log(m, Down).(retransmits := o.maxTerm)).(state := Closing)
    case ReqSent => SendTermReq(m.(retransmits := o.maxTerm)).(state := Closing)
    case AckRcvd => SendTermReq(m.(retransmits := o.maxTerm)).(state := Closing)
    case AckSent => SendTermReq(m.(retransmits := o.maxTerm)).(state := Closing)
    case _ => m
  }

  function OnProtReject(o: Options, m: Fsm): Fsm
  {
    match m.state
    case Closing => Log(m.(state := Closed, timer := false), Finish)
    case Closed => Log(m, Finish)
    case Stopping => Log(m.(state := Stopped, timer := false), Finish)
    case ReqSent => Log(m.(state := Stopped, timer := false), Finish)
    case AckRcvd => Log(m.(state := Stopped, timer := false), Finish)
    case AckSent => Log(m.(state := Stopped, timer := false), Finish)
    case Stopped => Log(m, Finish)
    case Opened => SendTermReq(Log(m, Down).(retransmits := o.maxTerm)).(state := Stopping)
    case _ => m
  }

  /** fsm_timeout; the timer has gone off. */
  function OnTimeout(o: Options, was: Fsm): Fsm
  {
    var m := was.(timer := false);
    if m.state.Closing? || m.state.Stopping? then
      if m.retransmits <= 0 then Log(m.(state := if m.state.Closing? then Closed else Stopped), Finish)
      else SendTermReq(m)
    else if Negotiating(m.state) then
      if m.retransmits <= 0 then
        if o.passive then m.(state := Stopped) else Log(m.(state := Stopped), Finish)
      else
        var t := SendConfReq(o, m, true);
        if t.state.AckRcvd? then t.(state := ReqSent) else t
    else m
  }

  /** The reply to a Configure-Request, once the automaton is negotiating. */
  function Reply(m: Fsm, id: Id, code: Code): Fsm
  {
    var t := Send(m, code, id);
    if code.ConfAck? then
      if t.state.AckRcvd? then Log(t.(state := Opened, timer := false), Up).(nakloops := 0)
      else t.(state := AckSent, nakloops := 0)
    else
      var u := if t.state.AckRcvd? then t else t.(state := ReqSent);
      if code.ConfNak? then u.(nakloops := u.nakloops + 1) else u
  }

  /** A peer's request takes an open automaton down, and starts a stopped one. */
  function Engage(o: Options, m: Fsm): Fsm
  {
    if m.state.Opened? then SendConfReq(o, Log(m, Down), false)
    else if m.state.Stopped? then SendConfReq(o, m, false).(state := ReqSent)
    else m
  }

  function OnConfReq(o: Options, m: Fsm, id: Id, reply: Code, strict: Code): Fsm
  {
    if m.state.Closed? then Send(m, TermAck, id)
    else if m.state.Closing? || m.state.Stopping? then m
    else
      var t := Engage(o, m);
      Reply(t, id, if t.nakloops >= o.maxNak then strict else reply)
  }

  function OnConfAck(o: Options, was: Fsm, id: Id, good: bool): Fsm
  {
    if id != was.reqid || was.seenAck || !good then was
    else
      var m := Log(was, GotAck(id)).(seenAck := true);
      match m.state
      case Closed => Send(m, TermAck, id)
      case Stopped => Send(m, TermAck, id)
      case ReqSent => m.(state := AckRcvd, retransmits := o.maxConf)
      case AckRcvd => SendConfReq(o, m.(timer := false), false).(state := ReqSent)
      case AckSent => Log(m.(state := Opened, timer := false, retransmits := o.maxConf), Up)
      case Opened => SendConfReq(o, Log(m, Down), false).(state := ReqSent)
      case _ => m
  }

  function OnConfNakRej(o: Options, was: Fsm, id: Id, ret: int): Fsm
  {
    if id != was.reqid || was.seenAck || ret == 0 then was
    else
      var m := was.(seenAck := true);
      match m.state
      case Closed => Send(m, TermAck, id)
      case Stopped => Send(m, TermAck, id)
      case ReqSent => if ret < 0 then m.(state := Stopped, timer := false) else SendConfReq(o, m.(timer := false), false)
      case AckSent => if ret < 0 then m.(state := Stopped, timer := false) else SendConfReq(o, m.(timer := false), false)
      case AckRcvd => SendConfReq(o, m.(timer := false), false).(state := ReqSent)
      case Opened => SendConfReq(o, Log(m, Down), false).(state := ReqSent)
      case _ => m
  }

  function OnTermReq(m: Fsm, id: Id): Fsm
  {
    match m.state
    case AckRcvd => Send(m.(state := ReqSent), TermAck, id)
    case AckSent => Send(m.(state := ReqSent), TermAck, id)
    case Opened => Send(Log(m, Down).(retransmits := 0, state := Stopping, timer := true), TermAck, id)
    case _ => Send(m, TermAck, id)
  }

  function OnTermAck(o: Options, m: Fsm): Fsm
  {
    match m.state
    case Closing => Log(m.(state := Closed, timer := false), Finish)
    case Stopping => Log(m.(state := Stopped, timer := false), Finish)
    case AckRcvd => m.(state := ReqSent)
    case Opened => SendConfReq(o, Log(m, Down), false)
    case _ => m
  }

  /** fsm_input: packets are dropped while the lower layer is down. */
  function OnPacket(o: Options, m: Fsm, e: Event): Fsm
  {
    if m.state.Initial? || m.state.Starting? then m
    else
      match e
      case RcvConfReq(id, reply, strict) => OnConfReq(o, m, id, reply, strict)
      case RcvConfAck(id, good) => OnConfAck(o, m, id, good)
      case RcvConfNakRej(id, ret) => OnConfNakRej(o, m, id, ret)
      case RcvTermReq(id) => OnTermReq(m, id)
      case RcvTermAck => OnTermAck(o, m)
      case RcvCodeRej(long) => if long && m.state.AckRcvd? then m.(state := ReqSent) else m
      case RcvOther(handled) => if handled then m else Send(m, CodeRej, NextId(m.id)).(id := NextId(m.id))
      case _ => m
  }

  function Step(o: Options, m: Fsm, e: Event): Fsm
  {
    match e
    case LowerUp => OnLowerUp(o, m)
    case LowerDown => OnLowerDown(m)
    case Open => OnOpen(o, m)
    case Close => OnClose(o, m)
    case Timeout => OnTimeout(o, m)
    case ProtReject => OnProtReject(o, m)
    case _ => OnPacket(o, m, e)
  }

  // ----- safety -----

  /** Up calls minus down calls. */
  function Balance(t: Trace): int
  {
    match t
    case Empty => 0
    case Then(b, a) => Balance(b) + (if a.Up? then 1 else if a.Down? then -1 else 0)
  }

  /** Up and down calls alternate, starting with up. */
  predicate Alternates(t: Trace)
  {
    match t
    case Empty => true
    case Then(b, _) => Alternates(b) && 0 <= Balance(t) <= 1
  }

  /** The last Configure-Request sent has this id. */
  predicate Requested(t: Trace, id: Id)
  {
    match t
    case Empty => false
    case Then(b, a) => if a.Sent? && a.code.ConfReq? then a.id == id else Requested(b, id)
  }

  /** The peer has validly acked the last Configure-Request sent. */
  predicate Acked(t: Trace)
  {
    match t
    case Empty => false
    case Then(b, a) => if a.Sent? && a.code.ConfReq? then false else (a.GotAck? && Requested(b, a.id)) || Acked(b)
  }

  /** The last reply to the peer's requests in this negotiation was an Ack. */
  predicate Agreed(t: Trace)
  {
    match t
    case Empty => false
    case Then(b, a) => if a.Sent? && IsReply(a.code) then a.code.ConfAck? else !a.Reset? && Agreed(b)
  }

  predicate TimerState(s: State) { s.Closing? || s.Stopping? || Negotiating(s) }

  /** What holds in every state a run reaches. */
  ghost predicate Inv(m: Fsm)
  {
    && (m.timer <==> TimerState(m.state))
    && Alternates(m.trace) && Balance(m.trace) == (if m.state.Opened? then 1 else 0)
    && (Negotiating(m.state) || m.state.Opened? ==> Requested(m.trace, m.reqid))
    && (m.state.AckRcvd? || m.state.Opened? ==> m.seenAck && Acked(m.trace))
    && (m.state.AckSent? || m.state.Opened? ==> Agreed(m.trace))
  }

  lemma InitInv()
    ensures Inv(Init())
  {}

  /** A request starts a new exchange: nothing has been acked yet, and what was agreed stands only while negotiating. */
  lemma RequestTrace(o: Options, m: Fsm, retransmit: bool)
    ensures var t := SendConfReq(o, m, retransmit);
            && Balance(t.trace) == Balance(m.trace)
            && (Alternates(m.trace) && 0 <= Balance(m.trace) <= 1 ==> Alternates(t.trace))
            && Requested(t.trace, t.reqid) && !Acked(t.trace) && (Agreed(t.trace) <==> Negotiating(m.state) && Agreed(m.trace))
  {}

  lemma TerminateTrace(m: Fsm)
    ensures var t := SendTermReq(m);
            && Balance(t.trace) == Balance(m.trace)
            && (Alternates(m.trace) && 0 <= Balance(m.trace) <= 1 ==> Alternates(t.trace))
  {}

  lemma LowerUpKeeps(o: Options, m: Fsm)
    requires Inv(m)
    ensures Inv(OnLowerUp(o, m))
  {
    RequestTrace(o, m, false);
  }

  lemma LowerDownKeeps(m: Fsm)
    requires Inv(m)
    ensures Inv(OnLowerDown(m))
  {}

  lemma OpenKeeps(o: Options, m: Fsm)
    requires Inv(m)
    ensures Inv(OnOpen(o, m))
  {
    RequestTrace(o, m, false);
    var n := if m.state.Closing? then m.(state := Stopping) else m;
    LowerDownKeeps(n);
    LowerUpKeeps(o, OnLowerDown(n));
  }

  lemma CloseKeeps(o: Options, m: Fsm)
    requires Inv(m)
    ensures Inv(OnClose(o, m))
  {
    TerminateTrace(m.(retransmits := o.maxTerm));
    TerminateTrace(Log(m, Down).(retransmits := o.maxTerm));
  }

  lemma ProtRejectKeeps(o: Options, m: Fsm)
    requires Inv(m)
    ensures Inv(OnProtReject(o, m))
  {
    TerminateTrace(Log(m, Down).(retransmits := o.maxTerm));
  }

  lemma TimeoutKeeps(o: Options, m: Fsm)
    requires Inv(m) && m.timer
    ensures Inv(OnTimeout(o, m))
  {
    TerminateTrace(m.(timer := false));
    RequestTrace(o, m.(timer := false), true);
  }

  lemma ReplyKeeps(m: Fsm, id: Id, code: Code)
    requires IsReply(code) && Alternates(m.trace) && Balance(m.trace) == 0 && m.timer && Requested(m.trace, m.reqid)
    requires Negotiating(m.state) || m.state.Opened?
    requires m.state.AckRcvd? ==> m.seenAck && Acked(m.trace)
    ensures Inv(Reply(m, id, code))
  {}

  lemma ConfReqKeeps(o: Options, m: Fsm, id: Id, reply: Code, strict: Code)
    requires Inv(m) && !m.state.Initial? && !m.state.Starting? && IsReply(reply) && IsReply(strict)
    ensures Inv(OnConfReq(o, m, id, reply, strict))
  {
    hide Reply;
    RequestTrace(o, Log(m, Down), false);
    RequestTrace(o, m, false);
    if m.state.Opened? || m.state.Stopped? || Negotiating(m.state) {
      var t := Engage(o, m);
      ReplyKeeps(t, id, if t.nakloops >= o.maxNak then strict else reply);
    }
  }

  lemma ConfAckKeeps(o: Options, m: Fsm, id: Id, good: bool)
    requires Inv(m)
    ensures Inv(OnConfAck(o, m, id, good))
  {}

  lemma ConfNakRejKeeps(o: Options, m: Fsm, id: Id, ret: int)
    requires Inv(m)
    ensures Inv(OnConfNakRej(o, m, id, ret))
  {
    RequestTrace(o, m.(seenAck := true, timer := false), false);
  }

  lemma TermReqKeeps(m: Fsm, id: Id)
    requires Inv(m)
    ensures Inv(OnTermReq(m, id))
  {}

  lemma TermAckKeeps(o: Options, m: Fsm)
    requires Inv(m)
    ensures Inv(OnTermAck(o, m)) <==> !m.state.Opened?
  {}

  /** Every event keeps the invariant, with one exception: a Terminate-Ack while open always breaks it. */
  lemma StepKeeps(o: Options, m: Fsm, e: Event)
    requires Inv(m) && Enabled(m, e)
    ensures Inv(Step(o, m, e)) <==> !(m.state.Opened? && e.RcvTermAck?)
  {
    hide OnLowerUp, OnLowerDown, OnOpen, OnClose, OnTimeout, OnProtReject, OnConfReq, OnConfAck, OnConfNakRej, OnTermReq, OnTermAck;
    match e
    case LowerUp => LowerUpKeeps(o, m);
    case LowerDown => LowerDownKeeps(m);
    case Open => OpenKeeps(o, m);
    case Close => CloseKeeps(o, m);
    case Timeout => TimeoutKeeps(o, m);
    case ProtReject => ProtRejectKeeps(o, m);
    case RcvConfReq(id, reply, strict) =>
      if !m.state.Initial? && !m.state.Starting? { ConfReqKeeps(o, m, id, reply, strict); }
    case RcvConfAck(id, good) => ConfAckKeeps(o, m, id, good);
    case RcvConfNakRej(id, ret) => ConfNakRejKeeps(o, m, id, ret);
    case RcvTermReq(id) => TermReqKeeps(m, id);
    case RcvTermAck => TermAckKeeps(o, m);
    case RcvCodeRej(long) =>
    case RcvOther(handled) =>
  }

  /** What the exception leads to: the state still says open, but the upper layer has been taken down, the timer runs
      and the request just sent is not acked. */
  lemma TermAckWhileOpen(o: Options, m: Fsm)
    requires Inv(m) && m.state.Opened?
    ensures var t := OnTermAck(o, m);
            t.state.Opened? && Balance(t.trace) == 0 && t.timer && !t.seenAck && !Acked(t.trace) && !Agreed(t.trace)
  {
    RequestTrace(o, Log(m, Down), false);
  }

  /** While a valid Ack is on record, further Acks, Naks and Rejects change nothing: the branches of fsm_rconfack and
      fsm_rconfnakrej for these states are never taken. */
  lemma AckedIgnoresMore(o: Options, m: Fsm, id: Id, good: bool, ret: int)
    requires Inv(m) && (m.state.AckRcvd? || m.state.Opened?)
    ensures OnConfAck(o, m, id, good) == m && OnConfNakRej(o, m, id, ret) == m
  {}

  // ----- runs -----

  function Run(o: Options, m: Fsm, es: seq<Event>): Fsm
    decreases |es|
  {
    if es == [] then m else Run(o, Step(o, m, es[0]), es[1..])
  }

  /** Timeouts come only from a running timer, and no Terminate-Ack comes while open. */
  predicate Allowed(o: Options, m: Fsm, es: seq<Event>)
    decreases |es|
  {
    es == [] || (Enabled(m, es[0]) && !(m.state.Opened? && es[0].RcvTermAck?) && Allowed(o, Step(o, m, es[0]), es[1..]))
  }

  /** In every state of every run: open means that the peer acked our last request and we acked its last one, the upper
      layer is up exactly while open, and the timer runs exactly in the states that wait for the peer. */
  lemma {:induction false} RunSafe(o: Options, m: Fsm, es: seq<Event>)
    requires Inv(m) && Allowed(o, m, es)
    ensures Inv(Run(o, m, es))
    decreases |es|
  {
    hide Step, Inv, Enabled;
    if es != [] {
      StepKeeps(o, m, es[0]);
      RunSafe(o, Step(o, m, es[0]), es[1..]);
    }
  }

  // ----- termination -----

  /** Messages sent. */
  function Messages(t: Trace): nat
  {
    match t
    case Empty => 0
    case Then(b, a) => Messages(b) + if a.Sent? then 1 else 0
  }

  /** Up to n timeouts, for as long as the timer runs. */
  function AfterTimeouts(o: Options, m: Fsm, n: nat): Fsm
    decreases n
  {
    if n == 0 || !m.timer then m else AfterTimeouts(o, OnTimeout(o, m), n - 1)
  }

  function Left(m: Fsm): nat { if m.retransmits > 0 then m.retransmits else 0 }

  lemma TimeoutCounts(o: Options, m: Fsm)
    requires Inv(m) && m.timer
    ensures var t := OnTimeout(o, m);
            if m.retransmits > 0 then
              t.timer && t.retransmits == m.retransmits - 1 && Messages(t.trace) == Messages(m.trace) + 1
            else !t.timer && Messages(t.trace) == Messages(m.trace)
  {}

  /** If only timeouts occur, one message goes out for each retransmission left, and the next timeout ends in a state
      without a timer. */
  lemma {:induction false} GivesUp(o: Options, m: Fsm)
    requires Inv(m) && m.timer
    ensures AfterTimeouts(o, m, Left(m)).timer
    ensures var t := AfterTimeouts(o, m, Left(m) + 1);
            !t.timer && !TimerState(t.state) && Messages(t.trace) == Messages(m.trace) + Left(m)
    decreases Left(m)
  {
    TimeoutKeeps(o, m);
    TimeoutCounts(o, m);
    hide OnTimeout, Messages;
    if m.retransmits > 0 {
      GivesUp(o, OnTimeout(o, m));
    }
  }

  function NakLimit(o: Options): int { if o.maxNak > 0 then o.maxNak else 0 }

  /** Naks sent since the last Ack sent, or since the negotiation began. */
  function NaksSince(t: Trace): nat
  {
    match t
    case Empty => 0
    case Then(b, a) =>
      if a.Reset? || (a.Sent? && a.code.ConfAck?) then 0 else NaksSince(b) + if a.Sent? && a.code.ConfNak? then 1 else 0
  }

  /** At no time were there more than n. */
  predicate NeverMore(t: Trace, n: int)
  {
    match t
    case Empty => 0 <= n
    case Then(b, _) => NeverMore(b, n) && NaksSince(t) <= n
  }

  /** nakloops counts them, and there are never more than the limit. */
  predicate NakInv(o: Options, m: Fsm)
  {
    m.nakloops == NaksSince(m.trace) <= NakLimit(o) && NeverMore(m.trace, NakLimit(o))
  }

  lemma RequestNaks(o: Options, m: Fsm, retransmit: bool)
    requires NakInv(o, m)
    ensures NakInv(o, SendConfReq(o, m, retransmit)) && SendConfReq(o, m, retransmit).state == m.state
  {}

  lemma LogNaks(o: Options, m: Fsm, a: Action)
    requires NakInv(o, m) && !a.Reset? && (a.Sent? ==> !a.code.ConfAck? && !a.code.ConfNak?)
    ensures NakInv(o, Log(m, a))
  {}

  lemma LinkNaks(o: Options, m: Fsm)
    requires NakInv(o, m)
    ensures NakInv(o, OnLowerUp(o, m)) && NakInv(o, OnLowerDown(m))
  {
    hide SendConfReq;
    RequestNaks(o, m, false);
  }

  lemma OpenNaks(o: Options, m: Fsm)
    requires NakInv(o, m)
    ensures NakInv(o, OnOpen(o, m))
  {
    hide SendConfReq, OnLowerUp, OnLowerDown;
    RequestNaks(o, m, false);
    var n := if m.state.Closing? then m.(state := Stopping) else m;
    LinkNaks(o, n);
    LinkNaks(o, OnLowerDown(n));
  }

  lemma ReplyNaks(o: Options, m: Fsm, id: Id, reply: Code, strict: Code)
    requires NakInv(o, m) && !strict.ConfNak?
    ensures NakInv(o, Reply(m, id, if m.nakloops >= o.maxNak then strict else reply))
  {}

  lemma ConfReqNaks(o: Options, m: Fsm, id: Id, reply: Code, strict: Code)
    requires NakInv(o, m) && !strict.ConfNak?
    ensures NakInv(o, OnConfReq(o, m, id, reply, strict))
  {
    hide SendConfReq, Reply, NakInv, Log;
    LogNaks(o, m, Down);
    LogNaks(o, m, Sent(TermAck, id));
    RequestNaks(o, Log(m, Down), false);
    RequestNaks(o, m, false);
    EngageNaks(o, m);
    ReplyNaks(o, Engage(o, m), id, reply, strict);
  }

  lemma EngageNaks(o: Options, m: Fsm)
    requires NakInv(o, m)
    ensures NakInv(o, Engage(o, m))
  {
    hide SendConfReq;
    RequestNaks(o, Log(m, Down), false);
    RequestNaks(o, m, false);
  }

  lemma ConfAckNaks(o: Options, m: Fsm, id: Id, good: bool)
    requires NakInv(o, m)
    ensures NakInv(o, OnConfAck(o, m, id, good))
  {
    hide SendConfReq;
    var n := Log(m, GotAck(id)).(seenAck := true);
    RequestNaks(o, n.(timer := false), false);
    RequestNaks(o, Log(n, Down), false);
  }

  lemma ConfNakRejNaks(o: Options, m: Fsm, id: Id, ret: int)
    requires NakInv(o, m)
    ensures NakInv(o, OnConfNakRej(o, m, id, ret))
  {
    hide SendConfReq;
    var n := m.(seenAck := true);
    RequestNaks(o, n.(timer := false), false);
    RequestNaks(o, Log(n, Down), false);
  }

  lemma TermAckNaks(o: Options, m: Fsm)
    requires NakInv(o, m)
    ensures NakInv(o, OnTermAck(o, m))
  {
    hide SendConfReq;
    RequestNaks(o, Log(m, Down), false);
  }

  lemma TermReqNaks(o: Options, m: Fsm, id: Id)
    requires NakInv(o, m)
    ensures NakInv(o, OnTermReq(m, id)) && NakInv(o, SendTermReq(m))
  {}

  lemma CloseNaks(o: Options, m: Fsm)
    requires NakInv(o, m)
    ensures NakInv(o, OnClose(o, m))
  {
    hide SendTermReq;
    TermReqNaks(o, m.(retransmits := o.maxTerm), 0);
    TermReqNaks(o, Log(m, Down).(retransmits := o.maxTerm), 0);
  }

  lemma ProtRejectNaks(o: Options, m: Fsm)
    requires NakInv(o, m)
    ensures NakInv(o, OnProtReject(o, m))
  {
    hide SendTermReq;
    TermReqNaks(o, Log(m, Down).(retransmits := o.maxTerm), 0);
  }

  lemma TimeoutNaks(o: Options, m: Fsm)
    requires NakInv(o, m)
    ensures NakInv(o, OnTimeout(o, m))
  {
    hide SendTermReq, SendConfReq;
    TermReqNaks(o, m.(timer := false), 0);
    RequestNaks(o, m.(timer := false), true);
  }

  lemma StepNaks(o: Options, m: Fsm, e: Event)
    requires e.RcvConfReq? ==> !e.strict.ConfNak?
    requires NakInv(o, m)
    ensures NakInv(o, Step(o, m, e))
  {
    hide OnLowerUp, OnLowerDown, OnOpen, OnClose, OnTimeout, OnProtReject, OnConfReq, OnConfAck, OnConfNakRej, OnTermAck, OnTermReq;
    match e
    case LowerUp => LinkNaks(o, m);
    case LowerDown => LinkNaks(o, m);
    case Open => OpenNaks(o, m);
    case Close => CloseNaks(o, m);
    case Timeout => TimeoutNaks(o, m);
    case ProtReject => ProtRejectNaks(o, m);
    case RcvConfReq(id, reply, strict) => ConfReqNaks(o, m, id, reply, strict);
    case RcvConfAck(id, good) => ConfAckNaks(o, m, id, good);
    case RcvConfNakRej(id, ret) => ConfNakRejNaks(o, m, id, ret);
    case RcvTermReq(id) => TermReqNaks(o, m, id);
    case RcvTermAck => TermAckNaks(o, m);
    case RcvCodeRej(long) =>
    case RcvOther(handled) =>
  }

  /** Naks are bounded: over any run in which the strict verdict is never a Nak, no more than maxNak of them are sent
      without an Ack or a new negotiation in between. */
  lemma {:induction false} NaksBounded(o: Options, m: Fsm, es: seq<Event>)
    requires NakInv(o, m) && forall i | 0 <= i < |es| && es[i].RcvConfReq? :: !es[i].strict.ConfNak?
    ensures NakInv(o, Run(o, m, es))
    decreases |es|
  {
    hide Step, NakInv;
    if es != [] {
      StepNaks(o, m, es[0]);
      assert forall i | 0 <= i < |es| - 1 :: es[1..][i] == es[i + 1];
      NaksBounded(o, Step(o, m, es[0]), es[1..]);
    }
  }

  lemma InitNaks(o: Options)
    ensures NakInv(o, Init())
  {}
}
