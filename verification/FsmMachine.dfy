/** fsm.c as it runs: a control block whose event functions update its fields. */
module FsmMachine {
  import opened FsmSpec

  class FsmBlock {
    const options: Options
    var state: State
    var id: Id
    var reqid: Id
    var seenAck: bool
    var retransmits: int
    var nakloops: int
    var timer: bool
    ghost var trace: Trace

    ghost function View(): Fsm
      reads this
    {
      Fsm(state, id, reqid, seenAck, retransmits, nakloops, timer, trace)
    }

    /** fsm_init. */
    constructor (o: Options)
      ensures options == o && View() == Init()
    {
      options := o;
      state, id, reqid, seenAck, retransmits, nakloops, timer := Initial, 0, 0, false, 0, 0, false;
      trace := Empty;
    }

    /** A message to the peer, or a call to the layer above or below. */
    ghost method Emit(a: Action)
      modifies this`trace
      ensures trace == Then(old(trace), a)
    {
      trace := Then(trace, a);
    }

    method SendConfReq(retransmit: bool)
      modifies this
      ensures View() == FsmSpec.SendConfReq(options, old(View()), retransmit)
    {
      if state != ReqSent && state != AckRcvd && state != AckSent {
        Emit(Reset);
        nakloops := 0;
      }
      if !retransmit {
        retransmits := options.maxConf;
        id := NextId(id);
        reqid := id;
      }
      seenAck := false;
      Emit(Sent(ConfReq, reqid));
      retransmits := retransmits - 1;
      timer := true;
    }

    method SendTermReq()
      modifies this
      ensures View() == FsmSpec.SendTermReq(old(View()))
    {
      id := NextId(id);
      reqid := id;
      Emit(Sent(TermReq, reqid));
      timer := true;
      retransmits := retransmits - 1;
    }

    method LowerUp()
      modifies this
      ensures View() == OnLowerUp(options, old(View()))
    {
      match state
      case Initial => state := Closed;
      case Starting =>
        if options.silent {
          state := Stopped;
        } else {
          SendConfReq(false);
          state := ReqSent;
        }
      case _ =>
    }

    method LowerDown()
      modifies this
      ensures View() == OnLowerDown(old(View()))
    {
      match state
      case Closed => state := Initial;
      case Stopped =>
        state := Starting;
        Emit(Start);
      case Closing => state, timer := Initial, false;
      case Opened =>
        Emit(Down);
        state := Starting;
      case Initial =>
      case Starting =>
      case _ => state, timer := Starting, false;
    }

    method Open()
      modifies this
      ensures View() == OnOpen(options, old(View()))
    {
      match state
      case Initial =>
        state := Starting;
        Emit(Start);
      case Closed =>
        if options.silent {
          state := Stopped;
        } else {
          SendConfReq(false);
          state := ReqSent;
        }
      case Closing =>
        state := Stopping;
        RestartLink();
      case Stopped => RestartLink();
      case Opened => RestartLink();
      case _ =>
    }

    method RestartLink()
      modifies this
      ensures View() == Restart(options, old(View()))
    {
      if options.restart {
        LowerDown();
        LowerUp();
      }
    }

    method Close()
      modifies this
      ensures View() == OnClose(options, old(View()))
    {
      if state == Starting {
        state := Initial;
      } else if state == Stopped {
        state := Closed;
      } else if state == Stopping {
        state := Closing;
      } else if Negotiating(state) || state == Opened {
        if state != Opened {
          timer := false;
        } else {
          Emit(Down);
        }
        retransmits := options.maxTerm;
        SendTermReq();
        state := Closing;
      }
    }

    method ProtReject()
      modifies this
      ensures View() == OnProtReject(options, old(View()))
    {
      match state
      case Closing =>
        timer, state := false, Closed;
        Emit(Finish);
      case Closed => Emit(Finish);
      case Stopped => Emit(Finish);
      case Opened =>
        Emit(Down);
        retransmits := options.maxTerm;
        SendTermReq();
        state := Stopping;
      case Initial =>
      case Starting =>
      case _ =>
        timer, state := false, Stopped;
        Emit(Finish);
    }

    /** The timer has gone off. */
    method Timeout()
      modifies this
      ensures View() == OnTimeout(options, old(View()))
    {
      timer := false;
      if state == Closing || state == Stopping {
        if retransmits <= 0 {
          state := if state == Closing then Closed else Stopped;
          Emit(Finish);
        } else {
          SendTermReq();
        }
      } else if state == ReqSent || state == AckRcvd || state == AckSent {
        if retransmits <= 0 {
          state := Stopped;
          if !options.passive { Emit(Finish); }
        } else {
          SendConfReq(true);
          if state == AckRcvd { state := ReqSent; }
        }
      }
    }

    /** A packet from the peer, its header parsed and its options checked. */
    method Input(e: Event)
      requires WellFormed(e)
      modifies this
      ensures View() == OnPacket(options, old(View()), e)
    {
      if state == Initial || state == Starting { return; }
      match e
      case RcvConfReq(i, reply, strict) => ConfReqIn(i, reply, strict);
      case RcvConfAck(i, good) => ConfAckIn(i, good);
      case RcvConfNakRej(i, ret) => ConfNakRejIn(i, ret);
      case RcvTermReq(i) => TermReqIn(i);
      case RcvTermAck => TermAckIn();
      case RcvCodeRej(long) =>
        if long && state == AckRcvd { state := ReqSent; }
      case RcvOther(handled) =>
        if !handled {
          id := NextId(id);
          Emit(Sent(CodeRej, id));
        }
      case _ =>
    }

    method ConfReqIn(i: Id, reply: Code, strict: Code)
      modifies this
      ensures View() == OnConfReq(options, old(View()), i, reply, strict)
    {
      hide FsmSpec.Engage, Reply;
      if state == Closed {
        Emit(Sent(TermAck, i));
        return;
      }
      if state == Closing || state == Stopping { return; }
      Engage();
      ReplyTo(i, if nakloops >= options.maxNak then strict else reply);
    }

    method Engage()
      modifies this
      ensures View() == FsmSpec.Engage(options, old(View()))
    {
      if state == Opened {
        Emit(Down);
        SendConfReq(false);
      } else if state == Stopped {
        SendConfReq(false);
        state := ReqSent;
      }
    }

    method ReplyTo(i: Id, code: Code)
      modifies this
      ensures View() == Reply(old(View()), i, code)
    {
      Emit(Sent(code, i));
      if code == ConfAck {
        if state == AckRcvd {
          timer, state := false, Opened;
          Emit(Up);
        } else {
          state := AckSent;
        }
        nakloops := 0;
      } else {
        if state != AckRcvd { state := ReqSent; }
        if code == ConfNak { nakloops := nakloops + 1; }
      }
    }

    method ConfAckIn(i: Id, good: bool)
      modifies this
      ensures View() == OnConfAck(options, old(View()), i, good)
    {
      if i != reqid || seenAck || !good { return; }
      Emit(GotAck(i));
      seenAck := true;
      match state
      case Closed => Emit(Sent(TermAck, i));
      case Stopped => Emit(Sent(TermAck, i));
      case ReqSent => state, retransmits := AckRcvd, options.maxConf;
      case AckRcvd =>
        timer := false;
        SendConfReq(false);
        state := ReqSent;
      case AckSent =>
        timer, state, retransmits := false, Opened, options.maxConf;
        Emit(Up);
      case Opened =>
        Emit(Down);
        SendConfReq(false);
        state := ReqSent;
      case _ =>
    }

    method ConfNakRejIn(i: Id, ret: int)
      modifies this
      ensures View() == OnConfNakRej(options, old(View()), i, ret)
    {
      if i != reqid || seenAck || ret == 0 { return; }
      seenAck := true;
      match state
      case Closed => Emit(Sent(TermAck, i));
      case Stopped => Emit(Sent(TermAck, i));
      case AckRcvd =>
        timer := false;
        SendConfReq(false);
        state := ReqSent;
      case Opened =>
        Emit(Down);
        SendConfReq(false);
        state := ReqSent;
      case Closing =>
      case Stopping =>
      case Initial =>
      case Starting =>
      case _ =>
        timer := false;
        if ret < 0 { state := Stopped; } else { SendConfReq(false); }
    }

    method TermReqIn(i: Id)
      modifies this
      ensures View() == OnTermReq(old(View()), i)
    {
      match state {
        case AckRcvd => state := ReqSent;
        case AckSent => state := ReqSent;
        case Opened =>
          Emit(Down);
          retransmits, state, timer := 0, Stopping, true;
        case _ =>
      }
      Emit(Sent(TermAck, i));
    }

    method TermAckIn()
      modifies this
      ensures View() == OnTermAck(options, old(View()))
    {
      match state
      case Closing =>
        timer, state := false, Closed;
        Emit(Finish);
      case Stopping =>
        timer, state := false, Stopped;
        Emit(Finish);
      case AckRcvd => state := ReqSent;
      case Opened =>
        Emit(Down);
        SendConfReq(false);
      case _ =>
    }
  }
}
