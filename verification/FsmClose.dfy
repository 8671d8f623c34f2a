/** Two open automata over a link that loses nothing: closing either ends both. */
module FsmClose {
  import opened FsmSpec
  import opened FsmLink

  predicate IsEnding(s: State) { s.Closing? || s.Stopping? }

  predicate IsEnded(s: State) { s.Closed? || s.Stopped? }

  /** Open, on the way down, or down; taken down once unless open. */
  predicate Leaving(m: Fsm)
  {
    && (m.state.Opened? || IsEnding(m.state) || IsEnded(m.state))
    && (m.timer <==> IsEnding(m.state))
    && Count(m.trace, AnUp) == 1 && Count(m.trace, ADown) == (if m.state.Opened? then 0 else 1)
    && (Count(m.trace, AFinish) > 0 <==> IsEnded(m.state))
    && (Count(m.trace, ATermReq) + Count(m.trace, ATermAck) == 0 <==> m.state.Opened?)
  }

  function AtLeast0(n: int): nat { if n > 0 then n else 0 }

  /** The timeouts, arrivals and messages an end can still cause. */
  function Strength(o: Options, m: Fsm): nat
  {
    if m.state.Opened? then 3 * AtLeast0(o.maxTerm - 1) + 3
    else if IsEnding(m.state) then 3 * Left(m) + 1
    else 0
  }

  predicate Closes(e: Event) { e.Close? || e.ProtReject? }

  /** What may happen: either upper layer closes (or the lower one reports a rejected protocol) at any time, running timers
      go off at any time, and Terminate messages arrive. */
  predicate MayHappen(m: Fsm, e: Event)
  {
    Closes(e) || (e.Timeout? && m.timer) || e.RcvTermReq? || (e.RcvTermAck? && !m.state.Opened?)
  }

  /** The messages an event puts on the way: an answer to a Terminate-Request, else at most one Terminate-Request. */
  predicate Says(e: Event, out: seq<Msg>)
  {
    match e
    case RcvTermReq(id) => out == [Msg(TermAck, id)]
    case _ => out == [] || (|out| == 1 && out[0].code.TermReq?)
  }

  predicate LeavesWell(o: Options, m: Fsm, e: Event)
  {
    var t := Step(o, m, e);
    var out := SentAfter(t.trace, Length(m.trace));
    && Leaving(t) && Says(e, out)
    && Count(t.trace, ATermAck) == Count(m.trace, ATermAck) + (if e.RcvTermReq? then 1 else 0)
    && Count(t.trace, ATermReq) == Count(m.trace, ATermReq) + (if e.RcvTermReq? then 0 else |out|)
    && Strength(o, t) + (if e.RcvTermReq? then 0 else 2 * |out|) + (if e.Timeout? then 1 else 0) <= Strength(o, m)
    && (!m.state.Opened? || Closes(e) ==> !t.state.Opened?)
  }

  lemma SaysOne(t: Trace, a: Action, c: Code, id: Id)
    requires !a.Sent?
    ensures SentAfter(Then(t, Sent(c, id)), Length(t)) == [Msg(c, id)] == SentAfter(Then(Then(t, a), Sent(c, id)), Length(t))
    ensures SentAfter(t, Length(t)) == [] == SentAfter(Then(t, a), Length(t))
  {
    NothingSent(t, Sent(c, id));
    NothingSent(t, a);
    OneSent(t, a, c, id);
  }

  /** What a handler leaves of an automaton: nothing new, one call, or a message after a call or without one. */
  predicate Adds(m: Fsm, t: Fsm, a: Action, c: Code, id: Id, call: bool, say: bool)
  {
    var u := if call then Then(m.trace, a) else m.trace;
    t.trace == if say then Then(u, Sent(c, id)) else u
  }

  lemma AddsCounts(m: Fsm, t: Fsm, a: Action, c: Code, id: Id, call: bool, say: bool)
    requires Adds(m, t, a, c, id, call, say) && !a.Sent?
    ensures SentAfter(t.trace, Length(m.trace)) == if say then [Msg(c, id)] else []
    ensures Count(t.trace, AnUp) == Count(m.trace, AnUp) + (if call && a.Up? then 1 else 0)
    ensures Count(t.trace, ADown) == Count(m.trace, ADown) + (if call && a.Down? then 1 else 0)
    ensures Count(t.trace, AFinish) == Count(m.trace, AFinish) + (if call && a.Finish? then 1 else 0)
    ensures Count(t.trace, ATermReq) == Count(m.trace, ATermReq) + (if say && c.TermReq? then 1 else 0)
    ensures Count(t.trace, ATermAck) == Count(m.trace, ATermAck) + (if say && c.TermAck? then 1 else 0)
  {
    SaysOne(m.trace, a, c, id);
    hide SentAfter, Length;
  }

  lemma CloseLeaves(o: Options, m: Fsm)
    requires Leaving(m)
    ensures LeavesWell(o, m, Close)
  {
    AddsCounts(m, OnClose(o, m), Down, TermReq, NextId(m.id), m.state.Opened?, m.state.Opened?);
    hide Count, SentAfter, Length;
  }

  lemma RejectLeaves(o: Options, m: Fsm)
    requires Leaving(m)
    ensures LeavesWell(o, m, ProtReject)
  {
    AddsCounts(m, OnProtReject(o, m), if m.state.Opened? then Down else Finish, TermReq, NextId(m.id), true, m.state.Opened?);
    hide Count, SentAfter, Length;
  }

  lemma TimeoutLeaves(o: Options, m: Fsm)
    requires Leaving(m) && m.timer
    ensures LeavesWell(o, m, Timeout)
  {
    AddsCounts(m, OnTimeout(o, m), Finish, TermReq, NextId(m.id), m.retransmits <= 0, m.retransmits > 0);
    hide Count, SentAfter, Length;
  }

  lemma RequestLeaves(o: Options, m: Fsm, id: Id)
    requires Leaving(m)
    ensures LeavesWell(o, m, RcvTermReq(id))
  {
    AddsCounts(m, OnTermReq(m, id), Down, TermAck, id, m.state.Opened?, true);
    hide Count, SentAfter, Length;
  }

  lemma AckLeaves(o: Options, m: Fsm)
    requires Leaving(m) && !m.state.Opened?
    ensures LeavesWell(o, m, RcvTermAck)
  {
    AddsCounts(m, OnTermAck(o, m), Finish, TermReq, 0, IsEnding(m.state), false);
    hide Count, SentAfter, Length;
  }

  lemma EventLeaves(o: Options, m: Fsm, e: Event)
    requires Leaving(m) && MayHappen(m, e)
    ensures LeavesWell(o, m, e)
  {
    hide Leaving, LeavesWell;
    match e
    case Close => CloseLeaves(o, m);
    case ProtReject => RejectLeaves(o, m);
    case Timeout => TimeoutLeaves(o, m);
    case RcvTermReq(id) => RequestLeaves(o, m, id);
    case RcvTermAck => AckLeaves(o, m);
  }

  // ----- the link -----

  /** Terminate-Requests and Terminate-Acks among some messages. */
  function Requests(q: seq<Msg>): nat { if q == [] then 0 else (if q[0].code.TermReq? then 1 else 0) + Requests(q[1..]) }

  function Acks(q: seq<Msg>): nat { if q == [] then 0 else (if q[0].code.TermAck? then 1 else 0) + Acks(q[1..]) }

  predicate OnlyTerm(q: seq<Msg>) { forall x | x in q :: x.code.TermReq? || x.code.TermAck? }

  lemma {:induction false} TermJoin(a: seq<Msg>, b: seq<Msg>)
    ensures Requests(a + b) == Requests(a) + Requests(b) && Acks(a + b) == Acks(a) + Acks(b)
    decreases |a|
  {
    if a == [] {
      assert a + b == b;
    } else {
      assert (a + b)[1..] == a[1..] + b;
      TermJoin(a[1..], b);
    }
  }

  lemma TermWithout(q: seq<Msg>, k: nat)
    requires k < |q| && OnlyTerm(q)
    ensures var r := Without(q, k);
            && OnlyTerm(r) && Requests(r) == Requests(q) - (if q[k].code.TermReq? then 1 else 0)
            && Acks(r) == Acks(q) - (if q[k].code.TermAck? then 1 else 0)
  {
    TermOne(q[k]);
    OnlyTermWithout(q, k);
    hide Requests, Acks, OnlyTerm;
    assert q == q[..k] + ([q[k]] + q[k + 1..]);
    TermJoin(q[..k], [q[k]] + q[k + 1..]);
    TermJoin([q[k]], q[k + 1..]);
    TermJoin(q[..k], q[k + 1..]);
  }

  lemma TermOne(x: Msg)
    ensures Requests([x]) == (if x.code.TermReq? then 1 else 0) && Acks([x]) == (if x.code.TermAck? then 1 else 0)
  {
    assert [x][1..] == [];
  }

  lemma OnlyTermWithout(q: seq<Msg>, k: nat)
    requires k < |q| && OnlyTerm(q)
    ensures OnlyTerm(Without(q, k))
  {
    forall x | x in Without(q, k) ensures x in q {}
  }

  /** Every Terminate-Request sent to an end is on its way there or has been answered, and every answer was sent. */
  predicate Accounted(sender: Half, answerer: Half)
  {
    && OnlyTerm(answerer.inbox)
    && Count(sender.m.trace, ATermReq) == Requests(answerer.inbox) + Count(answerer.m.trace, ATermAck)
    && Acks(sender.inbox) <= Count(answerer.m.trace, ATermAck)
  }

  predicate Together(me: Half, peer: Half) { Leaving(me.m) && Leaving(peer.m) && Accounted(me, peer) && Accounted(peer, me) }

  predicate Ending(h: Half, v: Move)
  {
    && Possible(h, v)
    && match v
       case Happens(_, e) => Closes(e) || (e.Timeout? && h.m.timer)
       case Arrives(_, _, _, _, _) => true
  }

  function Power(h: Half): nat { Strength(h.o, h.m) + 2 * Requests(h.inbox) + Acks(h.inbox) }

  function Cost(v: Move): nat { if v.Arrives? || v.e.Timeout? then 1 else 0 }

  lemma AckNotWhileOpen(me: Half, peer: Half, k: nat)
    requires Together(me, peer) && k < |me.inbox| && me.inbox[k].code.TermAck?
    ensures !me.m.state.Opened?
  {
    TermWithout(me.inbox, k);
  }

  lemma ActTogether(me: Half, peer: Half, v: Move)
    requires Together(me, peer) && Ending(me, v)
    ensures var (h, out) := Act(me, v);
            && Together(h, peer.(inbox := peer.inbox + out))
            && Power(h) + Power(peer.(inbox := peer.inbox + out)) + Cost(v) <= Power(me) + Power(peer)
            && (!me.m.state.Opened? || (v.Happens? && Closes(v.e)) ==> !h.m.state.Opened?)
  {
    hide Step, SentAfter, Length, Leaving, Count, Strength, Without;
    if v.Arrives? {
      TermWithout(me.inbox, v.k);
      assert me.inbox[v.k] in me.inbox;
      if me.inbox[v.k].code.TermAck? { AckNotWhileOpen(me, peer, v.k); }
    }
    EventLeaves(me.o, me.m, EventOf(me, v));
    var out := Act(me, v).1;
    TermJoin(peer.inbox, out);
  }

  // ----- runs that close -----

  ghost predicate ClosingRun(n: Net, vs: seq<Move>)
    decreases |vs|
  {
    vs == [] || (Ending(HalfAt(n, vs[0].at), vs[0]) && ClosingRun(Moved(n, vs[0]), vs[1..]))
  }

  ghost function Closed(n: Net, vs: seq<Move>): Net
    requires ClosingRun(n, vs)
    decreases |vs|
  {
    if vs == [] then n else Closed(Moved(n, vs[0]), vs[1..])
  }

  function Costs(vs: seq<Move>): nat { if vs == [] then 0 else Cost(vs[0]) + Costs(vs[1..]) }

  predicate SomeoneCloses(vs: seq<Move>) { exists v :: v in vs && v.Happens? && Closes(v.e) }

  predicate NetTogether(n: Net) { Together(n.a, n.b) }

  predicate BothOpened(n: Net) { n.a.m.state.Opened? && n.b.m.state.Opened? }

  lemma EndingPossible(h: Half, v: Move)
    requires Ending(h, v)
    ensures Possible(h, v)
  {}

  lemma MovedTogether(n: Net, v: Move)
    requires NetTogether(n) && Ending(HalfAt(n, v.at), v)
    ensures Possible(HalfAt(n, v.at), v)
    ensures var m := Moved(n, v);
            && NetTogether(m) && Power(m.a) + Power(m.b) + Cost(v) <= Power(n.a) + Power(n.b)
            && (BothOpened(m) ==> BothOpened(n) && !(v.Happens? && Closes(v.e)))
  {
    hide Act, Together, Power, Ending, Possible;
    EndingPossible(HalfAt(n, v.at), v);
    if v.at.A? {
      ActTogether(n.a, n.b, v);
    } else {
      TogetherOther(n.a, n.b);
      ActTogether(n.b, n.a, v);
      TogetherOther(Moved(n, v).b, Moved(n, v).a);
    }
  }

  lemma TogetherOther(me: Half, peer: Half)
    requires Together(me, peer)
    ensures Together(peer, me)
  {}

  lemma {:induction false} RunTogether(n: Net, vs: seq<Move>)
    requires NetTogether(n) && ClosingRun(n, vs)
    ensures var m := Closed(n, vs);
            && NetTogether(m) && Power(m.a) + Power(m.b) + Costs(vs) <= Power(n.a) + Power(n.b)
            && (BothOpened(m) ==> BothOpened(n) && !SomeoneCloses(vs))
    decreases |vs|
  {
    hide NetTogether, Moved, Power, Ending, BothOpened, Possible;
    if vs != [] {
      EndingPossible(HalfAt(n, vs[0].at), vs[0]);
      MovedTogether(n, vs[0]);
      RunTogether(Moved(n, vs[0]), vs[1..]);
      assert vs == [vs[0]] + vs[1..];
    }
  }

  /** No timer runs and no message is on the way. */
  ghost predicate AtRest(n: Net) { forall v: Move | Cost(v) > 0 :: !Ending(HalfAt(n, v.at), v) }

  lemma AtRestIs(n: Net)
    requires AtRest(n)
    ensures n.a.inbox == n.b.inbox == [] && !n.a.m.timer && !n.b.m.timer
  {
    HalfAtRest(n, A);
    HalfAtRest(n, B);
  }

  lemma HalfAtRest(n: Net, x: End)
    requires AtRest(n)
    ensures HalfAt(n, x).inbox == [] && !HalfAt(n, x).m.timer
  {
    var h := HalfAt(n, x);
    var t, r := Happens(x, Timeout), Arrives(x, 0, ConfAck, ConfAck, 1);
    assert Cost(t) == 1 && Cost(r) == 1;
    assert !Ending(HalfAt(n, t.at), t) && !Ending(HalfAt(n, r.at), r);
  }

  /** Down: taken down once, the lower layer told so, no timer. */
  predicate IsDown(m: Fsm)
  {
    IsEnded(m.state) && !m.timer && Count(m.trace, AnUp) == 1 && Count(m.trace, ADown) == 1 && Count(m.trace, AFinish) > 0
  }

  function MostSteps(o: Options): nat { 3 * AtLeast0(o.maxTerm - 1) + 3 }

  /** Two open ends, over a link that loses nothing: whatever is closed, rejected or timed out and whenever, the number of
      timeouts and arrivals is bounded, and once no timer runs and no message is on the way either both ends are still
      open and nobody has closed, or both are down, each taken down once, and every Terminate-Request has been answered. */
  lemma Ends(n: Net, vs: seq<Move>)
    requires IsOpened(n.a.m) && IsOpened(n.b.m) && n.a.inbox == n.b.inbox == [] && ClosingRun(n, vs)
    ensures Costs(vs) <= MostSteps(n.a.o) + MostSteps(n.b.o)
    ensures var m := Closed(n, vs);
            AtRest(m) ==>
              && (if BothOpened(m) then !SomeoneCloses(vs) else IsDown(m.a.m) && IsDown(m.b.m))
              && Count(m.a.m.trace, ATermReq) == Count(m.b.m.trace, ATermAck)
              && Count(m.b.m.trace, ATermReq) == Count(m.a.m.trace, ATermAck)
  {
    OpenedTogether(n);
    hide ClosingRun, Closed, AtRest, NetTogether, SomeoneCloses, BothOpened, Power;
    RunTogether(n, vs);
    var m := Closed(n, vs);
    if AtRest(m) {
      AtRestIs(m);
      RestingTogether(m);
    }
  }

  lemma OpenedTogether(n: Net)
    requires IsOpened(n.a.m) && IsOpened(n.b.m) && n.a.inbox == n.b.inbox == []
    ensures NetTogether(n) && Power(n.a) + Power(n.b) == MostSteps(n.a.o) + MostSteps(n.b.o)
  {}

  lemma RestingTogether(n: Net)
    requires NetTogether(n) && n.a.inbox == n.b.inbox == [] && !n.a.m.timer && !n.b.m.timer
    ensures BothOpened(n) || (IsDown(n.a.m) && IsDown(n.b.m))
    ensures Count(n.a.m.trace, ATermReq) == Count(n.b.m.trace, ATermAck)
    ensures Count(n.b.m.trace, ATermReq) == Count(n.a.m.trace, ATermAck)
  {
    hide Count;
  }
}
