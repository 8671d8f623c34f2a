/** PPP framing: the octets a packet is sent as, and the receiver that takes them apart again. */
module PppFrame {
  import opened PppFcsTable
  import opened PppFcs

  const ALL_STATIONS: Octet := 0xff
  const UI: Octet := 0x03
  const FLAG: Octet := 0x7e
  const ESCAPE: Octet := 0x7d

  // ----- character maps -----

  /** An extended character map: 32 octets, one bit for each character. */
  type Accm = a: seq<bv8> | |a| == 32
    witness [0, 0, 0, 0, 0, 0, 0, 0, 0, 0, 0, 0, 0, 0, 0, 0, 0, 0, 0, 0, 0, 0, 0, 0, 0, 0, 0, 0, 0, 0, 0, 0]

  /** The map pppOpen sets: 0x7d and 0x7e only. */
  const DEFAULT_MAP: Accm :=
    [0, 0, 0, 0, 0, 0, 0, 0, 0, 0, 0, 0, 0, 0, 0, 0x60, 0, 0, 0, 0, 0, 0, 0, 0, 0, 0, 0, 0, 0, 0, 0, 0]

  function Mask(k: bv8): bv8
  {
    if k == 0 then 0x01 else if k == 1 then 0x02 else if k == 2 then 0x04 else if k == 3 then 0x08
    else if k == 4 then 0x10 else if k == 5 then 0x20 else if k == 6 then 0x40 else 0x80
  }

  /** ESCAPE_P. */
  predicate Escaped(accm: Accm, c: Octet)
  {
    assert c >> 3 <= 31;
    accm[(c >> 3) as int] & Mask(c & 7) != 0
  }

  function Trans(c: Octet): Octet { c ^ 0x20 }

  /** The low four octets set from an asyncmap, as ppp_send_config and ppp_recv_config do. */
  function Configure(accm: Accm, asyncmap: bv32): Accm
  {
    [(asyncmap & 0xff) as bv8, ((asyncmap >> 8) & 0xff) as bv8, ((asyncmap >> 16) & 0xff) as bv8, ((asyncmap >> 24) & 0xff) as bv8]
    + accm[4..]
  }

  /** Octet i of a configured default map. */
  function ConfiguredOctet(asyncmap: bv32, i: bv8): bv8
  {
    if i == 0 then (asyncmap & 0xff) as bv8 else if i == 1 then ((asyncmap >> 8) & 0xff) as bv8
    else if i == 2 then ((asyncmap >> 16) & 0xff) as bv8 else if i == 3 then ((asyncmap >> 24) & 0xff) as bv8
    else if i == 15 then 0x60 else 0
  }

  lemma OctetOf(asyncmap: bv32, i: bv8)
    requires i <= 31
    ensures i as int < 32 && Configure(DEFAULT_MAP, asyncmap)[i as int] == ConfiguredOctet(asyncmap, i)
  {
    hide *;
    var a := Configure(DEFAULT_MAP, asyncmap);
    ConfigureIs(asyncmap);
    OctetCase(a, i, ConfiguredOctet(asyncmap, 0), ConfiguredOctet(asyncmap, 1), ConfiguredOctet(asyncmap, 2), ConfiguredOctet(asyncmap, 3));
    OctetChoice(asyncmap, i);
  }

  lemma ConfigureIs(asyncmap: bv32)
    ensures var a := Configure(DEFAULT_MAP, asyncmap);
            && |a| == 32 && a[0] == ConfiguredOctet(asyncmap, 0) && a[1] == ConfiguredOctet(asyncmap, 1)
            && a[2] == ConfiguredOctet(asyncmap, 2) && a[3] == ConfiguredOctet(asyncmap, 3)
            && forall k | 4 <= k < 32 :: a[k] == if k == 15 then 0x60 else 0
  {}

  lemma OctetChoice(asyncmap: bv32, i: bv8)
    ensures ConfiguredOctet(asyncmap, i)
            == if i == 0 then ConfiguredOctet(asyncmap, 0) else if i == 1 then ConfiguredOctet(asyncmap, 1)
               else if i == 2 then ConfiguredOctet(asyncmap, 2) else if i == 3 then ConfiguredOctet(asyncmap, 3)
               else if i == 15 then 0x60 else 0
  {}

  lemma OctetCase(a: seq<bv8>, i: bv8, a0: bv8, a1: bv8, a2: bv8, a3: bv8)
    requires i <= 31 && |a| == 32 && a[0] == a0 && a[1] == a1 && a[2] == a2 && a[3] == a3
    requires forall k | 4 <= k < 32 :: a[k] == if k == 15 then 0x60 else 0
    ensures i as int < 32
    ensures a[i as int] == if i == 0 then a0 else if i == 1 then a1 else if i == 2 then a2 else if i == 3 then a3 else if i == 15 then 0x60 else 0
  {
    assert i as int < 32;
    if i == 0 {} else if i == 1 {} else if i == 2 {} else if i == 3 {} else if i == 15 {} else {
      assert 4 <= i as int && i as int != 15;
    }
  }

  /** Bit c % 8 of octet c / 8. */
  lemma OctetBit(asyncmap: bv32, c: Octet)
    ensures ConfiguredOctet(asyncmap, c >> 3) & Mask(c & 7) != 0
            <==> if c < 32 then (asyncmap >> (c as bv32)) & 1 == 1 else c == ESCAPE || c == FLAG
  {}

  /** A configured map has the control characters of the asyncmap, the escape and the flag, and nothing else. */
  lemma ConfiguredMap(asyncmap: bv32, c: Octet)
    ensures Escaped(Configure(DEFAULT_MAP, asyncmap), c)
            <==> if c < 32 then (asyncmap >> (c as bv32)) & 1 == 1 else c == ESCAPE || c == FLAG
  {
    hide Configure, ConfiguredOctet, Mask;
    assert c >> 3 <= 31;
    OctetOf(asyncmap, c >> 3);
    OctetBit(asyncmap, c);
  }

  /** What a sender's map must be for a receiver's: it escapes all the receiver drops, and nothing it escapes turns
      into a character the receiver treats specially. */
  ghost predicate Compatible(out: Accm, inMap: Accm)
  {
    && Escaped(inMap, ESCAPE) && Escaped(inMap, FLAG)
    && forall c :: (Escaped(inMap, c) ==> Escaped(out, c)) && (Escaped(out, c) ==> !Escaped(inMap, Trans(c)))
  }

  /** Two configured maps fit together whenever the sender's asyncmap covers the receiver's. */
  lemma ConfiguredCompatible(sent: bv32, received: bv32)
    requires sent & received == received
    ensures Compatible(Configure(DEFAULT_MAP, sent), Configure(DEFAULT_MAP, received))
  {
    var out, inMap := Configure(DEFAULT_MAP, sent), Configure(DEFAULT_MAP, received);
    hide Escaped, Configure, Trans;
    forall c: Octet ensures (Escaped(inMap, c) ==> Escaped(out, c)) && (Escaped(out, c) ==> !Escaped(inMap, Trans(c))) {
      ConfiguredMap(sent, c);
      ConfiguredMap(received, c);
      ConfiguredMap(received, Trans(c));
      BitCovered(sent, received, c, Trans(c));
    }
    ConfiguredMap(received, ESCAPE);
    ConfiguredMap(received, FLAG);
  }

  lemma BitCovered(sent: bv32, received: bv32, c: Octet, d: Octet)
    requires sent & received == received && d == Trans(c)
    ensures c < 32 && (received >> (c as bv32)) & 1 == 1 ==> (sent >> (c as bv32)) & 1 == 1
    ensures c < 32 || c == ESCAPE || c == FLAG ==> 32 <= d && d != ESCAPE && d != FLAG
  {}

  // ----- the sender -----

  /** pppAppend with a map: one character, escaped if its bit is set. */
  function Stuffed(out: Accm, c: Octet): seq<Octet> { if Escaped(out, c) then [ESCAPE, Trans(c)] else [c] }

  function Stuff(out: Accm, cs: seq<Octet>): seq<Octet>
  {
    if cs == [] then [] else Stuffed(out, cs[0]) + Stuff(out, cs[1..])
  }

  function Checked(body: seq<Octet>): seq<Octet> { body + Check(FcsOf(INIT_FCS, body)) }

  /** What pppWrite sends for a packet with its header. */
  function Frame(out: Accm, body: seq<Octet>): seq<Octet> { [FLAG] + Stuff(out, Checked(body)) + [FLAG] }

  // ----- the receiver -----

  datatype Phase = Idle | Start | Address | Control | Protocol1 | Protocol2 | Data

  /** `open`: a packet buffer chain has been started; `data` holds the octets after the protocol field. */
  datatype Receiver = Receiver(phase: Phase, fcs: Fcs, protocol: bv16, escaped: bool, open: bool, data: seq<Octet>)

  /** `Fault` stands for a frame with a good check and fewer than two octets after its protocol field: there the code
      takes the check off a chain that does not hold it. */
  datatype Event = Deliver(protocol: bv16, payload: seq<Octet>) | Drop | Fault

  const PBUF_POOL_BUFSIZE := 128
  const INPUT_HEADER := 8

  /** pppOpen. */
  function Opened(): Receiver { Receiver(Idle, 0, 0, false, false, []) }

  function Fresh(r: Receiver): Receiver { Receiver(Address, INIT_FCS, r.protocol, false, false, []) }

  predicate Valid(r: Receiver) { (r.open ==> r.phase == Data) && (!r.open ==> r.data == []) }

  /** What a flag makes of the octets before it. */
  function AtFlag(r: Receiver): seq<Event>
  {
    match r.phase
    case Idle => []
    case Start => []
    case Address => []
    case Control => [Drop]
    case Protocol1 => [Drop]
    case Protocol2 => [Drop]
    case Data =>
      if r.fcs != GOOD_FCS then [Drop] else if |r.data| < 2 then [Fault] else [Deliver(r.protocol, r.data[..|r.data| - 2])]
  }

  /** Whether the next data octet needs a new buffer: the first one also holds a header. */
  predicate NeedsBuffer(r: Receiver) { !r.open || (INPUT_HEADER + |r.data|) % PBUF_POOL_BUFSIZE == 0 }

  function Odd(c: Octet): bool { c & 1 == 1 }

  function FirstOctet(c: Octet): bv16 { (c as bv16) << 8 }

  function WithSecond(p: bv16, c: Octet): bv16 { p | (c as bv16) }

  /** Protocol field, first octet. */
  function AtProtocol(r: Receiver, c: Octet): Receiver
  {
    if Odd(c) then r.(protocol := c as bv16, phase := Data) else r.(protocol := FirstOctet(c), phase := Protocol2)
  }

  function AtControl(r: Receiver, c: Octet): Receiver { if c == UI then r.(phase := Protocol1) else AtProtocol(r, c) }

  function AtAddress(r: Receiver, c: Octet): Receiver { if c == ALL_STATIONS then r.(phase := Control) else AtControl(r, c) }

  /** One octet that is not special; `ok` says whether a buffer can be had. */
  function Plain(r: Receiver, c: Octet, ok: bool): (Receiver, seq<Event>)
  {
    var (t, events) :=
      match r.phase
      case Idle => (if c != ALL_STATIONS then r else AtAddress(r.(fcs := INIT_FCS), c), [])
      case Start => (AtAddress(r.(fcs := INIT_FCS), c), [])
      case Address => (AtAddress(r, c), [])
      case Control => (AtControl(r, c), [])
      case Protocol1 => (AtProtocol(r, c), [])
      case Protocol2 => (r.(protocol := WithSecond(r.protocol, c), phase := Data), [])
      case Data =>
        if NeedsBuffer(r) && !ok then (r.(phase := Start, open := false, data := []), [Drop])
        else (r.(open := true, data := r.data + [c]), []);
    (t.(fcs := FcsStep(t.fcs, c)), events)
  }

  /** One octet from the line. */
  function Receive(inMap: Accm, r: Receiver, c: Octet, ok: bool): (Receiver, seq<Event>)
  {
    if Escaped(inMap, c) then
      if c == ESCAPE then (r.(escaped := true), [])
      else if c == FLAG then (Fresh(r), AtFlag(r))
      else (r, [])
    else Plain(r.(escaped := false), if r.escaped then Trans(c) else c, ok)
  }

  function Feed(inMap: Accm, r: Receiver, cs: seq<Octet>, ok: seq<bool>): (Receiver, seq<Event>)
    requires |ok| == |cs|
    decreases |cs|
  {
    if cs == [] then (r, [])
    else
      var (t, first) := Receive(inMap, r, cs[0], ok[0]);
      var (u, rest) := Feed(inMap, t, cs[1..], ok[1..]);
      (u, first + rest)
  }

  lemma PlainValid(r: Receiver, c: Octet, ok: bool)
    requires Valid(r)
    ensures Valid(Plain(r, c, ok).0)
  {
    hide FcsStep, Odd, FirstOctet, WithSecond, NeedsBuffer;
  }

  lemma ReceiveValid(inMap: Accm, r: Receiver, c: Octet, ok: bool)
    requires Valid(r)
    ensures Valid(Receive(inMap, r, c, ok).0)
  {
    hide Escaped, Plain, Trans;
    PlainValid(r.(escaped := false), if r.escaped then Trans(c) else c, ok);
  }

  /** However the line is cut into reads, the receiver does the same. */
  lemma {:induction false} FeedJoin(inMap: Accm, r: Receiver, a: seq<Octet>, b: seq<Octet>, okA: seq<bool>, okB: seq<bool>)
    requires |okA| == |a| && |okB| == |b|
    ensures var (t, first) := Feed(inMap, r, a, okA);
            var (u, rest) := Feed(inMap, t, b, okB);
            Feed(inMap, r, a + b, okA + okB) == (u, first + rest)
    decreases |a|
  {
    hide Receive;
    if a == [] {
      assert a + b == b && okA + okB == okB;
      var (u, rest) := Feed(inMap, r, b, okB);
      assert [] + rest == rest;
    } else {
      assert (a + b)[1..] == a[1..] + b && (okA + okB)[1..] == okA[1..] + okB;
      var (t, first) := Receive(inMap, r, a[0], okA[0]);
      FeedJoin(inMap, t, a[1..], b, okA[1..], okB);
      var (u, middle) := Feed(inMap, t, a[1..], okA[1..]);
      var (v, rest) := Feed(inMap, u, b, okB);
      assert first + (middle + rest) == (first + middle) + rest;
    }
  }

  ghost predicate AllOk(ok: seq<bool>) { forall k | 0 <= k < |ok| :: ok[k] }

  // ----- round trip -----

  /** The octets of a packet after the characters have been unescaped, buffers being there. */
  function Take(r: Receiver, cs: seq<Octet>): Receiver
    decreases |cs|
  {
    if cs == [] then r else Take(Plain(r, cs[0], true).0, cs[1..])
  }

  lemma TransTwice(c: Octet)
    ensures Trans(Trans(c)) == c
  {}

  /** One stuffed octet is taken as that octet. */
  lemma StuffedTaken(out: Accm, inMap: Accm, r: Receiver, c: Octet, ok: seq<bool>)
    requires Compatible(out, inMap) && !r.escaped && |ok| == |Stuffed(out, c)| && AllOk(ok)
    ensures Feed(inMap, r, Stuffed(out, c), ok) == Plain(r, c, true)
  {
    TransTwice(c);
    hide Escaped, Trans, Plain;
    assert r.(escaped := false) == r && r.(escaped := true).(escaped := false) == r;
    if Escaped(out, c) {
      var t := r.(escaped := true);
      assert Receive(inMap, r, ESCAPE, ok[0]) == (t, []);
      assert Receive(inMap, t, Trans(c), ok[1]) == Plain(r, c, true);
      assert [ESCAPE, Trans(c)][1..] == [Trans(c)] && ok[1..][0] == ok[1];
      FeedOne(inMap, t, Trans(c), ok[1..]);
      assert [] + Plain(r, c, true).1 == Plain(r, c, true).1;
    } else {
      FeedOne(inMap, r, c, ok);
    }
  }

  lemma FeedOne(inMap: Accm, r: Receiver, c: Octet, ok: seq<bool>)
    requires |ok| == 1
    ensures Feed(inMap, r, [c], ok) == Receive(inMap, r, c, ok[0])
  {
    hide Receive;
    var (t, first) := Receive(inMap, r, c, ok[0]);
    assert Feed(inMap, t, [], []) == (t, []) && first + [] == first;
    assert [c][1..] == [] && ok[1..] == [];
  }

  predicate Running(r: Receiver) { !r.phase.Idle? && !r.phase.Start? }

  lemma PlainRunning(r: Receiver, c: Octet)
    requires Running(r)
    ensures var (t, events) := Plain(r, c, true);
            Running(t) && events == [] && t.fcs == FcsStep(r.fcs, c) && t.escaped == r.escaped
  {
    hide FcsStep, Odd, FirstOctet, WithSecond;
  }

  lemma {:induction false} TakeRunning(r: Receiver, cs: seq<Octet>)
    requires Running(r)
    ensures var t := Take(r, cs);
            Running(t) && t.fcs == FcsOf(r.fcs, cs) && t.escaped == r.escaped
    decreases |cs|
  {
    hide Plain, FcsStep;
    if cs != [] {
      PlainRunning(r, cs[0]);
      TakeRunning(Plain(r, cs[0], true).0, cs[1..]);
    }
  }

  lemma {:induction false} TakeJoin(r: Receiver, a: seq<Octet>, b: seq<Octet>)
    ensures Take(r, a + b) == Take(Take(r, a), b)
    decreases |a|
  {
    hide Plain;
    if a == [] {
      assert a + b == b;
    } else {
      assert (a + b)[1..] == a[1..] + b;
      TakeJoin(Plain(r, a[0], true).0, a[1..], b);
    }
  }

  lemma {:induction false} TakeData(r: Receiver, cs: seq<Octet>)
    requires r.phase == Data
    ensures Take(r, cs) == r.(fcs := FcsOf(r.fcs, cs), open := r.open || cs != [], data := r.data + cs)
    decreases |cs|
  {
    hide FcsStep, NeedsBuffer, Odd, FirstOctet, WithSecond;
    if cs == [] {
      assert r.data + cs == r.data;
    } else {
      var t := Plain(r, cs[0], true).0;
      assert t == r.(fcs := FcsStep(r.fcs, cs[0]), open := true, data := r.data + [cs[0]]);
      TakeData(t, cs[1..]);
      assert r.data + [cs[0]] + cs[1..] == r.data + cs;
    }
  }

  /** A stuffed packet is taken as the packet, and nothing is reported on the way. */
  lemma {:induction false} StuffTaken(out: Accm, inMap: Accm, r: Receiver, cs: seq<Octet>, ok: seq<bool>)
    requires Compatible(out, inMap) && !r.escaped && Running(r) && |ok| == |Stuff(out, cs)| && AllOk(ok)
    ensures Feed(inMap, r, Stuff(out, cs), ok) == (Take(r, cs), [])
    decreases |cs|
  {
    hide Plain, Compatible, Running, Stuffed;
    if cs != [] {
      var n := |Stuffed(out, cs[0])|;
      assert ok == ok[..n] + ok[n..];
      PlainRunning(r, cs[0]);
      StuffedTaken(out, inMap, r, cs[0], ok[..n]);
      StuffTaken(out, inMap, Plain(r, cs[0], true).0, cs[1..], ok[n..]);
      hide Feed;
      FeedJoin(inMap, r, Stuffed(out, cs[0]), Stuff(out, cs[1..]), ok[..n], ok[n..]);
    }
  }

  /** A whole frame: the flag ends what came before, the packet is taken, and the closing flag judges it. */
  lemma Framed(out: Accm, inMap: Accm, r: Receiver, cs: seq<Octet>, ok: seq<bool>)
    requires Compatible(out, inMap) && |ok| == |Stuff(out, cs)| + 2 && AllOk(ok)
    ensures var t := Take(Fresh(r), cs);
            Feed(inMap, r, [FLAG] + Stuff(out, cs) + [FLAG], ok) == (Fresh(t), AtFlag(r) + AtFlag(t))
  {
    var n := |ok| - 1;
    var t := Take(Fresh(r), cs);
    assert Escaped(inMap, FLAG);
    assert ok == ok[..1] + ok[1..n] + ok[n..];
    hide AtFlag, Take, Feed, Compatible, Stuff, Escaped, Fresh, Plain;
    assert Running(Fresh(r)) && !Fresh(r).escaped by { FreshRunning(r); }
    FlagTaken(inMap, r, ok[..1]);
    StuffTaken(out, inMap, Fresh(r), cs, ok[1..n]);
    FlagTaken(inMap, t, ok[n..]);
    FeedJoin(inMap, r, [FLAG], Stuff(out, cs), ok[..1], ok[1..n]);
    FeedJoin(inMap, r, [FLAG] + Stuff(out, cs), [FLAG], ok[..1] + ok[1..n], ok[n..]);
    assert AtFlag(r) + [] == AtFlag(r);
  }

  lemma FreshRunning(r: Receiver)
    ensures Running(Fresh(r)) && !Fresh(r).escaped && AtFlag(Fresh(r)) == []
  {}

  lemma FlagTaken(inMap: Accm, r: Receiver, ok: seq<bool>)
    requires Escaped(inMap, FLAG) && |ok| == 1
    ensures Feed(inMap, r, [FLAG], ok) == (Fresh(r), AtFlag(r))
  {
    hide Plain, AtFlag, Escaped;
    FeedOne(inMap, r, FLAG, ok);
  }

  // ----- the header -----

  function SkipAddress(cs: seq<Octet>): seq<Octet> { if cs != [] && cs[0] == ALL_STATIONS then cs[1..] else cs }

  function SkipControl(cs: seq<Octet>): seq<Octet> { if cs != [] && cs[0] == UI then cs[1..] else cs }

  /** A packet from its protocol field on. */
  function FromProtocol(cs: seq<Octet>): seq<Octet> { SkipControl(SkipAddress(cs)) }

  predicate HasProtocol(cs: seq<Octet>) { cs != [] && (Odd(cs[0]) || |cs| >= 2) }

  function Protocol(cs: seq<Octet>): bv16
    requires HasProtocol(cs)
  {
    if Odd(cs[0]) then cs[0] as bv16 else WithSecond(FirstOctet(cs[0]), cs[1])
  }

  function Information(cs: seq<Octet>): seq<Octet>
    requires HasProtocol(cs)
  {
    if Odd(cs[0]) then cs[1..] else cs[2..]
  }

  /** The protocol field and the octets after it. */
  lemma ProtocolTaken(r: Receiver, cs: seq<Octet>)
    requires r.phase == Protocol1 && HasProtocol(cs)
    ensures var t := Take(r, cs);
            t.phase == Data && t.protocol == Protocol(cs) && t.data == r.data + Information(cs)
  {
    hide FcsStep, Odd, FirstOctet, WithSecond, NeedsBuffer;
    var t := Plain(r, cs[0], true).0;
    if Odd(cs[0]) {
      TakeData(t, cs[1..]);
    } else {
      var u := Plain(t, cs[1], true).0;
      assert cs[1..][1..] == cs[2..] && cs[1..][0] == cs[1];
      assert Take(r, cs) == Take(u, cs[2..]);
      TakeData(u, cs[2..]);
    }
  }

  /** The phases before the protocol field differ only in what they may skip. */
  lemma HeaderTaken(r: Receiver, cs: seq<Octet>)
    requires r.phase == Address && HasProtocol(FromProtocol(cs))
    ensures var t := Take(r, cs);
            var body := FromProtocol(cs);
            t.phase == Data && t.protocol == Protocol(body) && t.data == r.data + Information(body)
  {
    hide FcsStep, Protocol, Information, HasProtocol, AtProtocol;
    if cs != [] && cs[0] == ALL_STATIONS {
      ControlTaken(Plain(r, cs[0], true).0, cs[1..]);
    } else {
      PhaseSkipped(r, cs);
      ControlTaken(r.(phase := Control), cs);
    }
  }

  lemma PhaseSkipped(r: Receiver, cs: seq<Octet>)
    requires cs != [] ==> (r.phase == Address && cs[0] != ALL_STATIONS) || (r.phase == Control && cs[0] != UI)
    requires r.phase == Address || r.phase == Control
    ensures cs != [] ==> Take(r, cs) == Take(r.(phase := if r.phase == Address then Control else Protocol1), cs)
  {
    hide FcsStep, AtProtocol;
    if cs != [] {
      var s := r.(phase := if r.phase == Address then Control else Protocol1);
      assert Plain(r, cs[0], true) == Plain(s, cs[0], true) by { ProtocolIgnoresPhase(r, s, cs[0]); }
    }
  }

  lemma ProtocolIgnoresPhase(r: Receiver, s: Receiver, c: Octet)
    requires s == r.(phase := s.phase)
    ensures AtProtocol(r, c) == AtProtocol(s, c)
  {}

  lemma ControlTaken(r: Receiver, cs: seq<Octet>)
    requires r.phase == Control && HasProtocol(SkipControl(cs))
    ensures var t := Take(r, cs);
            var body := SkipControl(cs);
            t.phase == Data && t.protocol == Protocol(body) && t.data == r.data + Information(body)
  {
    hide FcsStep, Protocol, Information, AtProtocol;
    if cs[0] == UI {
      ProtocolTaken(Plain(r, cs[0], true).0, cs[1..]);
    } else {
      PhaseSkipped(r, cs);
      ProtocolTaken(r.(phase := Protocol1), cs);
    }
  }

  // ----- what a receiver makes of a frame -----

  /** The receiver after a packet and its check. */
  lemma CheckedTaken(r: Receiver, body: seq<Octet>)
    requires HasProtocol(FromProtocol(body))
    ensures var t := Take(Fresh(r), Checked(body));
            AtFlag(t) == [Deliver(Protocol(FromProtocol(body)), Information(FromProtocol(body)))]
  {
    var check := Check(FcsOf(INIT_FCS, body));
    var t := Take(Fresh(r), body);
    TakeJoin(Fresh(r), body, check);
    assert Fresh(r).phase == Address && Fresh(r).data == [] && Fresh(r).fcs == INIT_FCS;
    HeaderTaken(Fresh(r), body);
    TakeRunning(Fresh(r), body);
    CheckGood(body);
    hide Take, HasProtocol, Protocol, Information, FromProtocol, FcsOf, Check, Fresh;
    TakeData(t, check);
    assert t.data == Information(FromProtocol(body));
    assert |check| == 2 by { CheckLength(FcsOf(INIT_FCS, body)); }
    assert (t.data + check)[..|t.data + check| - 2] == t.data;
  }

  lemma CheckLength(f: Fcs)
    ensures |Check(f)| == 2
  {}

  lemma CheckGood(body: seq<Octet>)
    ensures FcsOf(FcsOf(INIT_FCS, body), Check(FcsOf(INIT_FCS, body))) == GOOD_FCS
  {
    hide FcsOf, Low, High;
    ResidueAt(FcsOf(INIT_FCS, body));
  }

  /** From any state of the receiver, a frame delivers the packet it was made from, after whatever the flag makes of
      the octets before it. */
  lemma FrameReceived(out: Accm, inMap: Accm, r: Receiver, body: seq<Octet>, ok: seq<bool>)
    requires Compatible(out, inMap) && HasProtocol(FromProtocol(body)) && |ok| == |Frame(out, body)| && AllOk(ok)
    ensures var (t, events) := Feed(inMap, r, Frame(out, body), ok);
            && t == Fresh(t)
            && events == AtFlag(r) + [Deliver(Protocol(FromProtocol(body)), Information(FromProtocol(body)))]
  {
    CheckedTaken(r, body);
    var u := Take(Fresh(r), Checked(body));
    hide Feed, Stuff, Checked, AtFlag, Take, Protocol, Information, FromProtocol, HasProtocol, Compatible;
    Framed(out, inMap, r, Checked(body), ok);
    FreshTwice(u);
  }

  lemma FreshTwice(r: Receiver)
    ensures Fresh(Fresh(r)) == Fresh(r)
  {}

  /** pppWrite of a packet with the uncompressed header. It arrives under its two-octet protocol exactly when the
      first octet of that is even; otherwise that octet alone is the protocol, and the second one leads the data. */
  lemma WriteReceived(out: Accm, inMap: Accm, r: Receiver, hi: Octet, lo: Octet, payload: seq<Octet>, ok: seq<bool>)
    requires Compatible(out, inMap) && AllOk(ok)
    requires |ok| == |Frame(out, [ALL_STATIONS, UI, hi, lo] + payload)|
    ensures var (t, events) := Feed(inMap, r, Frame(out, [ALL_STATIONS, UI, hi, lo] + payload), ok);
            && t == Fresh(t)
            && events == AtFlag(r) + [if Odd(hi) then Deliver(hi as bv16, [lo] + payload)
                                      else Deliver(WithSecond(FirstOctet(hi), lo), payload)]
  {
    hide *;
    var body := [ALL_STATIONS, UI, hi, lo] + payload;
    StandardHeader(hi, lo, payload);
    FrameReceived(out, inMap, r, body, ok);
  }

  lemma StandardHeader(hi: Octet, lo: Octet, payload: seq<Octet>)
    ensures var body := FromProtocol([ALL_STATIONS, UI, hi, lo] + payload);
            && HasProtocol(body)
            && Deliver(Protocol(body), Information(body))
               == if Odd(hi) then Deliver(hi as bv16, [lo] + payload) else Deliver(WithSecond(FirstOctet(hi), lo), payload)
  {
    hide Odd, WithSecond, FirstOctet;
    var body := [ALL_STATIONS, UI, hi, lo] + payload;
    var rest := [hi, lo] + payload;
    assert body[1..] == [UI, hi, lo] + payload && body[1..][1..] == rest;
    assert rest[1..] == [lo] + payload && rest[2..] == payload;
  }

  /** The header pppifOutput puts in front of a packet; either part may have been negotiated away. */
  function OutputBody(accomp: bool, pcomp: bool, hi: Octet, lo: Octet, payload: seq<Octet>): seq<Octet>
  {
    (if accomp then [] else [ALL_STATIONS, UI]) + (if pcomp && hi == 0 then [] else [hi]) + [lo] + payload
  }

  /** When the compressed header can be read back: an even first octet if there are two, an odd one if there is one,
      and with the address field left out, one that is not taken for an address or control octet. */
  predicate Readable(accomp: bool, pcomp: bool, hi: Octet, lo: Octet)
  {
    if pcomp && hi == 0 then Odd(lo) && (accomp ==> lo != ALL_STATIONS && lo != UI) else !Odd(hi)
  }

  lemma OddSpecials()
    ensures Odd(ALL_STATIONS) && Odd(UI)
  {}

  lemma ProtocolWhole(lo: Octet)
    ensures WithSecond(FirstOctet(0), lo) == lo as bv16
  {}

  lemma FirstMatters(hi: Octet, lo: Octet)
    requires Odd(hi)
    ensures WithSecond(FirstOctet(hi), lo) != lo as bv16
  {}

  /** A packet from pppifOutput is parsed back to its protocol and payload exactly when its header is readable. */
  lemma OutputParsed(accomp: bool, pcomp: bool, hi: Octet, lo: Octet, payload: seq<Octet>)
    ensures var body := FromProtocol(OutputBody(accomp, pcomp, hi, lo, payload));
            HasProtocol(body) && Protocol(body) == WithSecond(FirstOctet(hi), lo) && Information(body) == payload
            <==> Readable(accomp, pcomp, hi, lo)
  {
    OddSpecials();
    ProtocolWhole(lo);
    if Odd(hi) { FirstMatters(hi, lo); }
    hide Odd, WithSecond, FirstOctet;
    HeaderSkipped(accomp, pcomp, hi, lo, payload);
    if pcomp && hi == 0 {
      ShortParsed(accomp, lo, payload);
    } else {
      LongParsed(accomp, hi, lo, payload);
    }
  }

  lemma HeaderSkipped(accomp: bool, pcomp: bool, hi: Octet, lo: Octet, payload: seq<Octet>)
    ensures var short := (if pcomp && hi == 0 then [] else [hi]) + [lo] + payload;
            FromProtocol(OutputBody(accomp, pcomp, hi, lo, payload)) == if accomp then FromProtocol(short) else short
  {
    var whole := OutputBody(accomp, pcomp, hi, lo, payload);
    var short := (if pcomp && hi == 0 then [] else [hi]) + [lo] + payload;
    if accomp {
      assert whole == short;
    } else {
      assert whole == [ALL_STATIONS, UI] + short;
      assert whole[1..] == [UI] + short && whole[1..][1..] == short;
    }
  }

  lemma ShortParsed(accomp: bool, lo: Octet, payload: seq<Octet>)
    requires Odd(ALL_STATIONS) && Odd(UI)
    ensures var short := [] + [lo] + payload;
            var body := if accomp then FromProtocol(short) else short;
            HasProtocol(body) && Protocol(body) == lo as bv16 && Information(body) == payload
            <==> Odd(lo) && (accomp ==> lo != ALL_STATIONS && lo != UI)
  {
    hide Odd, WithSecond, FirstOctet;
    var short := [] + [lo] + payload;
    assert short == [lo] + payload && short[1..] == payload;
  }

  lemma LongParsed(accomp: bool, hi: Octet, lo: Octet, payload: seq<Octet>)
    requires Odd(ALL_STATIONS) && Odd(UI) && (Odd(hi) ==> WithSecond(FirstOctet(hi), lo) != lo as bv16)
    ensures var short := [hi] + [lo] + payload;
            var body := if accomp then FromProtocol(short) else short;
            HasProtocol(body) && Protocol(body) == WithSecond(FirstOctet(hi), lo) && Information(body) == payload
            <==> !Odd(hi)
  {
    hide Odd, WithSecond, FirstOctet;
    var short := [hi] + [lo] + payload;
    assert short[1..] == [lo] + payload && short[2..] == payload && short[1..][1..] == payload;
  }

  /** Frames one after the other. */
  function Line(out: Accm, bodies: seq<seq<Octet>>): seq<Octet>
  {
    if bodies == [] then [] else Frame(out, bodies[0]) + Line(out, bodies[1..])
  }

  function Deliveries(bodies: seq<seq<Octet>>): seq<Event>
    requires forall b | b in bodies :: HasProtocol(FromProtocol(b))
  {
    if bodies == [] then []
    else
      [Deliver(Protocol(FromProtocol(bodies[0])), Information(FromProtocol(bodies[0])))] + Deliveries(bodies[1..])
  }

  /** A run of frames, from any state: every packet is delivered once, whole and in order. */
  lemma {:induction false} LineReceived(out: Accm, inMap: Accm, r: Receiver, bodies: seq<seq<Octet>>, ok: seq<bool>)
    requires Compatible(out, inMap) && |ok| == |Line(out, bodies)| && AllOk(ok)
    requires forall b | b in bodies :: HasProtocol(FromProtocol(b))
    ensures Feed(inMap, r, Line(out, bodies), ok).1 == (if bodies == [] then [] else AtFlag(r)) + Deliveries(bodies)
    decreases |bodies|
  {
    hide Feed, Frame, AtFlag, Compatible, FromProtocol, HasProtocol, Protocol, Information, Deliveries;
    if bodies != [] {
      var n := |Frame(out, bodies[0])|;
      assert ok == ok[..n] + ok[n..];
      assert forall b | b in bodies[1..] :: b in bodies;
      LineReceived(out, inMap, Feed(inMap, r, Frame(out, bodies[0]), ok[..n]).0, bodies[1..], ok[n..]);
      LineStep(out, inMap, r, bodies, ok[..n], ok[n..]);
    } else {
      NothingReceived(inMap, r, ok);
    }
  }

  lemma NothingReceived(inMap: Accm, r: Receiver, ok: seq<bool>)
    requires ok == []
    ensures Feed(inMap, r, [], ok).1 == [] && Deliveries([]) == []
  {}

  lemma DeliveriesStep(bodies: seq<seq<Octet>>)
    requires bodies != [] && forall b | b in bodies :: HasProtocol(FromProtocol(b))
    ensures Deliveries(bodies)
            == [Deliver(Protocol(FromProtocol(bodies[0])), Information(FromProtocol(bodies[0])))] + Deliveries(bodies[1..])
  {
    hide HasProtocol, Protocol, Information, FromProtocol;
  }

  lemma LineStep(out: Accm, inMap: Accm, r: Receiver, bodies: seq<seq<Octet>>, okFirst: seq<bool>, okRest: seq<bool>)
    requires bodies != [] && |okFirst| == |Frame(out, bodies[0])| && |okRest| == |Line(out, bodies[1..])|
    requires Compatible(out, inMap) && AllOk(okFirst)
    requires forall b | b in bodies :: HasProtocol(FromProtocol(b))
    requires var t := Feed(inMap, r, Frame(out, bodies[0]), okFirst).0;
             Feed(inMap, t, Line(out, bodies[1..]), okRest).1 == (if bodies[1..] == [] then [] else AtFlag(t)) + Deliveries(bodies[1..])
    ensures Feed(inMap, r, Frame(out, bodies[0]) + Line(out, bodies[1..]), okFirst + okRest).1 == AtFlag(r) + Deliveries(bodies)
  {
    hide Feed, Frame, AtFlag, Compatible, FromProtocol, HasProtocol, Protocol, Information, Line, Fresh;
    var t := Feed(inMap, r, Frame(out, bodies[0]), okFirst).0;
    var first := Deliver(Protocol(FromProtocol(bodies[0])), Information(FromProtocol(bodies[0])));
    var rest := Deliveries(bodies[1..]);
    DeliveriesStep(bodies);
    hide *;
    FreshRunning(t);
    FrameReceived(out, inMap, r, bodies[0], okFirst);
    FeedJoin(inMap, r, Frame(out, bodies[0]), Line(out, bodies[1..]), okFirst, okRest);
    assert [] + rest == rest && (AtFlag(r) + [first]) + rest == AtFlag(r) + ([first] + rest);
  }

  /** A packet damaged in at most two adjacent octets is never delivered. */
  lemma DamagedDropped(out: Accm, inMap: Accm, r: Receiver, body: seq<Octet>, a: seq<Octet>, w: Octet, x: Octet,
                       y: Octet, z: Octet, b: seq<Octet>, ok: seq<bool>)
    requires Compatible(out, inMap) && Checked(body) == a + [w, x] + b && (w != y || x != z)
    requires |ok| == |Stuff(out, a + [y, z] + b)| + 2 && AllOk(ok)
    ensures var events := Feed(inMap, r, [FLAG] + Stuff(out, a + [y, z] + b) + [FLAG], ok).1;
            events == AtFlag(r) || events == AtFlag(r) + [Drop]
  {
    var damaged := a + [y, z] + b;
    var t := Take(Fresh(r), damaged);
    assert FcsOf(INIT_FCS, Checked(body)) == GOOD_FCS by {
      CheckGood(body);
      FcsJoin(INIT_FCS, body, Check(FcsOf(INIT_FCS, body)));
    }
    hide FcsOf, Take, Feed, Stuff, Checked, Compatible;
    FreshRunning(r);
    TakeRunning(Fresh(r), damaged);
    BurstDetected(a, w, x, y, z, b);
    Framed(out, inMap, r, damaged, ok);
    assert AtFlag(t) == [] || AtFlag(t) == [Drop];
    assert AtFlag(r) + [] == AtFlag(r);
  }
}
