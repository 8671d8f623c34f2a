/** The mailbox of the Unix port: a ring with two binary semaphores, any number of posters and one fetcher, as the
    interleaving of their steps. A semaphore operation is one step. */
module Mailbox {
  const SYS_MBOX_SIZE := 100

  type Msg = int
  type Slot = n: int | 0 <= n < SYS_MBOX_SIZE

  function Next(n: Slot): Slot { if n + 1 == SYS_MBOX_SIZE then 0 else n + 1 }

  /** Where a poster stands in sys_mbox_post. `first` is its note that the ring was empty. */
  datatype Poster =
    | Resting
    | Wanting(msg: Msg)
    | Holding(msg: Msg)
    | Stored(msg: Msg)
    | Noted(msg: Msg, first: bool)
    | Advanced(first: bool)
    | Mailed

  /** Where the fetcher stands in sys_arch_mbox_fetch. */
  datatype Fetcher = Idle | Wants | Checking | FoundEmpty | Waiting | Taking | Took(msg: Msg) | Leaving

  /** `accepted` and `fetched` record the messages that have gone into the ring and come out of it. */
  datatype State = State(first: Slot, last: Slot, msgs: seq<Msg>, mail: int, mutex: int, posters: seq<Poster>,
                         fetcher: Fetcher, accepted: seq<Msg>, fetched: seq<Msg>)

  function Init(n: nat): State
  {
    State(0, 0, seq(SYS_MBOX_SIZE, _ => 0), 0, 1, seq(n, _ => Resting), Idle, [], [])
  }

  /** sys_sem_signal: the count does not go above one. */
  function Signalled(c: int): int { if c + 1 > 1 then 1 else c + 1 }

  // ----- the ring -----

  function Count(s: State): nat { (s.last - s.first) % SYS_MBOX_SIZE }

  /** The messages between the indices. */
  function Queue(s: State): seq<Msg>
    requires |s.msgs| == SYS_MBOX_SIZE
  {
    seq(Count(s), i requires 0 <= i => s.msgs[(s.first + i) % SYS_MBOX_SIZE])
  }

  /** One more message goes in at the end exactly when fewer than 99 are there; the hundredth makes the ring look
      empty. */
  lemma PutRing(s: State, msg: Msg)
    requires |s.msgs| == SYS_MBOX_SIZE && s.msgs[s.last] == msg
    ensures Queue(s.(last := Next(s.last))) == Queue(s) + [msg] <==> Count(s) < SYS_MBOX_SIZE - 1
    ensures Count(s) == SYS_MBOX_SIZE - 1 ==> Queue(s.(last := Next(s.last))) == []
  {
    var t := s.(last := Next(s.last));
    if Count(s) < SYS_MBOX_SIZE - 1 {
      assert Count(t) == Count(s) + 1;
      assert (s.first + Count(s)) % SYS_MBOX_SIZE == s.last;
      assert Queue(t) == Queue(s) + [msg];
    } else {
      assert Count(t) == 0;
    }
  }

  lemma GetRing(s: State)
    requires |s.msgs| == SYS_MBOX_SIZE && s.first != s.last
    ensures Queue(s) == [s.msgs[s.first]] + Queue(s.(first := Next(s.first)))
  {
    var t := s.(first := Next(s.first));
    CountLess(s.first, s.last);
    forall i | 0 <= i < Count(t) ensures Queue(t)[i] == Queue(s)[i + 1] {
      SlotAfter(s.first, i);
    }
    assert Queue(s)[0] == s.msgs[s.first];
  }

  lemma CountLess(first: Slot, last: Slot)
    requires first != last
    ensures (last - Next(first)) % SYS_MBOX_SIZE == (last - first) % SYS_MBOX_SIZE - 1
  {}

  lemma SlotAfter(first: Slot, i: nat)
    ensures (Next(first) + i) % SYS_MBOX_SIZE == (first + (i + 1)) % SYS_MBOX_SIZE
  {}

  /** A slot outside the queue can be written. */
  lemma StoreRing(s: State, msg: Msg)
    requires |s.msgs| == SYS_MBOX_SIZE
    ensures Queue(s.(msgs := s.msgs[s.last := msg])) == Queue(s)
  {
    var t := s.(msgs := s.msgs[s.last := msg]);
    forall i | 0 <= i < Count(s) ensures Queue(t)[i] == Queue(s)[i] {
      assert (s.first + i) % SYS_MBOX_SIZE != s.last;
    }
  }

  // ----- steps -----

  predicate HoldsMutex(p: Poster) { p.Holding? || p.Stored? || p.Noted? || p.Advanced? || p.Mailed? }

  predicate FetcherHolds(f: Fetcher) { f.Checking? || f.FoundEmpty? || f.Taking? || f.Took? || f.Leaving? }

  /** One step of poster k; `msg` is what it posts if it is at rest. */
  function PostStep(s: State, k: nat, msg: Msg): State
    requires k < |s.posters| && |s.msgs| == SYS_MBOX_SIZE
  {
    match s.posters[k]
    case Resting => s.(posters := s.posters[k := Wanting(msg)])
    case Wanting(m) => if s.mutex > 0 then s.(mutex := s.mutex - 1, posters := s.posters[k := Holding(m)]) else s
    case Holding(m) => s.(msgs := s.msgs[s.last := m], posters := s.posters[k := Stored(m)])
    case Stored(m) => s.(posters := s.posters[k := Noted(m, s.last == s.first)])
    case Noted(m, f) => s.(last := Next(s.last), accepted := s.accepted + [m], posters := s.posters[k := Advanced(f)])
    case Advanced(f) => s.(mail := if f then Signalled(s.mail) else s.mail, posters := s.posters[k := Mailed])
    case Mailed => s.(mutex := Signalled(s.mutex), posters := s.posters[k := Resting])
  }

  /** One step of the fetcher; `timeout` says whether a wait that is not satisfied runs out. */
  function FetchStep(s: State, timeout: bool): State
    requires |s.msgs| == SYS_MBOX_SIZE
  {
    match s.fetcher
    case Idle => s.(fetcher := Wants)
    case Wants => if s.mutex > 0 then s.(mutex := s.mutex - 1, fetcher := Checking) else s
    case Checking => s.(fetcher := if s.first == s.last then FoundEmpty else Taking)
    case FoundEmpty => s.(mutex := Signalled(s.mutex), fetcher := Waiting)
    case Waiting =>
      if s.mail > 0 then s.(mail := s.mail - 1, fetcher := Wants)
      else if timeout then s.(fetcher := Idle)
      else s
    case Taking => s.(fetcher := Took(s.msgs[s.first]))
    case Took(m) => s.(first := Next(s.first), fetched := s.fetched + [m], fetcher := Leaving)
    case Leaving => s.(mutex := Signalled(s.mutex), fetcher := Idle)
  }

  datatype Event = Post(k: nat, msg: Msg) | Fetch(timeout: bool)

  function Step(s: State, e: Event): State
    requires |s.msgs| == SYS_MBOX_SIZE
  {
    match e
    case Post(k, msg) => if k < |s.posters| then PostStep(s, k, msg) else s
    case Fetch(timeout) => FetchStep(s, timeout)
  }

  /** No poster goes on while 99 messages are in the ring. */
  predicate HasRoom(s: State, e: Event)
  {
    e.Post? && e.k < |s.posters| && s.posters[e.k].Noted? ==> Count(s) < SYS_MBOX_SIZE - 1
  }

  // ----- safety -----

  /** At most one of them holds the mutex, and it is free exactly when none does. */
  ghost predicate Exclusive(s: State)
  {
    && (forall j, k | 0 <= j < k < |s.posters| :: !(HoldsMutex(s.posters[j]) && HoldsMutex(s.posters[k])))
    && (forall k | 0 <= k < |s.posters| && HoldsMutex(s.posters[k]) :: !FetcherHolds(s.fetcher) && s.mutex == 0)
    && (FetcherHolds(s.fetcher) ==> s.mutex == 0) && 0 <= s.mutex <= 1 && 0 <= s.mail <= 1
    && (s.mutex == 0 ==> FetcherHolds(s.fetcher) || exists k :: 0 <= k < |s.posters| && HoldsMutex(s.posters[k]))
  }

  /** What a poster knows while it holds the mutex. */
  predicate PosterOk(s: State, p: Poster)
    requires |s.msgs| == SYS_MBOX_SIZE
  {
    match p
    case Stored(m) => s.msgs[s.last] == m
    case Noted(m, f) => s.msgs[s.last] == m && (f <==> s.first == s.last)
    case _ => true
  }

  predicate FetcherOk(s: State)
    requires |s.msgs| == SYS_MBOX_SIZE
  {
    match s.fetcher
    case FoundEmpty => s.first == s.last
    case Taking => s.first != s.last
    case Took(m) => s.first != s.last && s.msgs[s.first] == m
    case _ => true
  }

  /** A fetcher that waits while there is mail has been signalled, or is about to be by the poster with the mutex. */
  ghost predicate WillWake(s: State)
  {
    s.fetcher.Waiting? && s.first != s.last ==>
      s.mail == 1 || exists k :: 0 <= k < |s.posters| && s.posters[k] == Advanced(true)
  }

  /** Messages come out in the order they went in, and those not out yet are in the ring. */
  ghost predicate Fifo(s: State)
    requires |s.msgs| == SYS_MBOX_SIZE
  {
    s.accepted == s.fetched + Queue(s)
  }

  ghost predicate Inv(s: State)
  {
    && |s.msgs| == SYS_MBOX_SIZE && Exclusive(s) && Fifo(s) && FetcherOk(s) && WillWake(s)
    && forall k | 0 <= k < |s.posters| :: PosterOk(s, s.posters[k])
  }

  lemma InitInv(n: nat)
    ensures Inv(Init(n))
  {
    assert Queue(Init(n)) == [];
  }

  lemma PostFifo(s: State, k: nat, msg: Msg)
    requires Inv(s) && k < |s.posters| && HasRoom(s, Post(k, msg))
    ensures Fifo(PostStep(s, k, msg))
  {
    var p := s.posters[k];
    assert PosterOk(s, p);
    match p
    case Holding(m) => StoreRing(s, m);
    case Noted(m, f) =>
      PutRing(s, m);
      assert s.accepted + [m] == s.fetched + (Queue(s) + [m]);
    case _ => assert Queue(PostStep(s, k, msg)) == Queue(s);
  }

  lemma FetchFifo(s: State, timeout: bool)
    requires Inv(s)
    ensures Fifo(FetchStep(s, timeout))
  {
    if s.fetcher.Took? {
      GetRing(s);
      assert s.fetched + ([s.fetcher.msg] + Queue(FetchStep(s, timeout))) == (s.fetched + [s.fetcher.msg]) + Queue(FetchStep(s, timeout));
    } else {
      assert Queue(FetchStep(s, timeout)) == Queue(s);
    }
  }

  /** A step of a poster that has the mutex, or is about to take it, leaves the others alone. */
  lemma PostKeeps(s: State, k: nat, msg: Msg)
    requires Inv(s) && k < |s.posters| && HasRoom(s, Post(k, msg))
    ensures Inv(PostStep(s, k, msg))
  {
    PostFifo(s, k, msg);
    PostExclusive(s, k, msg);
    PostWakes(s, k, msg);
    hide Fifo, Queue, Count, Exclusive, WillWake;
    var t := PostStep(s, k, msg);
    PostOthers(s, k, msg);
  }

  lemma PostOthers(s: State, k: nat, msg: Msg)
    requires Inv(s) && k < |s.posters|
    ensures var t := PostStep(s, k, msg);
            FetcherOk(t) && forall j | 0 <= j < |t.posters| :: PosterOk(t, t.posters[j])
  {
    var t := PostStep(s, k, msg);
    assert PosterOk(s, s.posters[k]);
    forall j | 0 <= j < |t.posters| ensures PosterOk(t, t.posters[j]) { assert PosterOk(s, s.posters[j]); }
  }

  lemma PostExclusive(s: State, k: nat, msg: Msg)
    requires Inv(s) && k < |s.posters|
    ensures Exclusive(PostStep(s, k, msg))
  {
    var t := PostStep(s, k, msg);
    if t.mutex == 0 && !FetcherHolds(t.fetcher) {
      if s.mutex == 0 {
        var j :| 0 <= j < |s.posters| && HoldsMutex(s.posters[j]);
        assert HoldsMutex(t.posters[j]);
      } else {
        assert HoldsMutex(t.posters[k]);
      }
    }
  }

  /** The poster that makes the ring non-empty has noted that it was empty. */
  lemma PostWakes(s: State, k: nat, msg: Msg)
    requires Inv(s) && k < |s.posters|
    ensures WillWake(PostStep(s, k, msg))
  {
    var t := PostStep(s, k, msg);
    assert PosterOk(s, s.posters[k]);
    if t.fetcher.Waiting? && t.first != t.last && t.mail != 1 {
      if s.first != s.last {
        var j :| 0 <= j < |s.posters| && s.posters[j] == Advanced(true);
        assert t.posters[j] == Advanced(true);
      } else {
        assert t.posters[k] == Advanced(true);
      }
    }
  }

  lemma FetchKeeps(s: State, timeout: bool)
    requires Inv(s)
    ensures Inv(FetchStep(s, timeout))
  {
    FetchFifo(s, timeout);
    hide Fifo, Queue, Count;
    var t := FetchStep(s, timeout);
    forall j | 0 <= j < |t.posters| ensures PosterOk(t, t.posters[j]) { assert PosterOk(s, s.posters[j]); }
  }

  lemma StepKeeps(s: State, e: Event)
    requires Inv(s) && HasRoom(s, e)
    ensures Inv(Step(s, e))
  {
    hide Inv;
    match e
    case Post(k, msg) => if k < |s.posters| { PostKeeps(s, k, msg); }
    case Fetch(timeout) => FetchKeeps(s, timeout);
  }

  // ----- runs -----

  function Run(s: State, es: seq<Event>): State
    requires |s.msgs| == SYS_MBOX_SIZE
    decreases |es|
  {
    if es == [] then s else Run(StepSized(s, es[0]), es[1..])
  }

  function StepSized(s: State, e: Event): (t: State)
    requires |s.msgs| == SYS_MBOX_SIZE
    ensures |t.msgs| == SYS_MBOX_SIZE && t == Step(s, e)
  {
    Step(s, e)
  }

  predicate RoomAlways(s: State, es: seq<Event>)
    requires |s.msgs| == SYS_MBOX_SIZE
    decreases |es|
  {
    es == [] || (HasRoom(s, es[0]) && RoomAlways(StepSized(s, es[0]), es[1..]))
  }

  /** Under every interleaving in which no more than 99 messages are outstanding, messages are fetched in the order
      they were posted and none is lost, and a fetcher never waits for ever beside a message. */
  lemma {:induction false} RunSafe(s: State, es: seq<Event>)
    requires Inv(s) && RoomAlways(s, es)
    ensures Inv(Run(s, es))
    decreases |es|
  {
    if es != [] {
      StepKeeps(s, es[0]);
      hide Inv, HasRoom;
      RunSafe(StepSized(s, es[0]), es[1..]);
    }
  }

  // ----- progress -----

  /** Steps until a poster gives back the mutex. */
  function PosterSteps(p: Poster): nat
  {
    match p
    case Holding(_) => 5
    case Stored(_) => 4
    case Noted(_, _) => 3
    case Advanced(_) => 2
    case Mailed => 1
    case _ => 0
  }

  /** Steps until the fetcher takes a message, when there is one and no poster holds the mutex. */
  function FetcherSteps(f: Fetcher): nat
  {
    match f
    case Took(_) => 1
    case Taking => 2
    case Checking => 3
    case Wants => 4
    case Waiting => 5
    case Idle => 5
    case FoundEmpty => 6
    case Leaving => 6
  }

  ghost predicate NoPosterHolds(s: State) { forall k | 0 <= k < |s.posters| :: !HoldsMutex(s.posters[k]) }

  /** The poster with the mutex, if it has yet to put its message in, finds room for it. */
  predicate RoomForHolder(s: State)
  {
    forall k | 0 <= k < |s.posters| && PosterSteps(s.posters[k]) >= 3 :: Count(s) < SYS_MBOX_SIZE - 1
  }

  /** The oldest message has been fetched, by steps of the fetcher and of no poster but k. */
  ghost predicate Fetches(s: State, es: seq<Event>, k: int)
    requires |s.msgs| == SYS_MBOX_SIZE && Queue(s) != []
  {
    && RoomAlways(s, es) && Run(s, es).fetched == s.fetched + [Queue(s)[0]]
    && forall e | e in es :: e.Post? ==> e.k == k
  }

  lemma FetchesStep(s: State, e: Event, rest: seq<Event>, k: int)
    requires |s.msgs| == SYS_MBOX_SIZE && Queue(s) != [] && HasRoom(s, e) && (e.Post? ==> e.k == k)
    requires var t := StepSized(s, e); Queue(t) != [] && Queue(t)[0] == Queue(s)[0] && t.fetched == s.fetched && Fetches(t, rest, k)
    ensures Fetches(s, [e] + rest, k)
  {
    assert ([e] + rest)[1..] == rest;
  }

  lemma NowFetched(s: State, e: Event, k: int)
    requires |s.msgs| == SYS_MBOX_SIZE && Queue(s) != [] && e.Fetch?
    requires StepSized(s, e).fetched == s.fetched + [Queue(s)[0]]
    ensures Fetches(s, [e], k)
  {
    var es := [e];
    var t := StepSized(s, e);
    assert es[1..] == [] && Run(t, es[1..]) == t && RoomAlways(t, es[1..]);
    assert HasRoom(s, e) && RoomAlways(s, es) && Run(s, es) == t;
  }

  lemma FetcherMoves(s: State)
    requires Inv(s) && Queue(s) != [] && NoPosterHolds(s)
    ensures var t := FetchStep(s, false);
            if s.fetcher.Took? then t.fetched == s.fetched + [Queue(s)[0]]
            else FetcherSteps(t.fetcher) < FetcherSteps(s.fetcher) && Queue(t) == Queue(s) && t.fetched == s.fetched
                 && t.posters == s.posters
  {
    assert s.first != s.last;
    if !s.fetcher.Took? { assert Queue(FetchStep(s, false)) == Queue(s); }
  }

  lemma {:induction false} FetcherProgress(s: State, k: int) returns (es: seq<Event>)
    requires Inv(s) && Queue(s) != [] && NoPosterHolds(s)
    ensures |es| <= FetcherSteps(s.fetcher) && Fetches(s, es, k)
    decreases FetcherSteps(s.fetcher)
  {
    var e := Fetch(false);
    var t := StepSized(s, e);
    FetcherMoves(s);
    StepKeeps(s, e);
    if s.fetcher.Took? {
      es := [e];
      NowFetched(s, e, k);
    } else {
      hide Inv;
      var rest := FetcherProgress(t, k);
      FetchesStep(s, e, rest, k);
      es := [e] + rest;
    }
  }

  lemma PosterMoves(s: State, k: nat)
    requires Inv(s) && Queue(s) != [] && k < |s.posters| && HoldsMutex(s.posters[k]) && RoomForHolder(s)
    ensures var t := PostStep(s, k, 0);
            && HasRoom(s, Post(k, 0)) && RoomForHolder(t) && t.fetched == s.fetched && t.fetcher == s.fetcher
            && PosterSteps(t.posters[k]) < PosterSteps(s.posters[k])
            && (if s.posters[k].Mailed? then NoPosterHolds(t) else HoldsMutex(t.posters[k]))
            && Queue(t) != [] && Queue(t)[0] == Queue(s)[0]
  {
    var t := PostStep(s, k, 0);
    assert PosterOk(s, s.posters[k]);
    forall j | 0 <= j < |t.posters| && j != k ensures !HoldsMutex(t.posters[j]) && PosterSteps(t.posters[j]) == 0 {}
    if s.posters[k].Holding? {
      StoreRing(s, s.posters[k].msg);
    } else if s.posters[k].Noted? {
      PutRing(s, s.posters[k].msg);
    } else {
      assert Queue(t) == Queue(s);
    }
  }

  lemma {:induction false} PosterProgress(s: State, k: nat) returns (es: seq<Event>)
    requires Inv(s) && Queue(s) != [] && k < |s.posters| && HoldsMutex(s.posters[k]) && RoomForHolder(s)
    ensures |es| <= PosterSteps(s.posters[k]) + FetcherSteps(s.fetcher) && Fetches(s, es, k)
    decreases PosterSteps(s.posters[k])
  {
    var e := Post(k, 0);
    var t := StepSized(s, e);
    PosterMoves(s, k);
    StepKeeps(s, e);
    var rest: seq<Event>;
    hide Inv, RoomForHolder, Fetches;
    if s.posters[k].Mailed? {
      rest := FetcherProgress(t, k);
    } else {
      rest := PosterProgress(t, k);
    }
    FetchesStep(s, e, rest, k);
    es := [e] + rest;
  }

  /** From every reachable state with a message in the ring, no more than ten steps of the fetcher and of the poster
      that holds the mutex bring out the oldest message, whatever the other posters are doing: nothing is stuck, and a
      fetcher that waits beside a message is always woken. */
  lemma Progress(s: State) returns (es: seq<Event>, k: int)
    requires Inv(s) && Queue(s) != [] && RoomForHolder(s)
    ensures |es| <= 10 && Fetches(s, es, k)
    ensures 0 <= k < |s.posters| ==> HoldsMutex(s.posters[k])
  {
    if NoPosterHolds(s) {
      k := -1;
      es := FetcherProgress(s, k);
    } else {
      k :| 0 <= k < |s.posters| && HoldsMutex(s.posters[k]);
      es := PosterProgress(s, k);
    }
  }

  // ----- posting -----

  /** Steps until whoever holds the mutex gives it back. */
  function FetcherLeft(f: Fetcher): nat
  {
    match f
    case Checking => 4
    case Taking => 3
    case Took(_) => 2
    case Leaving => 1
    case FoundEmpty => 1
    case _ => 0
  }

  /** There is room for the message of the poster with the mutex, if it has yet to put it in, and for one more. */
  ghost predicate RoomForOne(s: State)
  {
    Count(s) < SYS_MBOX_SIZE - 1 && ((exists j :: 0 <= j < |s.posters| && PosterSteps(s.posters[j]) >= 3) ==> Count(s) < SYS_MBOX_SIZE - 2)
  }

  /** By these steps, none of them of a poster outside `who`, the state becomes t. */
  ghost predicate Leads(s: State, es: seq<Event>, t: State, who: set<int>)
  {
    |s.msgs| == SYS_MBOX_SIZE && RoomAlways(s, es) && Run(s, es) == t && forall e | e in es :: e.Post? ==> e.k in who
  }

  lemma LeadsStep(s: State, e: Event, rest: seq<Event>, t: State, who: set<int>)
    requires |s.msgs| == SYS_MBOX_SIZE && HasRoom(s, e) && (e.Post? ==> e.k in who) && Leads(StepSized(s, e), rest, t, who)
    ensures Leads(s, [e] + rest, t, who)
  {
    assert ([e] + rest)[1..] == rest;
  }

  lemma LeadsNowhere(s: State, who: set<int>)
    requires |s.msgs| == SYS_MBOX_SIZE
    ensures Leads(s, [], s, who)
  {}

  lemma {:induction false} LeadsOn(s: State, a: seq<Event>, t: State, b: seq<Event>, u: State, who: set<int>)
    requires Leads(s, a, t, who) && Leads(t, b, u, who)
    ensures Leads(s, a + b, u, who)
    decreases |a|
  {
    if a == [] {
      assert a + b == b;
    } else {
      var v := StepSized(s, a[0]);
      assert Leads(v, a[1..], t, who);
      LeadsOn(v, a[1..], t, b, u, who);
      LeadsStep(s, a[0], a[1..] + b, u, who);
      assert [a[0]] + (a[1..] + b) == a + b;
    }
  }

  /** A step of the fetcher with the mutex. */
  lemma FetcherFrees(s: State)
    requires Inv(s) && FetcherHolds(s.fetcher) && RoomForOne(s)
    ensures var t := FetchStep(s, false);
            && t.posters == s.posters && t.accepted == s.accepted && RoomForOne(t)
            && FetcherLeft(t.fetcher) < FetcherLeft(s.fetcher) && (if FetcherHolds(t.fetcher) then t.mutex == 0 else t.mutex == 1)
  {
    var t := FetchStep(s, false);
    if s.fetcher.Took? { GetRing(s); CountIs(s); CountIs(t); } else { assert Count(t) == Count(s); }
  }

  lemma CountIs(s: State)
    requires |s.msgs| == SYS_MBOX_SIZE
    ensures |Queue(s)| == Count(s)
  {}

  /** A step of the poster with the mutex. */
  lemma PosterFrees(s: State, j: nat, k: nat)
    requires Inv(s) && j < |s.posters| && k < |s.posters| && HoldsMutex(s.posters[j]) && !HoldsMutex(s.posters[k]) && RoomForOne(s)
    ensures var t := PostStep(s, j, 0);
            && HasRoom(s, Post(j, 0)) && |t.posters| == |s.posters| && t.posters[k] == s.posters[k] && t.fetcher == s.fetcher
            && s.accepted <= t.accepted && RoomForOne(t) && PosterSteps(t.posters[j]) < PosterSteps(s.posters[j])
            && (if HoldsMutex(t.posters[j]) then t.mutex == 0 else t.mutex == 1)
  {
    var t := PostStep(s, j, 0);
    assert PosterOk(s, s.posters[j]);
    forall i | 0 <= i < |t.posters| && i != j ensures PosterSteps(t.posters[i]) == 0 { assert t.posters[i] == s.posters[i]; }
    if s.posters[j].Noted? {
      PutRing(s, s.posters[j].msg);
      CountIs(s);
      CountIs(t.(accepted := s.accepted));
    } else {
      assert Count(t) == Count(s);
    }
  }

  /** Whoever holds the mutex gives it back, in at most five steps of its own. */
  lemma {:induction false} FetcherGives(s: State, who: set<int>) returns (es: seq<Event>, t: State)
    requires Inv(s) && FetcherHolds(s.fetcher) && RoomForOne(s)
    ensures |es| <= 4 && Leads(s, es, t, who) && Inv(t) && t.mutex == 1 && RoomForOne(t) && t.posters == s.posters
    ensures |es| <= FetcherLeft(s.fetcher) && t.accepted == s.accepted
    decreases FetcherLeft(s.fetcher)
  {
    var e := Fetch(false);
    var u := StepSized(s, e);
    FetcherFrees(s);
    StepKeeps(s, e);
    hide Inv, RoomForOne, Leads;
    if FetcherHolds(u.fetcher) {
      var rest;
      rest, t := FetcherGives(u, who);
      LeadsStep(s, e, rest, t, who);
      es := [e] + rest;
    } else {
      t := u;
      LeadsNowhere(u, who);
      LeadsStep(s, e, [], t, who);
      es := [e] + [];
    }
  }

  lemma {:induction false} PosterGives(s: State, j: nat, k: nat, who: set<int>) returns (es: seq<Event>, t: State)
    requires Inv(s) && j < |s.posters| && k < |s.posters| && HoldsMutex(s.posters[j]) && !HoldsMutex(s.posters[k]) && RoomForOne(s)
    requires j in who
    ensures |es| <= PosterSteps(s.posters[j]) && Leads(s, es, t, who) && Inv(t) && t.mutex == 1 && RoomForOne(t)
    ensures |t.posters| == |s.posters| && t.posters[k] == s.posters[k] && s.accepted <= t.accepted
    decreases PosterSteps(s.posters[j])
  {
    var e := Post(j, 0);
    var u := StepSized(s, e);
    PosterFrees(s, j, k);
    StepKeeps(s, e);
    hide Inv, RoomForOne, Leads;
    if HoldsMutex(u.posters[j]) {
      var rest;
      rest, t := PosterGives(u, j, k, who);
      LeadsStep(s, e, rest, t, who);
      es := [e] + rest;
    } else {
      t := u;
      LeadsNowhere(u, who);
      LeadsStep(s, e, [], t, who);
      es := [e] + [];
    }
  }

  /** The steps of one poster from rest to rest, or from the wait for the mutex on. */
  function PostLeft(p: Poster): nat
  {
    match p
    case Resting => 7
    case Wanting(_) => 6
    case _ => PosterSteps(p)
  }

  /** The message a poster is about to put in, or has put in as the last one. */
  predicate About(s: State, p: Poster, msg: Msg)
  {
    match p
    case Wanting(m) => m == msg
    case Holding(m) => m == msg
    case Stored(m) => m == msg
    case Noted(m, _) => m == msg
    case _ => s.accepted != [] && s.accepted[|s.accepted| - 1] == msg
  }

  /** The mail count there will be when a poster has given the mutex back: it signals exactly if it found the ring empty. */
  function WillMail(s: State, p: Poster): int
  {
    match p
    case Noted(_, f) => if f then 1 else s.mail
    case Advanced(f) => if f then 1 else s.mail
    case Mailed => s.mail
    case _ => if s.first == s.last then 1 else s.mail
  }

  /** A step of poster k, with the mutex free or its own. */
  lemma PostMoves(s: State, k: nat, msg: Msg)
    requires Inv(s) && k < |s.posters| && (s.posters[k].Resting? || About(s, s.posters[k], msg)) && Count(s) < SYS_MBOX_SIZE
    requires s.mutex == 1 || HoldsMutex(s.posters[k])
    requires PostLeft(s.posters[k]) >= 3 ==> Count(s) < SYS_MBOX_SIZE - 1
    ensures var t := PostStep(s, k, msg);
            && HasRoom(s, Post(k, msg)) && |t.posters| == |s.posters| && s.accepted <= t.accepted && About(t, t.posters[k], msg)
            && (if s.posters[k].Mailed? then t.posters[k].Resting? else PostLeft(t.posters[k]) == PostLeft(s.posters[k]) - 1)
            && (s.posters[k].Mailed? || t.mutex == 1 || HoldsMutex(t.posters[k]))
            && WillMail(s, s.posters[k]) == (if s.posters[k].Mailed? then t.mail else WillMail(t, t.posters[k]))
            && (PostLeft(t.posters[k]) >= 3 && !s.posters[k].Mailed? ==> Count(t) < SYS_MBOX_SIZE - 1)
  {
    var t := PostStep(s, k, msg);
    if !s.posters[k].Noted? { assert Count(t) == Count(s); }
  }

  lemma {:induction false} PostRuns(s: State, k: nat, msg: Msg, who: set<int>) returns (es: seq<Event>, t: State)
    requires Inv(s) && k < |s.posters| && k in who && (s.posters[k].Resting? || About(s, s.posters[k], msg))
    requires s.mutex == 1 || HoldsMutex(s.posters[k])
    requires PostLeft(s.posters[k]) >= 3 ==> Count(s) < SYS_MBOX_SIZE - 1
    ensures |es| <= PostLeft(s.posters[k]) && Leads(s, es, t, who) && k < |t.posters| && t.posters[k].Resting?
    ensures t.mail == WillMail(s, s.posters[k])
    ensures s.accepted <= t.accepted && t.accepted != [] && t.accepted[|t.accepted| - 1] == msg
    decreases PostLeft(s.posters[k])
  {
    var e := Post(k, msg);
    var u := StepSized(s, e);
    PostMoves(s, k, msg);
    StepKeeps(s, e);
    hide Inv, Leads, Count;
    if s.posters[k].Mailed? {
      t := u;
      LeadsNowhere(u, who);
      LeadsStep(s, e, [], t, who);
      es := [e] + [];
    } else {
      var rest;
      rest, t := PostRuns(u, k, msg, who);
      LeadsStep(s, e, rest, t, who);
      es := [e] + rest;
    }
  }

  /** From every reachable state with room for it, a message that a poster wants to post is in the ring after at most twelve
      steps of that poster and of whoever holds the mutex, and the poster is at rest again. */
  lemma PostProgress(s: State, k: nat, msg: Msg) returns (es: seq<Event>, t: State, who: set<int>)
    requires Inv(s) && k < |s.posters| && (s.posters[k].Resting? || s.posters[k] == Wanting(msg)) && RoomForOne(s)
    ensures |es| <= 12 && Leads(s, es, t, who) && forall j | j in who :: j == k || (0 <= j < |s.posters| && HoldsMutex(s.posters[j]))
    ensures k < |t.posters| && t.posters[k].Resting?
    ensures s.accepted <= t.accepted && t.accepted != [] && t.accepted[|t.accepted| - 1] == msg
  {
    var a: seq<Event>, u: State := [], s;
    who := {k};
    if s.mutex == 1 {
      LeadsNowhere(s, who);
    } else if FetcherHolds(s.fetcher) {
      a, u := FetcherGives(s, who);
    } else {
      var j :| 0 <= j < |s.posters| && HoldsMutex(s.posters[j]);
      who := {k, j};
      a, u := PosterGives(s, j, k, who);
    }
    var b: seq<Event>;
    b, t := PostRuns(u, k, msg, who);
    hide Inv, Leads;
    LeadsOn(s, a, u, b, t, who);
    es := a + b;
  }

  /** With the mutex free a post leaves mail behind if the ring was empty, and else leaves the count as it was. */
  lemma PostMails(s: State, k: nat, msg: Msg) returns (es: seq<Event>, t: State)
    requires Inv(s) && k < |s.posters| && s.posters[k].Resting? && s.mutex == 1 && Count(s) < SYS_MBOX_SIZE - 1
    ensures |es| <= 7 && Leads(s, es, t, {k}) && t.accepted != [] && t.accepted[|t.accepted| - 1] == msg
    ensures t.mail == if Queue(s) == [] then 1 else s.mail
  {
    es, t := PostRuns(s, k, msg, {k});
    CountIs(s);
  }

  /** A fetch from an empty mailbox uses up what mail there is, waits, and when its time runs out comes back without a
      message, with nothing else changed. */
  lemma EmptyFetch(s: State) returns (es: seq<Event>)
    requires Inv(s) && s.fetcher.Idle? && s.mutex == 1 && Queue(s) == []
    ensures |es| == 4 + 4 * s.mail
    ensures var t := s.(fetcher := Waiting, mail := 0);
            && Leads(s, es, t, {}) && FetchStep(t, false) == t && FetchStep(t, true) == s.(mail := 0)
  {
    CountIs(s);
    var e := Fetch(false);
    var u := s.(fetcher := Waiting);
    assert s.first == s.last;
    Goes(s.(fetcher := Wants));
    LeadsStep(s, e, [e, e, e], u, {});
    es := [e] + [e, e, e];
    if s.mail == 1 {
      var v := s.(fetcher := Wants, mail := 0);
      Goes(v);
      LeadsStep(u, e, [e, e, e], v.(fetcher := Waiting), {});
      LeadsOn(s, es, u, [e] + [e, e, e], v.(fetcher := Waiting), {});
      es := es + ([e] + [e, e, e]);
    }
  }

  /** From wanting the mutex to waiting, beside an empty ring. */
  lemma Goes(s: State)
    requires |s.msgs| == SYS_MBOX_SIZE && s.fetcher.Wants? && s.mutex == 1 && s.first == s.last
    ensures Leads(s, [Fetch(false), Fetch(false), Fetch(false)], s.(fetcher := Waiting), {})
  {
    var e := Fetch(false);
    var a := s.(mutex := 0, fetcher := Checking);
    var b := a.(fetcher := FoundEmpty);
    var c := s.(fetcher := Waiting);
    LeadsNowhere(c, {});
    LeadsStep(b, e, [], c, {});
    LeadsStep(a, e, [e] + [], c, {});
    LeadsStep(s, e, [e] + ([e] + []), c, {});
    assert [e] + ([e] + ([e] + [])) == [e, e, e];
  }

  /** The hundredth outstanding message: the ring looks empty, and all hundred are lost. */
  lemma HundredthLost(s: State, k: nat, msg: Msg)
    requires Inv(s) && k < |s.posters| && s.posters[k].Noted? && Count(s) == SYS_MBOX_SIZE - 1
    ensures var t := PostStep(s, k, msg);
            Queue(t) == [] && |t.accepted| - |t.fetched| == SYS_MBOX_SIZE && !Fifo(t)
  {
    assert PosterOk(s, s.posters[k]);
    PutRing(s, s.posters[k].msg);
    assert PostStep(s, k, msg).accepted == s.accepted + [s.posters[k].msg];
  }

  // ----- the critical sections -----

  class Mbox {
    var first: Slot
    var last: Slot
    const msgs: array<Msg>

    ghost function Ring(): State
      reads this, msgs
    {
      Init(0).(first := first, last := last, msgs := msgs[..])
    }

    ghost predicate Valid()
      reads this, msgs
    {
      msgs.Length == SYS_MBOX_SIZE
    }

    /** sys_mbox_new. */
    constructor ()
      ensures Valid() && fresh(msgs) && Queue(Ring()) == []
    {
      first, last := 0, 0;
      msgs := new Msg[SYS_MBOX_SIZE](_ => 0);
    }

    /** What sys_mbox_post does while it holds the mutex, in three of its steps; the result says whether to signal. */
    method Put(msg: Msg) returns (wasEmpty: bool)
      requires Valid()
      modifies this, msgs
      ensures Valid()
      ensures Ring().(posters := [Advanced(wasEmpty)], accepted := [msg])
              == PostStep(PostStep(PostStep(old(Ring()).(posters := [Holding(msg)]), 0, 0), 0, 0), 0, 0)
      ensures wasEmpty <==> old(Queue(Ring())) == []
      ensures Queue(Ring()) == if old(Count(Ring())) < SYS_MBOX_SIZE - 1 then old(Queue(Ring())) + [msg] else []
    {
      StoreRing(Ring(), msg);
      msgs[last] := msg;
      PutRing(Ring(), msg);
      wasEmpty := last == first;
      last := if last + 1 == SYS_MBOX_SIZE then 0 else last + 1;
    }

    /** What sys_arch_mbox_fetch does while it holds the mutex and has found mail, in two of its steps. */
    method Get() returns (msg: Msg)
      requires Valid() && first != last
      modifies this
      ensures Valid() && old(Queue(Ring())) == [msg] + Queue(Ring())
      ensures Ring().(fetcher := Leaving, fetched := [msg])
              == FetchStep(FetchStep(old(Ring()).(fetcher := Taking), false), false)
    {
      GetRing(Ring());
      msg := msgs[first];
      first := if first + 1 == SYS_MBOX_SIZE then 0 else first + 1;
    }
  }
}
