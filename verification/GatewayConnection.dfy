/** One gateway connection as a concurrent state machine: the read loop, the
    ping goroutine and any number of senders write frames to one stream under
    two nested mutexes (`cc.mu`, then `conn.mu`).  Every atomic action of the
    code is one event; a run is any sequence of enabled events. */
module GatewayConnection {
  import opened Prelude
  import opened Bytes
  import opened WsConn
  import Rfc = Rfc6455

  /** Thread 0 is the read loop, thread 1 the ping goroutine, the rest are senders. */
  type Tid = nat
  const READER: Tid := 0
  const PINGER: Tid := 1
  const PING_PAYLOAD: seq<byte> := [0x70, 0x69, 0x6E, 0x67]

  datatype Thread =
    | Idle
    | WantCc(m: Msg)               // about to lock cc.mu
    | WantConn(m: Msg)             // holds cc.mu, about to lock conn.mu
    | Writing(m: Msg, done: nat)   // holds both; `done` bytes of the frame accepted
    | Wrote(ok: bool)              // conn.mu released, cc.mu still held
    | Checking                     // read loop, about to look at the context
    | GivingUp                     // ping goroutine after a failed ping, about to cancel
    | Quit                         // read loop left, or ping goroutine returned

  datatype State = State(
    threads: map<Tid, Thread>,
    cc: Option<Tid>,
    mu: Option<Tid>,
    wire: seq<byte>,          // bytes accepted by the network so far
    sent: seq<Msg>,           // messages whose whole frame was accepted, in order
    senders: seq<Tid>,        // the thread each of them came from
    failed: bool,             // some write has failed
    torn: bool,               // some write has failed after part of its frame was accepted
    cancelled: bool,          // the connection's context
    unread: seq<byte>,        // client bytes the read loop has not consumed
    read: seq<Msg>,           // messages the read loop has obtained
    joined: bool)             // the wait on `pingDone` has returned

  /** What a thread does on its way through the two locks. */
  datatype Action =
    | LockCc
    | LockConn
    | Accept(k: nat)                     // the network takes k more bytes
    | FailWrite
    | FinishWrite                        // the write returns; conn.mu is released
    | UnlockCc

  datatype Event =
    | Send(t: Tid, payload: seq<byte>)   // SendToUser has looked up the connection
    | Tick                               // the ping ticker fires
    | PingerDone                         // the ping goroutine sees the cancelled context
    | GiveUp                             // it cancels after a failed ping, and returns
    | Read                               // the read loop calls ReadFrame
    | Check                              // the read loop leaves if the context is cancelled
    | Do(t: Tid, a: Action)
    | CancelRequest                      // the HTTP request's context is cancelled
    | Join                               // the wait on `pingDone` returns

  function Th(s: State, t: Tid): Thread {
    if t in s.threads then s.threads[t] else Idle
  }

  function Put(s: State, t: Tid, th: Thread): (r: State)
    ensures r == s.(threads := r.threads)
    ensures Th(r, t) == th
    ensures forall u: Tid :: u != t ==> Th(r, u) == Th(s, u)
  {
    s.(threads := s.threads[t := th])
  }

  /** The frame writer and reader.  What the locks guarantee is proved for every
      codec; the gateway's own is GATEWAY. */
  datatype Codec = Codec(frame: Msg -> seq<byte>, read: seq<byte> -> ReadOutcome)

  const GATEWAY: Codec := Codec((m: Msg) => WriteSpec(m.opcode, m.payload), ReadSpec)

  /** All that is needed of a codec: a frame ends with the payload, and a reader makes progress. */
  ghost predicate Lawful(c: Codec) {
    && (forall m: Msg :: |c.frame(m)| >= 2 + |m.payload|)
    && (forall b: seq<byte> :: c.read(b).Got? ==>
          |c.read(b).rest| < |b| && |c.read(b).msg.payload| <= MAX_SLICE)
  }

  function HeadLen(c: Codec, m: Msg): int {
    |c.frame(m)| - |m.payload|
  }

  function Init(input: seq<byte>): State {
    State(map[], None, None, [], [], [], false, false, false, input, [], false)
  }

  predicate CanDo(c: Codec, s: State, t: Tid, a: Action) {
    var th := Th(s, t);
    match a
    case LockCc => th.WantCc? && s.cc.None?
    case LockConn => th.WantConn? && s.mu.None?
    case Accept(k) =>
      // header and payload are two Write calls: no write crosses the boundary
      && th.Writing? && 0 < k && th.done + k <= |c.frame(th.m)|
      && (th.done < HeadLen(c, th.m) ==> th.done + k <= HeadLen(c, th.m))
    case FailWrite => th.Writing? && th.done < |c.frame(th.m)|
    case FinishWrite => th.Writing? && th.done == |c.frame(th.m)|
    case UnlockCc => th.Wrote?
  }

  predicate Enabled(c: Codec, s: State, e: Event) {
    match e
    case Send(t, payload) => t >= 2 && Th(s, t).Idle? && |payload| <= MAX_SLICE
    case Tick => Th(s, PINGER).Idle?
    case PingerDone => Th(s, PINGER).Idle? && s.cancelled
    case GiveUp => Th(s, PINGER).GivingUp?
    case Read => Th(s, READER).Idle?
    case Check => Th(s, READER).Checking?
    case Do(t, a) => CanDo(c, s, t, a)
    case CancelRequest => true
    case Join => Th(s, READER).Quit? && Th(s, PINGER).Quit?
  }

  function Act(c: Codec, s: State, t: Tid, a: Action): State
    requires CanDo(c, s, t, a)
  {
    var th := Th(s, t);
    match a
    case LockCc => Put(s, t, WantConn(th.m)).(cc := Some(t))
    case LockConn => Put(s, t, Writing(th.m, 0)).(mu := Some(t))
    case Accept(k) =>
      var f, d := c.frame(th.m), th.done;
      Put(s, t, Writing(th.m, d + k)).(
        wire := s.wire + f[d..d + k],
        sent := if d + k == |f| then s.sent + [th.m] else s.sent,
        senders := if d + k == |f| then s.senders + [t] else s.senders)
    case FailWrite => Put(s, t, Wrote(false)).(mu := None, failed := true, torn := s.torn || th.done > 0)
    case FinishWrite => Put(s, t, Wrote(true)).(mu := None)
    case UnlockCc =>
      // only the ping goroutine minds a failure; the read loop goes on to its check
      Put(s, t, if t == READER then Checking else if t == PINGER && !th.ok then GivingUp else Idle).(cc := None)
  }

  function Apply(c: Codec, s: State, e: Event): State
    requires Enabled(c, s, e)
  {
    match e
    case Send(t, payload) => Put(s, t, WantCc(Msg(Rfc.TEXT, payload)))
    case Tick => Put(s, PINGER, WantCc(Msg(Rfc.PING, PING_PAYLOAD)))
    case PingerDone => Put(s, PINGER, Quit)
    case GiveUp => Put(s, PINGER, Quit).(cancelled := true)
    case Read => ApplyRead(c, s)
    case Check => Put(s, READER, if s.cancelled then Quit else Idle)
    case Do(t, a) => Act(c, s, t, a)
    case CancelRequest => s.(cancelled := true)
    case Join => s.(joined := true)
  }

  /** One read of the read loop: a failed read cancels and leaves; a close frame
      cancels; a ping starts a pong; anything else goes on to the check of the context. */
  function ApplyRead(c: Codec, s: State): (r: State)
    ensures r.cc == s.cc && r.mu == s.mu
    ensures r.wire == s.wire && r.sent == s.sent && r.senders == s.senders
    ensures r.torn == s.torn && r.failed == s.failed
  {
    var o := c.read(s.unread);
    Put(s, READER, AfterRead(o)).(
      unread := o.rest,
      read := if o.Got? then s.read + [o.msg] else s.read,
      cancelled := s.cancelled || o.Failed? || o.msg.opcode == Rfc.CLOSE)
  }

  function AfterRead(o: ReadOutcome): (th: Thread)
    ensures !HoldsCc(th)
  {
    match o
    case Failed(_, _) => Quit
    case Got(m, _) =>
      if m.opcode == Rfc.PING then WantCc(Msg(Rfc.PONG, m.payload)) else Checking
  }

  ghost predicate Run(c: Codec, s: State, es: seq<Event>, t: State)
    decreases |es|
  {
    if es == [] then s == t
    else Enabled(c, s, es[0]) && Run(c, Apply(c, s, es[0]), es[1..], t)
  }

  // ---- the invariant -----------------------------------------------------

  predicate HoldsCc(th: Thread) {
    th.WantConn? || th.Writing? || th.Wrote?
  }

  predicate Carries(th: Thread) {
    th.WantCc? || th.WantConn? || th.Writing?
  }

  /** cc.mu is held by exactly the thread inside it, and conn.mu only by a thread inside cc.mu. */
  ghost predicate LockInv(s: State) {
    forall t: Tid :: (HoldsCc(Th(s, t)) <==> s.cc == Some(t)) && (Th(s, t).Writing? <==> s.mu == Some(t))
  }

  predicate Outgoing(m: Msg) {
    m.opcode in {Rfc.TEXT, Rfc.PING, Rfc.PONG} && |m.payload| <= MAX_SLICE
  }

  /** What a thread carries: a message the code sends, in its own role (only the
      read loop sends pongs), and no more accepted bytes than its frame has. */
  predicate GoodThread(c: Codec, t: Tid, th: Thread) {
    && (th.Checking? ==> t == READER)
    && (Carries(th) ==> Outgoing(th.m) && (th.m.opcode == Rfc.PONG <==> t == READER))
    && (th.Writing? ==> th.done <= |c.frame(th.m)|)
  }

  ghost predicate MsgInv(c: Codec, s: State) {
    && (forall t: Tid :: GoodThread(c, t, Th(s, t)))
    && (forall i :: 0 <= i < |s.sent| ==> Outgoing(s.sent[i]))
  }

  /** The part of an unfinished frame that the network has accepted. */
  function Accepted(c: Codec, th: Thread): seq<byte> {
    if th.Writing? && th.done < |c.frame(th.m)| then c.frame(th.m)[..th.done] else []
  }

  /** The unfinished frame on the wire, if any: the one under conn.mu. */
  function Tail(c: Codec, s: State): seq<byte> {
    if s.mu.Some? then Accepted(c, Th(s, s.mu.value)) else []
  }

  function Frames(c: Codec, ms: seq<Msg>): (ss: seq<seq<byte>>)
    ensures |ss| == |ms|
  {
    seq(|ms|, i requires 0 <= i < |ms| => c.frame(ms[i]))
  }

  /** Whole frames of the completed sends in lock order, and then the unfinished one. */
  function Framed(c: Codec, s: State): seq<byte> {
    Flatten(Frames(c, s.sent)) + Tail(c, s)
  }

  /** Without a torn write the wire is that; a torn one leaves more bytes than that on it, for good. */
  ghost predicate WireInv(c: Codec, s: State) {
    if s.torn then s.failed && |s.wire| > |Framed(c, s)| else s.wire == Framed(c, s)
  }

  /** Leaving the read loop, or the ping goroutine's return, comes after cancellation. */
  ghost predicate CancelInv(s: State) {
    && (Th(s, READER).Quit? ==> s.cancelled)
    && (Th(s, PINGER).Quit? ==> s.cancelled)
    && (s.joined ==> Th(s, READER).Quit? && Th(s, PINGER).Quit?)
  }

  function Payloads(op: byte, ms: seq<Msg>): seq<seq<byte>> {
    if ms == [] then []
    else Payloads(op, ms[..|ms| - 1]) + (if ms[|ms| - 1].opcode == op then [ms[|ms| - 1].payload] else [])
  }

  lemma PayloadsSnoc(op: byte, ms: seq<Msg>, m: Msg)
    ensures Payloads(op, ms + [m]) == Payloads(op, ms) + if m.opcode == op then [m.payload] else []
  {
    assert (ms + [m])[..|ms|] == ms;
  }

  /** The pong the read loop owes for its last ping. */
  function Owed(c: Codec, th: Thread): seq<seq<byte>> {
    if th.WantCc? || th.WantConn? || (th.Writing? && th.done < |c.frame(th.m)|) then [th.m.payload] else []
  }

  ghost predicate PongInv(c: Codec, s: State) {
    !s.failed ==> Payloads(Rfc.PONG, s.sent) + Owed(c, Th(s, READER)) == Payloads(Rfc.PING, s.read)
  }

  /** What the read loop has read is what the reader yields on the client's whole input. */
  ghost predicate ReadInv(c: Codec, s: State, input: seq<byte>) {
    if Th(s, READER).Quit? then s.read <= ReadAll(c.read, input).0
    else s.read + ReadAll(c.read, s.unread).0 == ReadAll(c.read, input).0
  }

  ghost predicate Inv(c: Codec, s: State, input: seq<byte>) {
    && LockInv(s) && CancelInv(s)
    && MsgInv(c, s) && WireInv(c, s) && PongInv(c, s) && ReadInv(c, s, input)
  }

  // ---- every event keeps it ----------------------------------------------

  ghost predicate OnlyMoves(s: State, s': State, t: Tid) {
    forall u: Tid :: u != t ==> Th(s', u) == Th(s, u)
  }

  /** A lock passes only between "free" and the acting thread. */
  ghost predicate LockMoves(before: Option<Tid>, after: Option<Tid>, t: Tid) {
    before == after || ((before == None || before == Some(t)) && (after == None || after == Some(t)))
  }

  /** A step by which thread `t` alone moves and the locks stay consistent with it. */
  ghost predicate Local(s: State, s': State, t: Tid) {
    && OnlyMoves(s, s', t)
    && LockMoves(s.cc, s'.cc, t) && LockMoves(s.mu, s'.mu, t)
    && (HoldsCc(Th(s', t)) <==> s'.cc == Some(t))
    && (Th(s', t).Writing? <==> s'.mu == Some(t))
  }

  lemma ActLocal(c: Codec, s: State, t: Tid, a: Action)
    requires CanDo(c, s, t, a)
    requires (HoldsCc(Th(s, t)) <==> s.cc == Some(t)) && (Th(s, t).Writing? <==> s.mu == Some(t))
    ensures Local(s, Act(c, s, t, a), t)
  {
  }

  /** Steps outside the locks -- starting a send, a ping or a pong, and leaving -- touch neither lock nor wire. */
  lemma StartStands(c: Codec, s: State, e: Event)
    requires Enabled(c, s, e) && !e.Do?
    ensures var s' := Apply(c, s, e);
            && s'.cc == s.cc && s'.mu == s.mu
            && s'.wire == s.wire && s'.sent == s.sent && s'.senders == s.senders
            && s'.torn == s.torn && s'.failed == s.failed
  {
  }

  lemma StartLocal(c: Codec, s: State, e: Event, t: Tid)
    requires Enabled(c, s, e) && !e.Do? && t == Actor(e)
    ensures var s' := Apply(c, s, e);
            && OnlyMoves(s, s', t)
            && (Th(s', t) == Th(s, t) || (!HoldsCc(Th(s', t)) && !HoldsCc(Th(s, t))))
  {
  }

  /** The thread an event moves, if any. */
  function Actor(e: Event): Tid {
    match e
    case Read => READER
    case Do(t, _) => t
    case Send(t, _) => t
    case Tick => PINGER
    case PingerDone => PINGER
    case GiveUp => PINGER
    case Check => READER
    case CancelRequest => READER
    case Join => READER
  }

  lemma LockStep(c: Codec, s: State, e: Event)
    requires LockInv(s) && Enabled(c, s, e)
    ensures Local(s, Apply(c, s, e), Actor(e)) && LockInv(Apply(c, s, e))
  {
    var t := Actor(e);
    assert (HoldsCc(Th(s, t)) <==> s.cc == Some(t)) && (Th(s, t).Writing? <==> s.mu == Some(t));
    if e.Do? {
      ActLocal(c, s, e.t, e.a);
    } else {
      StartStands(c, s, e);
      StartLocal(c, s, e, t);
    }
    LocalKeepsLocks(s, Apply(c, s, e), t);
  }

  lemma LocalKeepsLocks(s: State, s': State, t: Tid)
    requires LockInv(s) && Local(s, s', t)
    ensures LockInv(s')
  {
  }

  lemma ActCancel(c: Codec, s: State, t: Tid, a: Action)
    requires CancelInv(s) && CanDo(c, s, t, a)
    ensures CancelInv(Act(c, s, t, a))
  {
  }

  lemma CancelStep(c: Codec, s: State, e: Event)
    requires CancelInv(s) && Enabled(c, s, e)
    ensures CancelInv(Apply(c, s, e))
  {
    if e.Do? {
      ActCancel(c, s, e.t, e.a);
    }
  }

  lemma ActCarry(c: Codec, s: State, t: Tid, a: Action)
    requires CanDo(c, s, t, a) && GoodThread(c, t, Th(s, t))
    ensures var s' := Act(c, s, t, a);
            && GoodThread(c, t, Th(s', t))
            && (s'.sent == s.sent || (Carries(Th(s, t)) && s'.sent == s.sent + [Th(s, t).m]))
  {
  }

  lemma StartCarry(c: Codec, s: State, e: Event)
    requires Lawful(c) && Enabled(c, s, e) && !e.Do? && GoodThread(c, Actor(e), Th(s, Actor(e)))
    ensures GoodThread(c, Actor(e), Th(Apply(c, s, e), Actor(e)))
  {
  }

  lemma MsgStep(c: Codec, s: State, e: Event)
    requires Lawful(c) && LockInv(s) && MsgInv(c, s) && Enabled(c, s, e)
    ensures MsgInv(c, Apply(c, s, e))
  {
    LockStep(c, s, e);
    assert GoodThread(c, Actor(e), Th(s, Actor(e)));
    if e.Do? {
      ActCarry(c, s, e.t, e.a);
    } else {
      StartCarry(c, s, e);
      StartStands(c, s, e);
    }
  }

  lemma AcceptBytes(frames: seq<seq<byte>>, f: seq<byte>, d: nat, k: nat)
    requires d + k <= |f|
    ensures Flatten(frames) + f[..d] + f[d..d + k]
            == if d + k == |f| then Flatten(frames + [f]) else Flatten(frames) + f[..d + k]
  {
    assert f[..d] + f[d..d + k] == f[..d + k];
    assert Flatten(frames) + f[..d] + f[d..d + k] == Flatten(frames) + f[..d + k];
    if d + k == |f| {
      assert f[..d + k] == f;
      FlattenAppend(frames, f);
    }
  }

  /** Accepted bytes extend the wire and the frames alike. */
  lemma AcceptStep(c: Codec, s: State, t: Tid, k: nat)
    requires s.mu == Some(t) && CanDo(c, s, t, Accept(k))
    ensures var (f, d, s') := (c.frame(Th(s, t).m), Th(s, t).done, Act(c, s, t, Accept(k)));
            && s'.wire == s.wire + f[d..d + k] && Framed(c, s') == Framed(c, s) + f[d..d + k]
            && s'.torn == s.torn && s'.failed == s.failed
  {
    var th := Th(s, t);
    AcceptBytes(Frames(c, s.sent), c.frame(th.m), th.done, k);
    assert Frames(c, s.sent + [th.m]) == Frames(c, s.sent) + [c.frame(th.m)];
  }

  /** Taking or releasing cc.mu does not touch the tail. */
  lemma TailCc(c: Codec, s: State, t: Tid, a: Action)
    requires (Th(s, t).Writing? <==> s.mu == Some(t)) && CanDo(c, s, t, a) && (a.LockCc? || a.UnlockCc?)
    ensures var s' := Act(c, s, t, a);
            && s'.wire == s.wire && s'.sent == s.sent && Tail(c, s') == Tail(c, s)
            && s'.torn == s.torn && s'.failed == s.failed
  {
    assert s.mu != Some(t);
  }

  /** Taking conn.mu starts with nothing accepted; releasing it leaves no tail, or a torn one. */
  lemma TailConn(c: Codec, s: State, t: Tid, a: Action)
    requires (Th(s, t).Writing? <==> s.mu == Some(t)) && CanDo(c, s, t, a)
    requires a.LockConn? || a.FailWrite? || a.FinishWrite?
    ensures var s' := Act(c, s, t, a);
            && s'.wire == s.wire && s'.sent == s.sent && Tail(c, s') == []
            && (s'.torn <==> s.torn || Tail(c, s) != [])
            && (s.failed || (s'.torn && !s.torn) ==> s'.failed)
  {
  }

  lemma WireStep(c: Codec, s: State, e: Event)
    requires LockInv(s) && WireInv(c, s) && Enabled(c, s, e)
    ensures WireInv(c, Apply(c, s, e))
  {
    var t := Actor(e);
    assert Th(s, t).Writing? <==> s.mu == Some(t);
    if e.Do? && e.a.Accept? {
      AcceptStep(c, s, t, e.a.k);
    } else if e.Do? && (e.a.LockCc? || e.a.UnlockCc?) {
      TailCc(c, s, t, e.a);
    } else if e.Do? {
      TailConn(c, s, t, e.a);
    } else {
      StartStands(c, s, e);
      StartLocal(c, s, e, t);
    }
  }

  lemma PongAccept(c: Codec, s: State, t: Tid, k: nat)
    requires PongInv(c, s) && CanDo(c, s, t, Accept(k)) && GoodThread(c, t, Th(s, t))
    ensures PongInv(c, Act(c, s, t, Accept(k)))
  {
    PayloadsSnoc(Rfc.PONG, s.sent, Th(s, t).m);
  }

  lemma PongRead(c: Codec, s: State)
    requires PongInv(c, s) && Enabled(c, s, Read)
    ensures PongInv(c, Apply(c, s, Read))
  {
    var o := c.read(s.unread);
    if o.Got? {
      PayloadsSnoc(Rfc.PING, s.read, o.msg);
    }
  }

  /** Other actions leave both sides of the pong account alone. */
  lemma PongAct(c: Codec, s: State, t: Tid, a: Action)
    requires Lawful(c) && PongInv(c, s) && CanDo(c, s, t, a) && !a.Accept?
    ensures PongInv(c, Act(c, s, t, a))
  {
    var s' := Act(c, s, t, a);
    assert s'.sent == s.sent && s'.read == s.read;
    if t == READER && !s'.failed {
      assert Owed(c, Th(s', t)) == Owed(c, Th(s, t));
    }
  }

  lemma PongStep(c: Codec, s: State, e: Event)
    requires Lawful(c) && MsgInv(c, s) && PongInv(c, s) && Enabled(c, s, e)
    ensures PongInv(c, Apply(c, s, e))
  {
    if e.Do? && e.a.Accept? {
      assert GoodThread(c, e.t, Th(s, e.t));
      PongAccept(c, s, e.t, e.a.k);
    } else if e.Do? {
      PongAct(c, s, e.t, e.a);
    } else if e.Read? {
      PongRead(c, s);
    }
  }

  lemma ReadRead(c: Codec, s: State, input: seq<byte>)
    requires Lawful(c) && ReadInv(c, s, input) && Enabled(c, s, Read)
    ensures ReadInv(c, Apply(c, s, Read), input)
  {
    if c.read(s.unread).Got? {
      var (m, rest) := (c.read(s.unread).msg, c.read(s.unread).rest);
      ReadAllStep(c.read, s.unread, m, rest);
      assert s.read + ([m] + ReadAll(c.read, rest).0) == s.read + [m] + ReadAll(c.read, rest).0;
    }
  }

  lemma ReadAct(c: Codec, s: State, t: Tid, a: Action, input: seq<byte>)
    requires ReadInv(c, s, input) && CanDo(c, s, t, a)
    ensures ReadInv(c, Act(c, s, t, a), input)
  {
    var s' := Act(c, s, t, a);
    assert s'.read == s.read && s'.unread == s.unread;
    assert !Th(s, t).Quit?;
  }

  lemma ReadStep(c: Codec, s: State, e: Event, input: seq<byte>)
    requires Lawful(c) && ReadInv(c, s, input) && Enabled(c, s, e)
    ensures ReadInv(c, Apply(c, s, e), input)
  {
    if e.Read? {
      ReadRead(c, s, input);
    } else if e.Do? {
      ReadAct(c, s, e.t, e.a, input);
    }
  }

  lemma InvStep(c: Codec, s: State, e: Event, input: seq<byte>)
    requires Lawful(c) && Inv(c, s, input) && Enabled(c, s, e)
    ensures Inv(c, Apply(c, s, e), input)
  {
    LockStep(c, s, e);
    CancelStep(c, s, e);
    MsgStep(c, s, e);
    WireStep(c, s, e);
    PongStep(c, s, e);
    ReadStep(c, s, e, input);
  }

  lemma {:induction false} InvRun(c: Codec, s: State, es: seq<Event>, t: State, input: seq<byte>)
    requires Lawful(c) && Inv(c, s, input) && Run(c, s, es, t)
    ensures Inv(c, t, input)
    decreases |es|
  {
    if es != [] {
      InvStep(c, s, es[0], input);
      InvRun(c, Apply(c, s, es[0]), es[1..], t, input);
    }
  }

  /** Every state of every run of a connection satisfies the invariant, whatever the codec. */
  lemma Reachable(c: Codec, input: seq<byte>, es: seq<Event>, t: State)
    requires Lawful(c) && Run(c, Init(input), es, t)
    ensures Inv(c, t, input)
  {
    InvRun(c, Init(input), es, t, input);
  }

  // ---- main results, for the gateway's codec --------------------------------

  lemma GatewayLawful()
    ensures Lawful(GATEWAY)
  {
    forall b: seq<byte> | ReadSpec(b).Got?
      ensures |ReadSpec(b).rest| < |b| && |ReadSpec(b).msg.payload| <= MAX_SLICE
    {
      ReadConsumesOneFrame(b);
    }
  }

  lemma OutgoingSendable(m: Msg)
    requires Outgoing(m)
    ensures Sendable(m)
  {
    assert Rfc.TEXT & 0x0F == Rfc.TEXT && Rfc.PING & 0x0F == Rfc.PING && Rfc.PONG & 0x0F == Rfc.PONG;
  }

  function ServerFrames(ms: seq<Msg>): (fs: seq<Rfc.Frame>)
    ensures |fs| == |ms|
  {
    seq(|ms|, i requires 0 <= i < |ms| => ServerFrame(ms[i]))
  }

  lemma FramesAreRfcFrames(ms: seq<Msg>)
    requires forall i :: 0 <= i < |ms| ==> Outgoing(ms[i])
    ensures Rfc.ValidFrames(ServerFrames(ms))
    ensures Flatten(Frames(GATEWAY, ms)) == Rfc.EncodeAll(ServerFrames(ms))
  {
    forall i | 0 <= i < |ms|
      ensures Rfc.ValidFrame(ServerFrame(ms[i]))
      ensures Frames(GATEWAY, ms)[i] == Rfc.Encode(ServerFrame(ms[i]))
    {
      OutgoingSendable(ms[i]);
      WriteIsShortestFrame(ms[i]);
    }
    assert Frames(GATEWAY, ms) == Rfc.Encodings(ServerFrames(ms));
  }

  lemma TailIncomplete(s: State)
    requires LockInv(s) && MsgInv(GATEWAY, s)
    ensures Rfc.Decode(Tail(GATEWAY, s)).Incomplete?
  {
    if s.mu.Some? {
      var th := Th(s, s.mu.value);
      if th.Writing? && th.done < |GATEWAY.frame(th.m)| {
        OutgoingSendable(th.m);
        WriteIsShortestFrame(th.m);
        Rfc.DecodePrefix(ServerFrame(th.m), th.done);
      }
    }
  }

  /** In every run, the standard's decoder finds on the wire exactly the frames of
      the completed sends in lock order, followed by at most the one unfinished
      frame under conn.mu, if and only if no write has failed part-way through a
      frame.  Then it recovers exactly the messages sent, every frame unmasked and
      every length in its shortest form. */
  lemma WireIsWholeFrames(input: seq<byte>, es: seq<Event>, t: State)
    requires Run(GATEWAY, Init(input), es, t)
    ensures Rfc.DecodeAll(t.wire) == (ServerFrames(t.sent), Tail(GATEWAY, t)) <==> !t.torn
    ensures !t.torn ==> Messages(Rfc.DecodeAll(t.wire).0) == t.sent
    ensures !t.torn ==>
              forall f | f in Rfc.DecodeAll(t.wire).0 :: f.form == Rfc.Shortest(|f.payload|) && f.mask.None?
  {
    ReachableWire(input, es, t);
    Rfc.DecodeAllEncodeAll(ServerFrames(t.sent), Tail(GATEWAY, t));
    Rfc.EncodeAllDecodeAll(t.wire);
    ServerFramesSay(t.sent);
  }

  lemma ReachableWire(input: seq<byte>, es: seq<Event>, t: State)
    requires Run(GATEWAY, Init(input), es, t)
    ensures Rfc.ValidFrames(ServerFrames(t.sent))
    ensures Framed(GATEWAY, t) == Rfc.EncodeAll(ServerFrames(t.sent)) + Tail(GATEWAY, t)
    ensures t.torn <==> t.wire != Framed(GATEWAY, t)
    ensures t.torn ==> t.failed
    ensures Rfc.Decode(Tail(GATEWAY, t)).Incomplete?
  {
    GatewayLawful();
    Reachable(GATEWAY, input, es, t);
    FramesAreRfcFrames(t.sent);
    TailIncomplete(t);
  }

  lemma ServerFramesSay(ms: seq<Msg>)
    ensures Messages(ServerFrames(ms)) == ms
    ensures forall f | f in ServerFrames(ms) :: f.form == Rfc.Shortest(|f.payload|) && f.mask.None?
  {
  }

  lemma {:induction false} PayloadsPrefix(op: byte, a: seq<Msg>, b: seq<Msg>)
    requires a <= b
    ensures Payloads(op, a) <= Payloads(op, b)
    decreases |b|
  {
    if a == b {
    } else {
      PayloadsPrefix(op, a, b[..|b| - 1]);
    }
  }

  /** While no write has failed, the pongs a client decodes are, in order, the
      unmasked payloads of the first pings that the reader finds in whatever the
      client has sent, be it cut off in mid-frame or malformed further on. */
  lemma PongsEchoPings(input: seq<byte>, es: seq<Event>, t: State)
    requires Run(GATEWAY, Init(input), es, t) && !t.failed
    ensures Payloads(Rfc.PONG, Messages(Rfc.DecodeAll(t.wire).0)) <= Payloads(Rfc.PING, ReadAll(ReadSpec, input).0)
  {
    ReadSoFar(input, es, t);
    ReachableWire(input, es, t);
    WireIsWholeFrames(input, es, t);
    PayloadsPrefix(Rfc.PING, t.read, ReadAll(ReadSpec, input).0);
  }

  lemma ReadSoFar(input: seq<byte>, es: seq<Event>, t: State)
    requires Run(GATEWAY, Init(input), es, t)
    ensures t.read <= ReadAll(ReadSpec, input).0
    ensures !t.failed ==> Payloads(Rfc.PONG, t.sent) <= Payloads(Rfc.PING, t.read)
  {
    GatewayLawful();
    Reachable(GATEWAY, input, es, t);
  }

  /** For a client that sends whole frames: its own pings, in order. */
  lemma PongsEchoClientPings(fs: seq<Rfc.Frame>, es: seq<Event>, t: State)
    requires ClientFrames(fs)
    requires Run(GATEWAY, Init(Rfc.EncodeAll(fs)), es, t) && !t.failed
    ensures Payloads(Rfc.PONG, Messages(Rfc.DecodeAll(t.wire).0)) <= Payloads(Rfc.PING, Messages(fs))
  {
    ReadAllFrames(fs);
    PongsEchoPings(Rfc.EncodeAll(fs), es, t);
  }

  // ---- when the connection ends ------------------------------------------------

  /** The context is cancelled by the request, by a failed ping, by a failed read and
      by a close frame (opcode 0x8), and by nothing else. */
  lemma CancelledBy(c: Codec, s: State, e: Event)
    requires Enabled(c, s, e)
    ensures Apply(c, s, e).cancelled <==>
              || s.cancelled || e.CancelRequest? || e.GiveUp?
              || (e.Read? && (c.read(s.unread).Failed? || c.read(s.unread).msg.opcode == 0x8))
  {
    if e.Do? {
      ActNeverCancels(c, s, e.t, e.a);
    }
  }

  lemma ActNeverCancels(c: Codec, s: State, t: Tid, a: Action)
    requires CanDo(c, s, t, a)
    ensures Act(c, s, t, a).cancelled == s.cancelled
  {
  }

  /** One turn of the read loop after the read: it leaves at once when the read
      failed, answers a ping (opcode 0x9) by a pong (opcode 0xA) with the same payload,
      and otherwise checks the context, leaving if and only if it is cancelled. */
  lemma ReadTurn(c: Codec, s: State)
    requires Enabled(c, s, Read)
    ensures var (s', o) := (Apply(c, s, Read), c.read(s.unread));
            && s'.unread == o.rest
            && (o.Failed? ==> Th(s', READER).Quit? && s'.read == s.read)
            && (o.Got? ==> s'.read == s.read + [o.msg])
            && (o.Got? && o.msg.opcode == 0x9 ==> Th(s', READER) == WantCc(Msg(0xA, o.msg.payload)))
            && (o.Got? && o.msg.opcode != 0x9 ==>
                  Enabled(c, s', Check) && (Th(Apply(c, s', Check), READER).Quit? <==> s'.cancelled))
  {
  }

  /** A close frame cancels, and the loop is left at the next check. */
  lemma CloseEndsTheLoop(c: Codec, s: State)
    requires Enabled(c, s, Read) && c.read(s.unread).Got? && c.read(s.unread).msg.opcode == 0x8
    ensures Apply(c, s, Read).cancelled
    ensures Enabled(c, Apply(c, s, Read), Check)
    ensures Th(Apply(c, Apply(c, s, Read), Check), READER).Quit?
  {
  }

  /** After its write the read loop goes on whether or not the pong was sent, and the
      ping goroutine goes on if and only if its ping was sent; otherwise it cancels and
      returns. */
  lemma AfterWrite(c: Codec, s: State, ok: bool)
    ensures Th(s, READER) == Wrote(ok) ==> Th(Act(c, s, READER, UnlockCc), READER).Checking?
    ensures Th(s, PINGER) == Wrote(ok) ==>
              var s' := Act(c, s, PINGER, UnlockCc);
              && (ok ==> Th(s', PINGER).Idle?)
              && (!ok ==> Enabled(c, s', GiveUp)
                          && Apply(c, s', GiveUp).cancelled && Th(Apply(c, s', GiveUp), PINGER).Quit?)
  {
  }

  /** How a write returns: without an error exactly when its whole frame was accepted. */
  lemma WriteReturns(c: Codec, s: State, t: Tid)
    requires Th(s, t).Writing?
    ensures CanDo(c, s, t, FinishWrite) ==>
              Th(s, t).done == |c.frame(Th(s, t).m)| && Th(Act(c, s, t, FinishWrite), t) == Wrote(true)
    ensures CanDo(c, s, t, FailWrite) ==>
              && Th(s, t).done < |c.frame(Th(s, t).m)|
              && Th(Act(c, s, t, FailWrite), t) == Wrote(false) && Act(c, s, t, FailWrite).failed
  {
  }

  /** What is sent for a text, and for a tick: opcodes 0x1 and 0x9, and the payload "ping". */
  lemma WhatIsSent(c: Codec, s: State, e: Event)
    requires Enabled(c, s, e)
    ensures e.Send? ==> Th(Apply(c, s, e), e.t) == WantCc(Msg(0x1, e.payload))
    ensures e.Tick? ==> Th(Apply(c, s, e), PINGER) == WantCc(Msg(0x9, [0x70, 0x69, 0x6E, 0x67]))
  {
  }

  /** A close frame, once read, has cancelled the context and is the last message read. */
  ghost predicate CloseInv(s: State) {
    forall i :: 0 <= i < |s.read| && s.read[i].opcode == 0x8 ==>
      i == |s.read| - 1 && s.cancelled && (Th(s, READER).Checking? || Th(s, READER).Quit?)
  }

  lemma CloseAct(c: Codec, s: State, t: Tid, a: Action)
    requires CloseInv(s) && CanDo(c, s, t, a)
    ensures CloseInv(Act(c, s, t, a))
  {
    var s' := Act(c, s, t, a);
    assert s'.read == s.read && s'.cancelled == s.cancelled;
    assert t == READER ==> !Th(s, t).Checking? && !Th(s, t).Quit?;
  }

  lemma CloseStep(c: Codec, s: State, e: Event)
    requires CloseInv(s) && Enabled(c, s, e)
    ensures CloseInv(Apply(c, s, e))
  {
    if e.Do? {
      CloseAct(c, s, e.t, e.a);
    } else if e.Read? {
      ReadTurn(c, s);
      CancelledBy(c, s, e);
    }
  }

  lemma {:induction false} CloseRun(c: Codec, s: State, es: seq<Event>, t: State)
    requires CloseInv(s) && Run(c, s, es, t)
    ensures CloseInv(t)
    decreases |es|
  {
    if es != [] {
      CloseStep(c, s, es[0]);
      CloseRun(c, Apply(c, s, es[0]), es[1..], t);
    }
  }

  /** In every run: nothing is read after a close frame, and once one has been read
      the context is cancelled and the loop is left or about to be. */
  lemma NothingReadAfterClose(c: Codec, input: seq<byte>, es: seq<Event>, t: State, i: nat)
    requires Run(c, Init(input), es, t) && i < |t.read| && t.read[i].opcode == 0x8
    ensures i == |t.read| - 1 && t.cancelled && (Th(t, READER).Checking? || Th(t, READER).Quit?)
  {
    CloseRun(c, Init(input), es, t);
  }

  // ---- a write that fails part-way -----------------------------------------

  lemma RunCons(c: Codec, s: State, e: Event, rest: seq<Event>, t: State)
    requires Enabled(c, s, e) && Run(c, Apply(c, s, e), rest, t)
    ensures Run(c, s, [e] + rest, t)
  {
    assert ([e] + rest)[1..] == rest;
  }

  /** A sender alone at the locks gets both of them. */
  lemma LockBoth(c: Codec, s: State, t: Tid, payload: seq<byte>) returns (es: seq<Event>, r: State)
    requires Enabled(c, s, Send(t, payload)) && s.cc.None? && s.mu.None?
    ensures Run(c, s, es, r)
    ensures Th(r, t) == Writing(Msg(Rfc.TEXT, payload), 0) && OnlyMoves(s, r, t)
    ensures r.cc == r.mu == Some(t) && r.torn == s.torn && r.sent == s.sent && r.wire == s.wire
  {
    var s1 := Apply(c, s, Send(t, payload));
    var s2 := Act(c, s1, t, LockCc);
    r := Act(c, s2, t, LockConn);
    RunCons(c, s2, Do(t, LockConn), [], r);
    RunCons(c, s1, Do(t, LockCc), [Do(t, LockConn)], r);
    es := [Do(t, LockCc)] + [Do(t, LockConn)];
    RunCons(c, s, Send(t, payload), es, r);
    es := [Send(t, payload)] + es;
  }

  /** Its write fails after one byte. */
  lemma TornSend(c: Codec, s: State, t: Tid, payload: seq<byte>) returns (es: seq<Event>, r: State)
    requires Lawful(c) && Enabled(c, s, Send(t, payload)) && s.cc.None? && s.mu.None?
    ensures Run(c, s, es, r)
    ensures r.cc.None? && r.mu.None? && r.torn && r.sent == s.sent && OnlyMoves(s, r, t)
    ensures r.wire == s.wire + c.frame(Msg(Rfc.TEXT, payload))[..1]
  {
    var s3;
    es, s3 := LockBoth(c, s, t, payload);
    var s4 := Act(c, s3, t, Accept(1));
    var s5 := Act(c, s4, t, FailWrite);
    r := Act(c, s5, t, UnlockCc);
    RunCons(c, s5, Do(t, UnlockCc), [], r);
    RunCons(c, s4, Do(t, FailWrite), [Do(t, UnlockCc)], r);
    var fs := [Do(t, FailWrite)] + [Do(t, UnlockCc)];
    RunCons(c, s3, Do(t, Accept(1)), fs, r);
    RunAppend(c, s, es, s3, [Do(t, Accept(1))] + fs, r);
    es := es + ([Do(t, Accept(1))] + fs);
  }

  /** Header and payload are accepted, each by one write. */
  lemma AcceptBoth(c: Codec, s: State, t: Tid, m: Msg) returns (es: seq<Event>, r: State)
    requires Lawful(c) && Th(s, t) == Writing(m, 0) && m.payload != []
    ensures Run(c, s, es, r)
    ensures r.torn == s.torn && r.sent == s.sent + [m] && r.wire == s.wire + c.frame(m)
  {
    var h, n := HeadLen(c, m), |m.payload|;
    var s1 := Act(c, s, t, Accept(h));
    r := Act(c, s1, t, Accept(n));
    assert c.frame(m)[0..h] + c.frame(m)[h..h + n] == c.frame(m);
    RunCons(c, s1, Do(t, Accept(n)), [], r);
    RunCons(c, s, Do(t, Accept(h)), [Do(t, Accept(n))], r);
    es := [Do(t, Accept(h))] + [Do(t, Accept(n))];
  }

  /** Its whole frame is accepted. */
  lemma WholeSend(c: Codec, s: State, t: Tid, payload: seq<byte>) returns (es: seq<Event>, r: State)
    requires Lawful(c) && Enabled(c, s, Send(t, payload)) && s.cc.None? && s.mu.None? && payload != []
    ensures Run(c, s, es, r)
    ensures r.torn == s.torn && r.sent == s.sent + [Msg(Rfc.TEXT, payload)]
    ensures r.wire == s.wire + c.frame(Msg(Rfc.TEXT, payload))
  {
    var es1, s1 := LockBoth(c, s, t, payload);
    var es2;
    es2, r := AcceptBoth(c, s1, t, Msg(Rfc.TEXT, payload));
    RunAppend(c, s, es1, s1, es2, r);
    es := es1 + es2;
  }

  lemma {:induction false} RunAppend(c: Codec, s: State, es: seq<Event>, t: State, fs: seq<Event>, u: State)
    requires Run(c, s, es, t) && Run(c, t, fs, u)
    ensures Run(c, s, es + fs, u)
    decreases |es|
  {
    if es == [] {
      assert es + fs == fs;
    } else {
      RunAppend(c, Apply(c, s, es[0]), es[1..], t, fs, u);
      assert (es + fs)[1..] == es[1..] + fs;
    }
  }

  lemma TornBytes()
    ensures WriteSpec(Rfc.TEXT, [0x61])[..1] + WriteSpec(Rfc.TEXT, [0x61]) == [0x81, 0x81, 1, 0x61]
    ensures Rfc.DecodeAll([0x81, 0x81, 1, 0x61]) == ([], [0x81, 0x81, 1, 0x61])
  {
    assert WriteSpec(Rfc.TEXT, [0x61]) == [0x81, 1, 0x61];
  }

  /** What the condition of WireIsWholeFrames shuts out: after one byte of a frame is accepted
      and the write fails, the next send succeeds and the client recovers nothing. */
  lemma TornFrameHidesNextSend()
    ensures exists es, t :: Run(GATEWAY, Init([]), es, t) && t.torn
              && t.sent == [Msg(Rfc.TEXT, [0x61])] && Rfc.DecodeAll(t.wire) == ([], t.wire)
  {
    GatewayLawful();
    var es, s := TornSend(GATEWAY, Init([]), 2, [0x61]);
    var fs, t := WholeSend(GATEWAY, s, 3, [0x61]);
    RunAppend(GATEWAY, Init([]), es, s, fs, t);
    TornBytes();
  }
}
