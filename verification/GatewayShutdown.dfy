/** Leaving a gateway connection: once the read loop is left, the handler waits
    for the ping goroutine.  Why that wait ends once nothing more arrives. */
module GatewayShutdown {
  import opened Prelude
  import opened Bytes
  import opened WsConn
  import opened GatewayConnection
  import opened Sums
  import Rfc = Rfc6455

  // ---- the way out, when the network takes the pending bytes ---------------

  /** Steps a thread still needs to get out of the locks; a frame costs at most two writes. */
  function Work(c: Codec, th: Thread): nat {
    match th
    case WantCc(_) => 8
    case WantConn(_) => 7
    case Writing(m, d) => if d < HeadLen(c, m) then 5 else if d < |c.frame(m)| then 4 else 3
    case Wrote(_) => 2
    case Idle => 1
    case Checking => 1
    case GivingUp => 1
    case Quit => 0
  }

  /** Steps left before the wait on `pingDone` can return. */
  function Remaining(c: Codec, s: State): nat {
    Work(c, Th(s, PINGER)) + (if s.cc.Some? && s.cc.value != PINGER then Work(c, Th(s, s.cc.value)) else 0)
  }

  /** Whoever holds cc.mu is inside it, and then conn.mu is free or its own. */
  lemma HolderCanMove(s: State)
    requires LockInv(s) && s.cc.Some?
    ensures HoldsCc(Th(s, s.cc.value)) && (Th(s, s.cc.value).WantConn? ==> s.mu.None?)
  {
    assert HoldsCc(Th(s, s.cc.value));
    if s.mu.Some? {
      assert Th(s, s.mu.value).Writing?;
    }
  }

  /** The holder's next action. */
  function NextAction(c: Codec, th: Thread): Action {
    if th.WantConn? then LockConn
    else if th.Writing? && th.done < HeadLen(c, th.m) then Accept(HeadLen(c, th.m) - th.done)
    else if th.Writing? && th.done < |c.frame(th.m)| then Accept(|c.frame(th.m)| - th.done)
    else if th.Writing? then FinishWrite
    else UnlockCc
  }

  /** A thread inside the locks gets one step closer to leaving them. */
  lemma HolderMoves(c: Codec, s: State, t: Tid) returns (s': State)
    requires Lawful(c) && GoodThread(c, t, Th(s, t)) && HoldsCc(Th(s, t)) && s.cc == Some(t)
    requires Th(s, t).WantConn? ==> s.mu.None?
    ensures CanDo(c, s, t, NextAction(c, Th(s, t))) && s' == Act(c, s, t, NextAction(c, Th(s, t)))
    ensures Work(c, Th(s', t)) < Work(c, Th(s, t))
    ensures (s'.cc == s.cc || s'.cc.None?) && OnlyMoves(s, s', t)
  {
    s' := Act(c, s, t, NextAction(c, Th(s, t)));
  }

  /** With the locks free, the ping goroutine takes cc.mu or returns. */
  lemma PingerMoves(c: Codec, s: State) returns (e: Event, s': State)
    requires s.cc.None? && s.cancelled && Th(s, READER).Quit?
    requires !Th(s, PINGER).Quit? && !HoldsCc(Th(s, PINGER)) && !Th(s, PINGER).Checking?
    ensures Internal(e) && Enabled(c, s, e) && s' == Apply(c, s, e) && Th(s', READER).Quit?
    ensures Remaining(c, s') < Remaining(c, s)
  {
    e := if Th(s, PINGER).WantCc? then Do(PINGER, LockCc)
         else if Th(s, PINGER).GivingUp? then GiveUp else PingerDone;
    s' := Apply(c, s, e);
  }

  lemma UnblockStep(c: Codec, s: State, input: seq<byte>) returns (e: Event, s': State)
    requires Lawful(c) && Inv(c, s, input)
    requires Th(s, READER).Quit? && !Th(s, PINGER).Quit?
    ensures Internal(e) && Works(e) && Enabled(c, s, e) && s' == Apply(c, s, e)
    ensures Inv(c, s', input) && Th(s', READER).Quit?
    ensures Remaining(c, s') < Remaining(c, s)
  {
    assert HoldsCc(Th(s, READER)) <==> s.cc == Some(READER);
    if s.cc.Some? {
      var t := s.cc.value;
      HolderCanMove(s);
      assert GoodThread(c, t, Th(s, t));
      s' := HolderMoves(c, s, t);
      e := Do(t, NextAction(c, Th(s, t)));
    } else {
      assert HoldsCc(Th(s, PINGER)) <==> s.cc == Some(PINGER);
      assert GoodThread(c, PINGER, Th(s, PINGER));
      e, s' := PingerMoves(c, s);
    }
    InvStep(c, s, e, input);
  }

  /** The steps of threads that are on their way through the locks, and of the ping
      goroutine on its way out.  The network's choices are all among them: it takes
      any number of bytes or fails the write. */
  predicate Works(e: Event) {
    e.Do? || e.PingerDone? || e.GiveUp?
  }

  predicate Internal(e: Event) {
    !e.Send? && !e.Tick? && !e.Read? && !e.CancelRequest? && e != Do(Actor(e), FailWrite)
  }

  /** Once the read loop is left and as long as the network takes what is written:
      from every reachable state there is a schedule of at most `Remaining + 1`
      steps of the lock holder and the ping goroutine alone after which the wait
      returns.  Nothing more needs to come from the client, and no write to fail. */
  lemma {:induction false} WaitCompletes(c: Codec, s: State, input: seq<byte>)
    returns (es: seq<Event>, t: State)
    requires Lawful(c) && Inv(c, s, input) && Th(s, READER).Quit?
    ensures Run(c, s, es, t) && t.joined
    ensures |es| <= Remaining(c, s) + 1
    ensures forall i :: 0 <= i < |es| ==> Internal(es[i])
    decreases Remaining(c, s)
  {
    if Th(s, PINGER).Quit? {
      es, t := [Join], Apply(c, s, Join);
      assert Run(c, t, es[1..], t);
    } else {
      var e, s' := UnblockStep(c, s, input);
      var rest;
      rest, t := WaitCompletes(c, s', input);
      es := [e] + rest;
      RunCons(c, s, e, rest, t);
    }
  }

  // ---- every schedule, whatever the network does ------------------------------

  /** Steps a thread can still take on its way through the locks, one for every byte. */
  function Need(c: Codec, th: Thread): nat {
    match th
    case WantCc(m) => |c.frame(m)| + 4
    case WantConn(m) => |c.frame(m)| + 3
    case Writing(m, d) => if d < |c.frame(m)| then |c.frame(m)| - d + 2 else 2
    case Wrote(_) => 1
    case _ => 0
  }

  function Needs(c: Codec, s: State): map<Tid, nat> {
    map t | t in s.threads :: Need(c, s.threads[t])
  }

  /** Work left in all threads, and the ping goroutine's return. */
  ghost function Backlog(c: Codec, s: State): nat {
    Sum(Needs(c, s)) + if Th(s, PINGER).Quit? then 0 else 1
  }

  /** What a new send or a last tick adds. */
  function Cost(c: Codec, e: Event): nat {
    match e
    case Send(_, payload) => |c.frame(Msg(Rfc.TEXT, payload))| + 4
    case Tick => |c.frame(Msg(Rfc.PING, PING_PAYLOAD))| + 4
    case _ => 0
  }

  lemma NeedsPut(c: Codec, s: State, s': State, t: Tid, th: Thread)
    requires s'.threads == s.threads[t := th]
    ensures Sum(Needs(c, s')) == Sum(Needs(c, s)) - Need(c, Th(s, t)) + Need(c, th)
  {
    assert Needs(c, s') == Needs(c, s)[t := Need(c, th)];
    SumSet(Needs(c, s), t, Need(c, th));
  }

  /** Every action brings its thread closer to the end, whatever the network chooses. */
  lemma NeedDrops(c: Codec, s: State, t: Tid, a: Action) returns (th: Thread)
    requires CanDo(c, s, t, a)
    ensures Act(c, s, t, a).threads == s.threads[t := th]
    ensures Need(c, th) < Need(c, Th(s, t))
    ensures !th.Quit? && !Th(s, t).Quit?
  {
    th := Act(c, s, t, a).threads[t];
  }

  /** The other events: which thread they move and what it then has to do. */
  lemma NeedOf(c: Codec, s: State, e: Event) returns (th: Thread)
    requires Enabled(c, s, e) && (e.Send? || e.Tick? || e.PingerDone? || e.GiveUp?)
    ensures Apply(c, s, e).threads == s.threads[Actor(e) := th]
    ensures Need(c, Th(s, Actor(e))) == 0 && Need(c, th) == Cost(c, e)
    ensures e.Tick? ==> !th.Quit? && !Th(s, PINGER).Quit?
    ensures e.PingerDone? || e.GiveUp? ==> th.Quit? && !Th(s, PINGER).Quit?
  {
    th := Apply(c, s, e).threads[Actor(e)];
  }

  lemma BacklogStep(c: Codec, s: State, e: Event)
    requires Enabled(c, s, e) && Th(s, READER).Quit?
    ensures var s' := Apply(c, s, e);
            Th(s', READER).Quit? && Backlog(c, s') + (if Works(e) then 1 else 0) <= Backlog(c, s) + Cost(c, e)
  {
    var s' := Apply(c, s, e);
    if e.Do? {
      var th := NeedDrops(c, s, e.t, e.a);
      NeedsPut(c, s, s', e.t, th);
    } else if e.Send? || e.Tick? || e.PingerDone? || e.GiveUp? {
      var th := NeedOf(c, s, e);
      NeedsPut(c, s, s', Actor(e), th);
    } else {
      assert s'.threads == s.threads;
    }
  }

  /** Working steps of a run. */
  function Steps(es: seq<Event>): nat {
    if es == [] then 0 else (if Works(es[0]) then 1 else 0) + Steps(es[1..])
  }

  function Arrivals(c: Codec, es: seq<Event>): nat {
    if es == [] then 0 else Cost(c, es[0]) + Arrivals(c, es[1..])
  }

  /** After the read loop is left, every run, under every choice of the network,
      takes at most as many working steps as the backlog and what arrives allow. */
  lemma {:induction false} StepsAreBounded(c: Codec, s: State, es: seq<Event>, t: State)
    requires Th(s, READER).Quit? && Run(c, s, es, t)
    ensures Th(t, READER).Quit? && Steps(es) + Backlog(c, t) <= Backlog(c, s) + Arrivals(c, es)
    decreases |es|
  {
    if es != [] {
      BacklogStep(c, s, es[0]);
      StepsAreBounded(c, Apply(c, s, es[0]), es[1..], t);
    }
  }

  predicate InLocks(th: Thread) {
    th.WantCc? || HoldsCc(th)
  }

  /** While some thread is at the locks, some thread can take a working step. */
  lemma SomeoneMoves(c: Codec, s: State, input: seq<byte>, t: Tid) returns (e: Event)
    requires Lawful(c) && Inv(c, s, input) && InLocks(Th(s, t))
    ensures Works(e) && Enabled(c, s, e)
  {
    assert HoldsCc(Th(s, t)) <==> s.cc == Some(t);
    if s.cc.Some? {
      var h := s.cc.value;
      HolderCanMove(s);
      assert GoodThread(c, h, Th(s, h));
      var _ := HolderMoves(c, s, h);
      e := Do(h, NextAction(c, Th(s, h)));
    } else {
      e := Do(t, LockCc);
    }
  }

  ghost predicate AtRest(c: Codec, s: State) {
    forall e: Event :: Works(e) ==> !Enabled(c, s, e)
  }

  /** A run can stop only with no thread at the locks and, once the read loop is
      left, with the wait about to return. */
  lemma RestIsTheEnd(c: Codec, s: State, input: seq<byte>)
    requires Lawful(c) && Inv(c, s, input) && AtRest(c, s)
    ensures forall t: Tid :: !InLocks(Th(s, t))
    ensures Th(s, READER).Quit? ==> Enabled(c, s, Join)
  {
    forall t: Tid
      ensures !InLocks(Th(s, t))
    {
      if InLocks(Th(s, t)) {
        var e := SomeoneMoves(c, s, input, t);
      }
    }
    if Th(s, READER).Quit? && !Th(s, PINGER).Quit? {
      var e, _ := UnblockStep(c, s, input);
    }
  }

  // ---- main result --------------------------------------------------------------

  /** Every continuation works towards the end of the wait: its working steps are
      bounded by the backlog and by what still arrives, and where no working step is
      left the wait returns.  While sends keep arriving it need not return. */
  ghost predicate EveryScheduleEnds(s: State) {
    forall more, t :: Run(GATEWAY, s, more, t) ==>
      && Steps(more) <= Backlog(GATEWAY, s) + Arrivals(GATEWAY, more)
      && (AtRest(GATEWAY, t) ==> Enabled(GATEWAY, t, Join))
  }

  /** In every run of the gateway's connection: leaving the read loop comes after
      cancellation, and conn.mu is only ever held inside cc.mu.  A handler that has
      left the loop gets past its wait on every schedule on which sends and ticks
      stop arriving, whatever the network does with the pending bytes; if it takes
      them, 17 steps can be enough. */
  lemma NoDeadlock(input: seq<byte>, es: seq<Event>, s: State)
    requires Run(GATEWAY, Init(input), es, s)
    ensures Th(s, READER).Quit? || Th(s, PINGER).Quit? ==> s.cancelled
    ensures s.mu.Some? ==> s.cc == s.mu
    ensures Th(s, READER).Quit? ==> EveryScheduleEnds(s)
    ensures Th(s, READER).Quit? ==>
              exists more, t :: Run(GATEWAY, s, more, t) && t.joined && |more| <= 17
  {
    GatewayLawful();
    Reachable(GATEWAY, input, es, s);
    if s.mu.Some? {
      assert Th(s, s.mu.value).Writing?;
    }
    if Th(s, READER).Quit? {
      ShortWayOut(s, input);
      AllSchedulesEnd(s, input);
    }
  }

  lemma ShortWayOut(s: State, input: seq<byte>)
    requires Inv(GATEWAY, s, input) && Th(s, READER).Quit?
    ensures exists more, t :: Run(GATEWAY, s, more, t) && t.joined && |more| <= 17
  {
    GatewayLawful();
    var more, t := WaitCompletes(GATEWAY, s, input);
  }

  lemma AllSchedulesEnd(s: State, input: seq<byte>)
    requires Inv(GATEWAY, s, input) && Th(s, READER).Quit?
    ensures EveryScheduleEnds(s)
  {
    GatewayLawful();
    forall more, t | Run(GATEWAY, s, more, t)
      ensures Steps(more) <= Backlog(GATEWAY, s) + Arrivals(GATEWAY, more)
      ensures AtRest(GATEWAY, t) ==> Enabled(GATEWAY, t, Join)
    {
      StepsAreBounded(GATEWAY, s, more, t);
      InvRun(GATEWAY, s, more, t, input);
      if AtRest(GATEWAY, t) {
        RestIsTheEnd(GATEWAY, t, input);
      }
    }
  }
}
